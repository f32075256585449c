# Where are we eating: a Dafny model

The application asks the browser for the user's position. From there it runs
four nearby-place searches (restaurants and cafes, fast food, takeaway and
delivery, bakeries and coffee shops) and then:

- merges the results unique by place id, first occurrence winning;
- drops every place outside the search circle;
- turns each remaining place into a restaurant record with a price tier
  (1 to 3) and a service style ("Fast Food", "Cafe", "Seafood" or
  "Casual Dining").

The page filters those records by service style and price. It shows a loading
box, an error box, a "no matches" box or a spinning wheel. The wheel shows at
most 18 slices. Each slice has a cleaned, shortened label and a colour from an
8-entry palette. When a spin stops, a result card shows the chosen restaurant,
its rating when it has a non-zero one, and a Google Maps link.

The model is made of six modules:

- `Wrappers`: the `Option` type used for every field the JavaScript may leave
  undefined.
- `Seqs`: an order-preserving `Filter` with its facts, a subsequence relation
  and "pairwise distinct keys".
- `Text`: the JavaScript string operations the code relies on.
  - `includes`, with a proof that it agrees with the positional definition of
    a substring.
  - `toLowerCase`, on ASCII letters only.
  - The whitespace class `\s` and `trim`, using exactly the ECMAScript
    WhiteSpace and LineTerminator code points.
  - `replace(/\s+/g, " ").trim()` as `Clean`. Its result is the input's words
    (maximal runs of non-whitespace) joined by single spaces. So it is
    trimmed, keeps every visible character in order, and has `Clean` as a
    fixed point.
- `NearbyRestaurants`: the data-shaping half of `useNearbyRestaurants`.
  - `mapPriceLevel` and `classifyServiceType`.
  - The merge loop over a `Map`, as a method proved equal to a declarative
    specification ("keep the first record with each id, in the order of
    first occurrence").
  - The radius filter and the record mapping.
  - The whole fetch cycle, `Aggregate`, and the method `FetchNearby` that
    computes it step by step as the source does.
- `WheelCanvas`: the pure preparation the wheel component does: the segment
  cap, labels, font size, colours, configuration, the spin result, the Maps
  link and the rating test.
- `App`: the two filters, the choice of card content, and an end-to-end lemma.
  The lemma says that whatever slice the wheel stops on, the reported
  restaurant passed both filters, lies inside the radius and was the first
  record with its id.

Calls the model cannot see are parameters:

- the distance function, `dist`;
- `encodeURIComponent`, `encode`;
- the conversion of a number inside a template literal, `numberText`.

The classification follows the code's rule order. Rule 1 (a fast-food,
takeaway or delivery tag, or a chain keyword) is checked before the "dunkin"
rule. So a place named "Dunkin" that is tagged `meal_takeaway` is "Fast Food",
not "Cafe" (`NearbyRestaurants.DunkinExamples`,
`NearbyRestaurants.FastFoodTagBeatsDunkin`). The comment at
src/useNearbyRestaurants.js:215 reads as though Dunkin should always stay a
cafe. The model keeps the code's order.

## Model

| member | source | states |
|---|---|---|
| NearbyRestaurants.MapPriceLevel | src/useNearbyRestaurants.js:174-183 | the tier is always 1, 2 or 3 |
| NearbyRestaurants.PriceLevelTable | src/useNearbyRestaurants.js:174-183 | tier 2 exactly for the moderate level; tier 3 exactly for the expensive and very-expensive levels; tier 1 for everything else, including a missing or empty level |
| NearbyRestaurants.ClassifyServiceType | src/useNearbyRestaurants.js:185-227 | the style is always one of the four named styles |
| NearbyRestaurants.ClassificationTable | src/useNearbyRestaurants.js:185-227 | each style, as exactly the records that get it, follows the rule order: fast food, then "dunkin", then seafood, then cafe/coffee/bakery, then casual dining |
| NearbyRestaurants.ChainKeywordIsFastFood | src/useNearbyRestaurants.js:193-213 | a lowercased name containing any of the ten chain keywords gives "Fast Food", whatever the tags |
| NearbyRestaurants.FastFoodTagBeatsDunkin | src/useNearbyRestaurants.js:206-216 | a fast-food, takeaway or delivery tag (among the types or as primary type) gives "Fast Food" even when the name contains "dunkin" |
| NearbyRestaurants.SeafoodBeatsCafe | src/useNearbyRestaurants.js:218-224 | with no earlier rule firing, a place tagged both seafood and cafe is "Seafood" |
| NearbyRestaurants.DunkinMatchesNoKeyword | src/useNearbyRestaurants.js:193-216 | the name "dunkin" contains none of the chain keywords, so the Dunkin rule is reachable |
| NearbyRestaurants.DunkinExamples | src/useNearbyRestaurants.js:206-224 | "Dunkin" tagged bakery is "Cafe"; "Dunkin" tagged bakery and meal_takeaway is "Fast Food" |
| NearbyRestaurants.UniqueById | src/useNearbyRestaurants.js:129-133 | the merged list holds exactly the records that are the first with their (truthy) id; every one has an id, ids are pairwise distinct, it is a subsequence of the input, and any two of its records come in the order of their first occurrences |
| NearbyRestaurants.FirstIdTest | src/useNearbyRestaurants.js:132 | the loop test `p?.id && !unique.has(p.id)` holds exactly when the record is the first with its id |
| NearbyRestaurants.MergeKeepsEarliest | src/useNearbyRestaurants.js:129-133 | for any record with an id, the merge keeps exactly one record with that id: the earliest one in the concatenated results |
| NearbyRestaurants.MergeUniqueById | src/useNearbyRestaurants.js:129-136 | the loop over a `Map` keyed by id, first insertion winning, yields exactly `UniqueById` of its input; its invariant keeps the map equal to the one built by storing the list's records under their ids |
| NearbyRestaurants.MapOfValues | src/useNearbyRestaurants.js:129-136 | storing records with distinct ids under those ids builds a map with one entry per record, each record under its own id: `unique.values()` is exactly the merged list |
| NearbyRestaurants.WithinRadiusOnly | src/useNearbyRestaurants.js:136-143 | keeps exactly the places with both coordinates present whose distance from the centre is at most the radius; keeps their order; preserves distinct ids |
| NearbyRestaurants.RadiusIsInclusive | src/useNearbyRestaurants.js:137-142 | a place with a missing coordinate is dropped; otherwise it is kept exactly when its distance is `<=` the radius |
| NearbyRestaurants.ToRestaurant | src/useNearbyRestaurants.js:145-155 | the record keeps the place id, the address and the two coordinates (none when the location is missing); a non-empty display name becomes the name, and the name is never empty; a present rating `x` becomes `Stars(x)`; the tier is `mapPriceLevel` of the price level (1..3), the style is `classifyServiceType` of the place (one of four), and the dish type is "General" |
| NearbyRestaurants.ToRestaurants | src/useNearbyRestaurants.js:145-155 | the mapping keeps the length and converts each place at its own position |
| NearbyRestaurants.ToRestaurantDefaults | src/useNearbyRestaurants.js:147-148 | the name is "Unknown restaurant" exactly when the display name is missing, empty or already that text; the rating is "N/A" exactly when it is missing, and a rating of 0 is kept |
| NearbyRestaurants.Aggregate | src/useNearbyRestaurants.js:122-155 | one fetch cycle stores no more restaurants than the four responses hold together, and each stored restaurant has a non-empty name, a tier 1..3, one of the four styles and dish type "General" |
| NearbyRestaurants.FetchNearby | src/useNearbyRestaurants.js:122-155 | the concatenation, merge loop, radius filter and mapping yield exactly `Aggregate` of the four responses |
| NearbyRestaurants.AggregateSource | src/useNearbyRestaurants.js:122-155 | every stored restaurant is built from a record that was the first with its id in call order and lay within the radius |
| NearbyRestaurants.AggregateComplete | src/useNearbyRestaurants.js:122-155 | every record that is first with its id and lies within the radius yields a stored restaurant |
| NearbyRestaurants.AggregateDistinctIds | src/useNearbyRestaurants.js:129-155 | stored restaurants carry non-empty, pairwise distinct ids |
| NearbyRestaurants.AggregateRecords | src/useNearbyRestaurants.js:122-155 | the survivors are a subsequence of the concatenated results; every stored restaurant has coordinates within the radius, a tier 1..3, one of the four styles, dish type "General" and a non-empty name |
| NearbyRestaurants.AggregateOrder | src/useNearbyRestaurants.js:122-155 | any two stored restaurants are the conversions of two places that were first with their ids, and they are stored in the order in which those places first occur in call order |
| NearbyRestaurants.KeptInFirstOrder | src/useNearbyRestaurants.js:129-143 | any two places that survive the merge and the radius filter are first occurrences of their ids, in the order of those first occurrences |
| Text.IncludesIffOccurs | src/useNearbyRestaurants.js:210-216 | `includes` holds exactly when the part occurs at some position |
| Text.Clean | src/WheelCanvas.jsx:30 | the cleaned text is the input's words (maximal runs of non-whitespace characters) joined by single spaces; hence it is trimmed at both ends, every whitespace character left is a single space followed by a visible character, and the visible characters are those of the input, in order |
| Text.CleanIdempotent | src/WheelCanvas.jsx:30 | cleaning twice equals cleaning once |
| WheelCanvas.DisplayRestaurants | src/WheelCanvas.jsx:23-26 | the shown list is the prefix of length min(n, 18) |
| WheelCanvas.DisplayBoundary | src/WheelCanvas.jsx:23-26 | a list is shown whole exactly when it has at most 18 entries; a list of 19 loses exactly its last entry |
| WheelCanvas.ShortenLabel | src/WheelCanvas.jsx:28-33 | the label has at most 16 characters; it is empty exactly when the cleaned name is empty; it is the cleaned name when that has at most 16 characters, and otherwise its first 15 characters plus an ellipsis |
| WheelCanvas.ShortenLabelIdempotent | src/WheelCanvas.jsx:28-33 | shortening a label again changes nothing |
| WheelCanvas.TextFontSize | src/WheelCanvas.jsx:75-76 | the font size is 11 exactly above 16 segments, 13 exactly for 13 to 16, 15 exactly for 9 to 12 and 18 exactly for at most 8 |
| WheelCanvas.FontSizeNonIncreasing | src/WheelCanvas.jsx:75-76 | more segments never get a larger font |
| WheelCanvas.BuildSegments | src/WheelCanvas.jsx:78-82 | one segment per shown restaurant, at the same position, that reads back that restaurant; each label is the shortened name and has at most 16 characters; the colour comes from the palette by position, differs from the neighbour's, and repeats every eight segments |
| WheelCanvas.SliceColorsDistinct | src/WheelCanvas.jsx:8-17 | the eight palette colours are pairwise different |
| WheelCanvas.WrapAroundColor | src/WheelCanvas.jsx:78-82 | the first and last slice share a colour exactly when the last index is a multiple of 8 |
| WheelCanvas.ConfigureWheel | src/WheelCanvas.jsx:72-86 | no wheel is built exactly when the list is empty; otherwise the segment count equals the list length, the segments are those built from the list, and the font size is the one for that count (within 11..18) |
| WheelCanvas.FinishedResult | src/WheelCanvas.jsx:110-112 | a segment with a record reports that record; a segment without one reports a result named by the segment text |
| WheelCanvas.SpinReportsShownRestaurant | src/WheelCanvas.jsx:110-112 | a spin that stops on slice i reports restaurant i of the list, and i is below 18 |
| WheelCanvas.SpinOnBareSegment | src/WheelCanvas.jsx:110-112 | a segment without a record reports a result named by its text |
| WheelCanvas.MapsUrl | src/WheelCanvas.jsx:134-145 | "#" exactly when there is no result, or the place is not known and the name is empty; every other link starts with the Maps search prefix; a known place (truthy lat, lng and id) gives exactly the prefix, the latitude, a comma, the longitude, `&query_place_id=` and the id; otherwise the link is the prefix followed by the encoded name |
| WheelCanvas.MapsUrlForStoredRestaurant | src/WheelCanvas.jsx:134-145 | a stored restaurant never gets "#"; one with latitude or longitude exactly 0 falls back to the name search |
| WheelCanvas.HasRating | src/WheelCanvas.jsx:147-148 | a rating is shown only for a picked restaurant, and for one exactly when its rating is neither "N/A" nor 0 |
| WheelCanvas.HasRatingForStoredRestaurant | src/WheelCanvas.jsx:147-148 | for a stored restaurant the rating is shown exactly when the place came with a non-zero rating; with no result nothing is shown |
| App.PriceOptionValues | src/App.jsx:19 | `Number` reads the price options "1", "2" and "3" as 1, 2 and 3, and the text "$" as no number |
| App.FilteredRestaurants | src/App.jsx:16-22 | keeps exactly the restaurants matching the non-empty filters, in order; with both filters empty the list is unchanged |
| App.FiltersPinFields | src/App.jsx:16-22 | a non-empty style filter pins the style of everything kept, and a non-empty price filter pins the tier |
| App.PriceOptionKeepsTier | src/App.jsx:19 | choosing price "2" keeps exactly the tier-2 restaurants of the chosen style |
| App.ChooseContent | src/App.jsx:54-69 | loading beats an error, an error beats "no matches", and the wheel is shown exactly when nothing is loading, there is no error and some restaurant matches; the wheel gets the filtered list |
| App.WheelIsAlwaysConfigured | src/App.jsx:63-68 | whenever the wheel is shown it is configured with between 1 and 18 segments |
| App.SpinResultIsNearbyAndFiltered | src/App.jsx:14-22 | a spin on the wheel built from one fetch cycle reports a stored restaurant that passes both filters, has coordinates within the radius and is the conversion of a place that was the first with its id |

## Left out

- Geolocation, the search URL, headers, API key, request body and HTTP error handling (src/useNearbyRestaurants.js:18-74) are browser and network I/O. The four decoded responses are inputs.
- `Promise.all`, the React state hooks and effects, and the asynchronous ordering of fetches are concurrency and UI runtime. The model covers one fetch cycle after all four calls have answered.
- The missing-key and invalid-radius guards and the generic catch (src/useNearbyRestaurants.js:80-90, 158-163) only set an error message. An error reaches the model as the `error` text given to `App.ChooseContent`.
- The conversion of miles to meters (`* 1609.34`) and the haversine `distanceInMeters` are floating-point arithmetic. The distance is the parameter `dist`, and the radius is a given real.
- NaN and infinite numbers are not modelled (coordinates, ratings and the radius are reals).
- `encodeURIComponent` and the rendering of a number in a template literal are the parameters `encode` and `numberText`.
- The drawing library, its `typeof` guard, `drawCenterBubble`, `startSpin`, `closeModal` and all markup and styling are rendering. The record of wheel options covers only segment count, segments and font size.
- `ratingText` (`toFixed(1)`) is floating-point number formatting.
- WheelCanvas.ShortenLabel: lengths and `slice` count Unicode characters, not UTF-16 code units, so a label with characters outside the Basic Multilingual Plane is cut at a different place than in a browser.
- Text.LowerChar: only ASCII letters are lowercased. Lowercasing elsewhere in Unicode (for example the Kelvin sign becoming "k") is not modelled, so such a name can fail to match a keyword in the model where the browser would match it.
- App.NumericValue: only non-empty strings of decimal digits are numbers. The other forms `Number` accepts (signs, decimals, exponents, surrounding spaces) are not, though the price options only produce "1", "2" and "3".
- A `null` entry in a response list is not representable. A record without a (truthy) id plays its role, and the merge skips both alike.
- Filter.jsx and RestaurantList.jsx are presentation: one emits the selected strings, the other lists the filtered records.
