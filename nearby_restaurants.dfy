/** The data-shaping part of `useNearbyRestaurants`: the four search results are
    merged unique by id, cut to the search circle, and each survivor becomes a
    normalised restaurant record with a price tier and a service style. */
module NearbyRestaurants {
  import opened Wrappers
  import opened Seqs
  import opened Text

  /** `place.location`: either coordinate may be missing or not a number. */
  datatype LatLng = LatLng(latitude: Option<real>, longitude: Option<real>)

  /** A place as the search endpoint returns it; `displayName` is `displayName.text`. */
  datatype RawPlace = RawPlace(
    id: Option<string>,
    displayName: Option<string>,
    rating: Option<real>,
    formattedAddress: Option<string>,
    location: Option<LatLng>,
    priceLevel: Option<string>,
    primaryType: Option<string>,
    types: Option<seq<string>>)

  /** The parsed body of one search call; `places` may be absent. */
  datatype SearchResponse = SearchResponse(places: Option<seq<RawPlace>>)

  /** A point in degrees: the search centre or a place's coordinates. */
  datatype Coord = Coord(lat: real, lng: real)

  /** `place.rating ?? "N/A"`. */
  datatype Rating = Stars(value: real) | NotAvailable

  /** The normalised record handed to the filter layer and the wheel. */
  datatype Restaurant = Restaurant(
    id: Option<string>,
    name: string,
    rating: Rating,
    address: Option<string>,
    lat: Option<real>,
    lng: Option<real>,
    price: int,
    serviceStyle: string,
    dishType: string)

  const UnknownRestaurant: string := "Unknown restaurant"
  const GeneralDish: string := "General"

  const FastFood: string := "Fast Food"
  const Cafe: string := "Cafe"
  const Seafood: string := "Seafood"
  const CasualDining: string := "Casual Dining"

  predicate IsServiceStyle(style: string)
  {
    style == FastFood || style == Cafe || style == Seafood || style == CasualDining
  }

  const FastFoodKeywords: seq<string> := [
    "mcdonald", "burger king", "wendy", "taco bell", "subway",
    "chick-fil-a", "popeyes", "kfc", "domino", "pizza hut"
  ]

  // ---------------------------------------------------------------- price

  /** `mapPriceLevel`: the price enum as a tier of 1, 2 or 3. */
  function MapPriceLevel(priceLevel: Option<string>): (tier: int)
    ensures 1 <= tier <= 3
  {
    match priceLevel
    case None => 1
    case Some(level) =>
      if level == "" then 1
      else if level == "PRICE_LEVEL_MODERATE" then 2
      else if level == "PRICE_LEVEL_EXPENSIVE" || level == "PRICE_LEVEL_VERY_EXPENSIVE" then 3
      else 1
  }

  /** The whole price table, each tier stated as exactly the levels that give it. */
  lemma PriceLevelTable(priceLevel: Option<string>)
    ensures MapPriceLevel(priceLevel) == 2 <==> priceLevel == Some("PRICE_LEVEL_MODERATE")
    ensures MapPriceLevel(priceLevel) == 3 <==>
              priceLevel == Some("PRICE_LEVEL_EXPENSIVE") || priceLevel == Some("PRICE_LEVEL_VERY_EXPENSIVE")
    ensures MapPriceLevel(priceLevel) == 1 <==>
              priceLevel !in {Some("PRICE_LEVEL_MODERATE"), Some("PRICE_LEVEL_EXPENSIVE"), Some("PRICE_LEVEL_VERY_EXPENSIVE")}
    ensures priceLevel == None || priceLevel == Some("") ==> MapPriceLevel(priceLevel) == 1
  {
  }

  // ---------------------------------------------------------------- service style

  /** `place.types || []`. */
  function TypesOf(p: RawPlace): seq<string>
  {
    match p.types
    case None => []
    case Some(ts) => ts
  }

  /** `place.primaryType || ""`. */
  function PrimaryOf(p: RawPlace): string
  {
    match p.primaryType
    case None => ""
    case Some(t) => t
  }

  /** `hasType(t)`: the tag is among the types or is the primary type. */
  predicate HasType(p: RawPlace, t: string)
  {
    t in TypesOf(p) || PrimaryOf(p) == t
  }

  /** `place.displayName?.text?.toLowerCase() || ""`. */
  function NameKey(p: RawPlace): string
  {
    match p.displayName
    case None => ""
    case Some(text) => ToLower(text)
  }

  /** `fastFoodKeywords.some((k) => name.includes(k))`. */
  predicate HasFastFoodKeyword(name: string)
  {
    exists i :: 0 <= i < |FastFoodKeywords| && Includes(name, FastFoodKeywords[i])
  }

  /** The condition of rule 1: a fast-food tag or a chain keyword in the name. */
  predicate FastFoodRule(p: RawPlace)
  {
    HasType(p, "fast_food_restaurant") || HasType(p, "meal_takeaway") || HasType(p, "meal_delivery")
    || HasFastFoodKeyword(NameKey(p))
  }

  predicate DunkinRule(p: RawPlace)
  {
    Includes(NameKey(p), "dunkin")
  }

  predicate SeafoodRule(p: RawPlace)
  {
    HasType(p, "seafood_restaurant")
  }

  predicate CafeRule(p: RawPlace)
  {
    HasType(p, "cafe") || HasType(p, "coffee_shop") || HasType(p, "bakery")
  }

  /** `classifyServiceType`: the rules are tried in order and the first that holds decides. */
  function ClassifyServiceType(p: RawPlace): (style: string)
    ensures IsServiceStyle(style)
  {
    if FastFoodRule(p) then FastFood
    else if DunkinRule(p) then Cafe
    else if SeafoodRule(p) then Seafood
    else if CafeRule(p) then Cafe
    else CasualDining
  }

  /** Each style is stated as exactly the records that receive it. */
  lemma ClassificationTable(p: RawPlace)
    ensures ClassifyServiceType(p) == FastFood <==> FastFoodRule(p)
    ensures ClassifyServiceType(p) == Cafe <==>
              !FastFoodRule(p) && (DunkinRule(p) || (!SeafoodRule(p) && CafeRule(p)))
    ensures ClassifyServiceType(p) == Seafood <==> !FastFoodRule(p) && !DunkinRule(p) && SeafoodRule(p)
    ensures ClassifyServiceType(p) == CasualDining <==>
              !FastFoodRule(p) && !DunkinRule(p) && !SeafoodRule(p) && !CafeRule(p)
  {
  }

  /** A chain keyword in the name wins over every tag, cafe and seafood included. */
  lemma ChainKeywordIsFastFood(p: RawPlace, k: nat)
    requires k < |FastFoodKeywords| && Includes(NameKey(p), FastFoodKeywords[k])
    ensures ClassifyServiceType(p) == FastFood
  {
  }

  /** A fast-food, takeaway or delivery tag wins even for a name containing "dunkin". */
  lemma FastFoodTagBeatsDunkin(p: RawPlace)
    requires HasType(p, "fast_food_restaurant") || HasType(p, "meal_takeaway") || HasType(p, "meal_delivery")
    ensures ClassifyServiceType(p) == FastFood
  {
  }

  /** With both seafood and cafe tags and no earlier rule, seafood wins. */
  lemma SeafoodBeatsCafe(p: RawPlace)
    requires !FastFoodRule(p) && !DunkinRule(p)
    requires "seafood_restaurant" in TypesOf(p) && "cafe" in TypesOf(p)
    ensures ClassifyServiceType(p) == Seafood
  {
  }

  /** Every chain keyword has a letter that "dunkin" lacks, so a name whose
      lowercased form is "dunkin" matches no keyword. */
  lemma DunkinMatchesNoKeyword()
    ensures !HasFastFoodKeyword("dunkin")
  {
    var name := "dunkin";
    var missing := ['m', 'b', 'w', 'a', 'b', 'c', 'p', 'f', 'o', 'p'];
    forall i | 0 <= i < |FastFoodKeywords| ensures !Includes(name, FastFoodKeywords[i]) {
      assert missing[i] in FastFoodKeywords[i];
      assert missing[i] !in name;
      if Includes(name, FastFoodKeywords[i]) {
        IncludesOnlyPresentChars(name, FastFoodKeywords[i], missing[i]);
      }
    }
  }

  /** A place named "Dunkin" with only a bakery tag is a cafe; tagged `meal_takeaway`
      as well it is fast food, because rule 1 is checked before the Dunkin rule. */
  lemma DunkinExamples(id: string)
    ensures ClassifyServiceType(RawPlace(Some(id), Some("Dunkin"), None, None, None, None, None, Some(["bakery"])))
            == Cafe
    ensures ClassifyServiceType(RawPlace(Some(id), Some("Dunkin"), None, None, None, None, None,
                                         Some(["bakery", "meal_takeaway"])))
            == FastFood
  {
    var p := RawPlace(Some(id), Some("Dunkin"), None, None, None, None, None, Some(["bakery"]));
    assert NameKey(p) == "dunkin";
    DunkinMatchesNoKeyword();
    assert StartsWith("dunkin", "dunkin");
    assert !HasType(p, "fast_food_restaurant") && !HasType(p, "meal_takeaway") && !HasType(p, "meal_delivery");
    assert DunkinRule(p);
  }

  // ---------------------------------------------------------------- merge unique by id

  /** `p?.id` is truthy. */
  predicate HasId(p: RawPlace)
  {
    p.id.Some? && p.id.value != ""
  }

  function IdOf(p: RawPlace): Option<string>
  {
    p.id
  }

  /** Position `k` holds a record with an id that no earlier record carries. */
  predicate IsFirstWithId(s: seq<RawPlace>, k: int)
    requires 0 <= k < |s|
  {
    HasId(s[k]) && forall j :: 0 <= j < k ==> s[j].id != s[k].id
  }

  /** The records at positions `k..` that are first with their id, in order. */
  function FirstsFrom(s: seq<RawPlace>, k: nat): seq<RawPlace>
    requires k <= |s|
    decreases |s| - k
  {
    if k == |s| then []
    else (if IsFirstWithId(s, k) then [s[k]] else []) + FirstsFrom(s, k + 1)
  }

  /** Position `k` of `s` holds `x`, and no earlier record has its id. */
  predicate FirstAt(s: seq<RawPlace>, k: int, x: RawPlace)
  {
    0 <= k < |s| && IsFirstWithId(s, k) && s[k] == x
  }

  /** The first occurrence of `x`'s id comes before that of `y`'s id. */
  predicate FirstBefore(s: seq<RawPlace>, x: RawPlace, y: RawPlace)
  {
    forall kx, ky :: 0 <= kx < |s| && 0 <= ky < |s| && FirstAt(s, kx, x) && FirstAt(s, ky, y) ==> kx < ky
  }

  /** The records of `u` come in the order of their first occurrences in `s`. */
  predicate InFirstOccurrenceOrder(u: seq<RawPlace>, s: seq<RawPlace>)
  {
    Pairwise(u, (x, y) => FirstBefore(s, x, y))
  }

  /** The merged list: every record with an id that is the first with that id,
      in the order of first occurrence. */
  function UniqueById(s: seq<RawPlace>): (u: seq<RawPlace>)
    ensures forall x :: x in u <==> exists k :: 0 <= k < |s| && IsFirstWithId(s, k) && s[k] == x
    ensures forall i :: 0 <= i < |u| ==> HasId(u[i])
    ensures DistinctKeys(u, IdOf)
    ensures InFirstOccurrenceOrder(u, s)
    ensures IsSubsequence(u, s)
  {
    FirstsFromMembers(s, 0);
    FirstsFromDistinct(s, 0);
    FirstsFromOrdered(s, 0);
    FirstsFromSubsequence(s, 0);
    assert s[0..] == s;
    FirstsFrom(s, 0)
  }

  /** Two first occurrences of the same id are the same position. */
  lemma FirstUnique(s: seq<RawPlace>, a: nat, b: nat)
    requires a < |s| && b < |s| && IsFirstWithId(s, a) && IsFirstWithId(s, b)
    requires s[a].id == s[b].id
    ensures a == b
  {
  }

  lemma {:induction false} FirstsFromOrdered(s: seq<RawPlace>, k: nat)
    requires k <= |s|
    ensures InFirstOccurrenceOrder(FirstsFrom(s, k), s)
    decreases |s| - k
  {
    if k < |s| {
      FirstsFromOrdered(s, k + 1);
      var rest := FirstsFrom(s, k + 1);
      if IsFirstWithId(s, k) {
        FirstsFromMembers(s, k + 1);
        var r := [s[k]] + rest;
        assert FirstsFrom(s, k) == r;
        forall i, j | 0 <= i < j < |r| ensures FirstBefore(s, r[i], r[j]) {
          assert r[j] == rest[j - 1];
          if i == 0 {
            assert rest[j - 1] in rest;
            var m :| k + 1 <= m < |s| && IsFirstWithId(s, m) && s[m] == rest[j - 1];
            forall kx, ky | 0 <= kx < |s| && 0 <= ky < |s| && FirstAt(s, kx, r[i]) && FirstAt(s, ky, r[j])
              ensures kx < ky
            {
              FirstUnique(s, kx, k);
              FirstUnique(s, ky, m);
            }
          } else {
            assert r[i] == rest[i - 1];
            assert FirstBefore(s, rest[i - 1], rest[j - 1]);
          }
        }
      } else {
        assert FirstsFrom(s, k) == rest;
      }
    }
  }

  lemma {:induction false} FirstsFromMembers(s: seq<RawPlace>, k: nat)
    requires k <= |s|
    ensures forall x :: x in FirstsFrom(s, k) <==> exists j :: k <= j < |s| && IsFirstWithId(s, j) && s[j] == x
    ensures forall i :: 0 <= i < |FirstsFrom(s, k)| ==> HasId(FirstsFrom(s, k)[i])
    decreases |s| - k
  {
    if k < |s| {
      FirstsFromMembers(s, k + 1);
      var rest := FirstsFrom(s, k + 1);
      if IsFirstWithId(s, k) {
        assert FirstsFrom(s, k) == [s[k]] + rest;
      } else {
        assert FirstsFrom(s, k) == rest;
      }
    }
  }

  lemma {:induction false} FirstsFromDistinct(s: seq<RawPlace>, k: nat)
    requires k <= |s|
    ensures DistinctKeys(FirstsFrom(s, k), IdOf)
    decreases |s| - k
  {
    if k < |s| {
      FirstsFromDistinct(s, k + 1);
      var rest := FirstsFrom(s, k + 1);
      if IsFirstWithId(s, k) {
        FirstsFromMembers(s, k + 1);
        forall m | 0 <= m < |rest| ensures rest[m].id != s[k].id {
          assert rest[m] in rest;
          var j :| k + 1 <= j < |s| && IsFirstWithId(s, j) && s[j] == rest[m];
        }
        var r := [s[k]] + rest;
        forall i, j | 0 <= i < j < |r| ensures IdOf(r[i]) != IdOf(r[j]) {
          assert r[j] == rest[j - 1];
          if i > 0 {
            assert r[i] == rest[i - 1];
          }
        }
      }
    }
  }

  lemma {:induction false} FirstsFromSubsequence(s: seq<RawPlace>, k: nat)
    requires k <= |s|
    ensures IsSubsequence(FirstsFrom(s, k), s[k..])
    decreases |s| - k
  {
    if k < |s| {
      FirstsFromSubsequence(s, k + 1);
      var rest := FirstsFrom(s, k + 1);
      assert s[k..][0] == s[k];
      assert s[k..][1..] == s[k + 1..];
      if IsFirstWithId(s, k) {
        assert FirstsFrom(s, k) == [s[k]] + rest;
        assert ([s[k]] + rest)[1..] == rest;
      } else {
        assert FirstsFrom(s, k) == rest;
      }
    }
  }

  /** Every record with an id is preceded by (or is) the first record with that id. */
  lemma {:induction false} FirstWithSameId(s: seq<RawPlace>, k: nat) returns (f: nat)
    requires k < |s| && HasId(s[k])
    ensures f <= k && IsFirstWithId(s, f) && s[f].id == s[k].id
    decreases k
  {
    if IsFirstWithId(s, k) {
      f := k;
    } else {
      var j :| 0 <= j < k && s[j].id == s[k].id;
      f := FirstWithSameId(s, j);
    }
  }

  /** A record whose id occurs several times is represented in the merge by
      exactly one record: the earliest one with that id. */
  lemma MergeKeepsEarliest(s: seq<RawPlace>, k: nat) returns (f: nat)
    requires k < |s| && HasId(s[k])
    ensures f <= k && IsFirstWithId(s, f) && s[f].id == s[k].id
    ensures s[f] in UniqueById(s)
    ensures forall x :: x in UniqueById(s) && x.id == s[k].id ==> x == s[f]
  {
    f := FirstWithSameId(s, k);
    forall x | x in UniqueById(s) && x.id == s[k].id ensures x == s[f] {
      var j :| 0 <= j < |s| && IsFirstWithId(s, j) && s[j] == x;
      assert j == f by {
        assert s[j].id == s[f].id;
      }
    }
  }

  /** The ids recorded in a `Map` after inserting the records of `s[..n]`. */
  function IdsBefore(s: seq<RawPlace>, n: nat): set<string>
    requires n <= |s|
  {
    if n == 0 then {}
    else IdsBefore(s, n - 1) + (if HasId(s[n - 1]) then {s[n - 1].id.value} else {})
  }

  lemma {:induction false} IdsBeforeMeans(s: seq<RawPlace>, n: nat, v: string)
    requires n <= |s|
    ensures v in IdsBefore(s, n) <==> exists j :: 0 <= j < n && HasId(s[j]) && s[j].id == Some(v)
  {
    if n > 0 {
      IdsBeforeMeans(s, n - 1, v);
    }
  }

  /** The loop's test `p?.id && !unique.has(p.id)` is exactly "first with its id". */
  lemma FirstIdTest(s: seq<RawPlace>, i: nat)
    requires i < |s|
    ensures IsFirstWithId(s, i) <==> HasId(s[i]) && s[i].id.value !in IdsBefore(s, i)
  {
    if HasId(s[i]) {
      IdsBeforeMeans(s, i, s[i].id.value);
    }
  }

  /** The merge loop: a `Map` keyed by id, filled in input order, first insertion
      winning; `values` is the `Map`'s values in insertion order. */
  /** The map that storing each of `values` under its id, in order, builds. */
  function MapOf(values: seq<RawPlace>): map<string, RawPlace>
  {
    if values == [] then map[]
    else
      var last := values[|values| - 1];
      MapOf(values[..|values| - 1])[if last.id.Some? then last.id.value else "" := last]
  }

  lemma MapOfSnoc(values: seq<RawPlace>, p: RawPlace)
    requires HasId(p)
    ensures MapOf(values + [p]) == MapOf(values)[p.id.value := p]
  {
    assert (values + [p])[..|values|] == values;
  }

  /** `values` lists exactly the entries of the `unique` map, each under its
      own id: it is what `Object.values(unique)` returns. */
  predicate ValuesOf(unique: map<string, RawPlace>, values: seq<RawPlace>)
  {
    && |values| == |unique|
    && forall m :: 0 <= m < |values| ==>
         HasId(values[m]) && values[m].id.value in unique && unique[values[m].id.value] == values[m]
  }

  /** Every key of the built map is the id of one of the stored records. */
  lemma {:induction false} MapOfKeys(values: seq<RawPlace>)
    requires forall i :: 0 <= i < |values| ==> HasId(values[i])
    ensures forall k :: k in MapOf(values) ==> exists m :: 0 <= m < |values| && values[m].id == Some(k)
  {
    if values != [] {
      var n := |values| - 1;
      var init := values[..n];
      MapOfKeys(init);
      forall k | k in MapOf(values) ensures exists m :: 0 <= m < |values| && values[m].id == Some(k) {
        if k != values[n].id.value {
          var m :| 0 <= m < |init| && init[m].id == Some(k);
          assert values[m] == init[m];
        }
      }
    }
  }

  /** Adding a record under a fresh id appends it to the map's values. */
  lemma ValuesOfExtend(unique: map<string, RawPlace>, values: seq<RawPlace>, p: RawPlace)
    requires ValuesOf(unique, values)
    requires HasId(p) && p.id.value !in unique
    ensures ValuesOf(unique[p.id.value := p], values + [p])
  {
    var unique', values' := unique[p.id.value := p], values + [p];
    assert |unique'| == |unique| + 1;
    forall m | 0 <= m < |values'|
      ensures HasId(values'[m]) && values'[m].id.value in unique' && unique'[values'[m].id.value] == values'[m]
    {
      if m < |values| {
        assert values'[m] == values[m];
        assert values[m].id.value in unique;
      }
    }
  }

  /** Storing records with distinct ids builds a map whose values are exactly
      those records. */
  lemma {:induction false} MapOfValues(values: seq<RawPlace>)
    requires forall i :: 0 <= i < |values| ==> HasId(values[i])
    requires DistinctKeys(values, IdOf)
    ensures ValuesOf(MapOf(values), values)
  {
    if values != [] {
      var n := |values| - 1;
      var init, last := values[..n], values[n];
      assert DistinctKeys(init, IdOf) by {
        forall i, j | 0 <= i < j < |init| ensures IdOf(init[i]) != IdOf(init[j]) {
          assert init[i] == values[i] && init[j] == values[j];
        }
      }
      MapOfValues(init);
      MapOfKeys(init);
      assert last.id.value !in MapOf(init) by {
        forall m | 0 <= m < |init| ensures init[m].id != Some(last.id.value) {
          assert IdOf(values[m]) != IdOf(values[n]);
        }
      }
      ValuesOfExtend(MapOf(init), init, last);
      assert init + [last] == values;
    }
  }

  method MergeUniqueById(allPlaces: seq<RawPlace>) returns (values: seq<RawPlace>)
    ensures values == UniqueById(allPlaces)
  {
    var unique: map<string, RawPlace> := map[];
    values := [];
    var i := 0;
    while i < |allPlaces|
      invariant 0 <= i <= |allPlaces|
      invariant values + FirstsFrom(allPlaces, i) == FirstsFrom(allPlaces, 0)
      invariant unique.Keys == IdsBefore(allPlaces, i)
      invariant unique == MapOf(values)
    {
      var p := allPlaces[i];
      FirstIdTest(allPlaces, i);
      if HasId(p) && p.id.value !in unique {
        assert FirstsFrom(allPlaces, i) == [p] + FirstsFrom(allPlaces, i + 1);
        assert (values + [p]) + FirstsFrom(allPlaces, i + 1) == values + FirstsFrom(allPlaces, i);
        assert IdsBefore(allPlaces, i + 1) == unique.Keys + {p.id.value};
        MapOfSnoc(values, p);
        unique := unique[p.id.value := p];
        values := values + [p];
      } else {
        assert FirstsFrom(allPlaces, i) == FirstsFrom(allPlaces, i + 1);
        assert IdsBefore(allPlaces, i + 1) == unique.Keys;
      }
      i := i + 1;
    }
    assert values == UniqueById(allPlaces);
    MapOfValues(values);
    assert ValuesOf(unique, values);
  }

  // ---------------------------------------------------------------- distance filter and mapping

  /** `restaurantsData.places || []`, and so on for each response. */
  function PlacesOf(r: SearchResponse): seq<RawPlace>
  {
    match r.places
    case None => []
    case Some(ps) => ps
  }

  /** The four result lists in call order. */
  function AllPlaces(restaurantsData: SearchResponse, fastFoodData: SearchResponse,
                     takeawayData: SearchResponse, bakeryCafeData: SearchResponse): seq<RawPlace>
  {
    PlacesOf(restaurantsData) + PlacesOf(fastFoodData) + PlacesOf(takeawayData) + PlacesOf(bakeryCafeData)
  }

  /** The place has numeric coordinates and lies within `radius` of `center`
      (inclusive) by the distance function `dist`. */
  predicate WithinRadius(p: RawPlace, center: Coord, radius: real, dist: (Coord, Coord) -> real)
  {
    match p.location
    case None => false
    case Some(loc) =>
      loc.latitude.Some? && loc.longitude.Some?
      && dist(center, Coord(loc.latitude.value, loc.longitude.value)) <= radius
  }

  /** The `filter` that enforces the radius. */
  function WithinRadiusOnly(places: seq<RawPlace>, center: Coord, radius: real,
                            dist: (Coord, Coord) -> real): (kept: seq<RawPlace>)
    ensures forall x :: x in kept <==> x in places && WithinRadius(x, center, radius, dist)
    ensures IsSubsequence(kept, places)
    ensures forall rel: (RawPlace, RawPlace) -> bool :: Pairwise(places, rel) ==> Pairwise(kept, rel)
    ensures DistinctKeys(places, IdOf) ==> DistinctKeys(kept, IdOf)
  {
    var keep := (p: RawPlace) => WithinRadius(p, center, radius, dist);
    FilterIsSubsequence(places, keep);
    FilterKeepsEveryPairwise(places, keep);
    FilterKeepsDistinctKeys(places, keep, IdOf);
    FilterMembers(places, keep);
    Filter(places, keep)
  }

  /** `place.displayName?.text || "Unknown restaurant"`. */
  function NameOrDefault(displayName: Option<string>): string
  {
    match displayName
    case Some(text) => if text != "" then text else UnknownRestaurant
    case None => UnknownRestaurant
  }

  /** `place.rating ?? "N/A"`. */
  function RatingOrDefault(rating: Option<real>): Rating
  {
    match rating
    case Some(x) => Stars(x)
    case None => NotAvailable
  }

  /** The record built for one surviving place. */
  function ToRestaurant(p: RawPlace): (r: Restaurant)
    ensures r.id == p.id
    ensures r.name != ""
    ensures 1 <= r.price <= 3
    ensures IsServiceStyle(r.serviceStyle)
    ensures r.dishType == GeneralDish
    ensures r.price == MapPriceLevel(p.priceLevel)
    ensures r.serviceStyle == ClassifyServiceType(p)
    ensures p.displayName.Some? && p.displayName.value != "" ==> r.name == p.displayName.value
    ensures p.rating.Some? ==> r.rating == Stars(p.rating.value)
    ensures r.address == p.formattedAddress
    ensures p.location.Some? ==> r.lat == p.location.value.latitude && r.lng == p.location.value.longitude
    ensures p.location.None? ==> r.lat.None? && r.lng.None?
  {
    Restaurant(
      id := p.id,
      name := NameOrDefault(p.displayName),
      rating := RatingOrDefault(p.rating),
      address := p.formattedAddress,
      lat := if p.location.Some? then p.location.value.latitude else None,
      lng := if p.location.Some? then p.location.value.longitude else None,
      price := MapPriceLevel(p.priceLevel),
      serviceStyle := ClassifyServiceType(p),
      dishType := GeneralDish)
  }

  /** The defaults each field takes when the place lacks it: `||` replaces a
      missing or empty name, `??` replaces only a missing rating (0 is kept). */
  lemma ToRestaurantDefaults(p: RawPlace)
    ensures ToRestaurant(p).name == UnknownRestaurant <==>
              p.displayName == None || p.displayName == Some("") || p.displayName == Some(UnknownRestaurant)
    ensures ToRestaurant(p).rating == NotAvailable <==> p.rating == None
    ensures p.rating == Some(0.0) ==> ToRestaurant(p).rating == Stars(0.0)
  {
    var r := ToRestaurant(p);
    assert r.name == NameOrDefault(p.displayName);
    assert r.rating == RatingOrDefault(p.rating);
  }

  /** The `map` over the survivors. */
  function ToRestaurants(places: seq<RawPlace>): (rs: seq<Restaurant>)
    ensures |rs| == |places|
    ensures forall i :: 0 <= i < |places| ==> rs[i] == ToRestaurant(places[i])
  {
    seq(|places|, i requires 0 <= i < |places| => ToRestaurant(places[i]))
  }

  /** What one fetch cycle stores as `restaurants`. */
  function Aggregate(restaurantsData: SearchResponse, fastFoodData: SearchResponse,
                     takeawayData: SearchResponse, bakeryCafeData: SearchResponse,
                     center: Coord, radius: real, dist: (Coord, Coord) -> real): (out: seq<Restaurant>)
    ensures |out| <= |AllPlaces(restaurantsData, fastFoodData, takeawayData, bakeryCafeData)|
    ensures forall i :: 0 <= i < |out| ==>
              out[i].name != "" && 1 <= out[i].price <= 3 && IsServiceStyle(out[i].serviceStyle)
              && out[i].dishType == GeneralDish
  {
    var all := AllPlaces(restaurantsData, fastFoodData, takeawayData, bakeryCafeData);
    var kept := WithinRadiusOnly(UniqueById(all), center, radius, dist);
    SubsequenceTransitive(kept, UniqueById(all), all);
    SubsequenceNoLonger(kept, all);
    ToRestaurants(kept)
  }

  /** The body of the `try` block after the four calls have answered. */
  method FetchNearby(restaurantsData: SearchResponse, fastFoodData: SearchResponse,
                     takeawayData: SearchResponse, bakeryCafeData: SearchResponse,
                     center: Coord, radiusMeters: real, dist: (Coord, Coord) -> real)
    returns (mapped: seq<Restaurant>)
    ensures mapped == Aggregate(restaurantsData, fastFoodData, takeawayData, bakeryCafeData,
                                center, radiusMeters, dist)
  {
    var allPlaces := AllPlaces(restaurantsData, fastFoodData, takeawayData, bakeryCafeData);
    var unique := MergeUniqueById(allPlaces);
    var filteredByDistance := WithinRadiusOnly(unique, center, radiusMeters, dist);
    mapped := ToRestaurants(filteredByDistance);
  }

  // ---------------------------------------------------------------- properties of the whole cycle

  /** Every stored restaurant is built from the first record with its id, in the
      call order of the four searches, and that record lay within the radius. */
  lemma AggregateSource(restaurantsData: SearchResponse, fastFoodData: SearchResponse,
                        takeawayData: SearchResponse, bakeryCafeData: SearchResponse,
                        center: Coord, radius: real, dist: (Coord, Coord) -> real, i: nat)
    requires i < |Aggregate(restaurantsData, fastFoodData, takeawayData, bakeryCafeData, center, radius, dist)|
    ensures var all := AllPlaces(restaurantsData, fastFoodData, takeawayData, bakeryCafeData);
            exists k :: 0 <= k < |all| && IsFirstWithId(all, k) && WithinRadius(all[k], center, radius, dist)
                        && Aggregate(restaurantsData, fastFoodData, takeawayData, bakeryCafeData,
                                     center, radius, dist)[i] == ToRestaurant(all[k])
  {
    var all := AllPlaces(restaurantsData, fastFoodData, takeawayData, bakeryCafeData);
    var kept := WithinRadiusOnly(UniqueById(all), center, radius, dist);
    assert kept[i] in kept;
    var k :| 0 <= k < |all| && IsFirstWithId(all, k) && all[k] == kept[i];
  }

  /** Every first-with-its-id record within the radius yields a stored restaurant. */
  lemma AggregateComplete(restaurantsData: SearchResponse, fastFoodData: SearchResponse,
                          takeawayData: SearchResponse, bakeryCafeData: SearchResponse,
                          center: Coord, radius: real, dist: (Coord, Coord) -> real, k: nat)
    requires k < |AllPlaces(restaurantsData, fastFoodData, takeawayData, bakeryCafeData)|
    requires IsFirstWithId(AllPlaces(restaurantsData, fastFoodData, takeawayData, bakeryCafeData), k)
    requires WithinRadius(AllPlaces(restaurantsData, fastFoodData, takeawayData, bakeryCafeData)[k],
                          center, radius, dist)
    ensures ToRestaurant(AllPlaces(restaurantsData, fastFoodData, takeawayData, bakeryCafeData)[k])
            in Aggregate(restaurantsData, fastFoodData, takeawayData, bakeryCafeData, center, radius, dist)
  {
    var all := AllPlaces(restaurantsData, fastFoodData, takeawayData, bakeryCafeData);
    var kept := WithinRadiusOnly(UniqueById(all), center, radius, dist);
    var out := ToRestaurants(kept);
    assert all[k] in UniqueById(all);
    assert all[k] in kept;
    var m :| 0 <= m < |kept| && kept[m] == all[k];
    assert out[m] == ToRestaurant(all[k]);
  }

  /** Stored restaurants carry non-empty, pairwise distinct ids. */
  lemma AggregateDistinctIds(restaurantsData: SearchResponse, fastFoodData: SearchResponse,
                             takeawayData: SearchResponse, bakeryCafeData: SearchResponse,
                             center: Coord, radius: real, dist: (Coord, Coord) -> real)
    ensures var out := Aggregate(restaurantsData, fastFoodData, takeawayData, bakeryCafeData,
                                 center, radius, dist);
            (forall i :: 0 <= i < |out| ==> out[i].id.Some? && out[i].id.value != "")
            && forall i, j :: 0 <= i < j < |out| ==> out[i].id != out[j].id
  {
    var all := AllPlaces(restaurantsData, fastFoodData, takeawayData, bakeryCafeData);
    var u := UniqueById(all);
    var kept := WithinRadiusOnly(u, center, radius, dist);
    var out := ToRestaurants(kept);
    forall i | 0 <= i < |out| ensures out[i].id.Some? && out[i].id.value != "" {
      assert kept[i] in u;
      var m :| 0 <= m < |u| && u[m] == kept[i];
    }
    forall i, j | 0 <= i < j < |out| ensures out[i].id != out[j].id {
      assert IdOf(kept[i]) != IdOf(kept[j]);
    }
  }

  /** Every stored restaurant has coordinates within the radius, a price tier,
      one of the four styles and the constant dish type; the list keeps the
      order of the concatenated results. */
  lemma AggregateRecords(restaurantsData: SearchResponse, fastFoodData: SearchResponse,
                         takeawayData: SearchResponse, bakeryCafeData: SearchResponse,
                         center: Coord, radius: real, dist: (Coord, Coord) -> real)
    ensures var all := AllPlaces(restaurantsData, fastFoodData, takeawayData, bakeryCafeData);
            var kept := WithinRadiusOnly(UniqueById(all), center, radius, dist);
            IsSubsequence(kept, all)
            && Aggregate(restaurantsData, fastFoodData, takeawayData, bakeryCafeData, center, radius, dist)
               == ToRestaurants(kept)
    ensures var out := Aggregate(restaurantsData, fastFoodData, takeawayData, bakeryCafeData,
                                 center, radius, dist);
            forall i :: 0 <= i < |out| ==>
              out[i].lat.Some? && out[i].lng.Some?
              && dist(center, Coord(out[i].lat.value, out[i].lng.value)) <= radius
              && 1 <= out[i].price <= 3 && IsServiceStyle(out[i].serviceStyle)
              && out[i].dishType == GeneralDish && out[i].name != ""
  {
    var all := AllPlaces(restaurantsData, fastFoodData, takeawayData, bakeryCafeData);
    var u := UniqueById(all);
    var kept := WithinRadiusOnly(u, center, radius, dist);
    SubsequenceTransitive(kept, u, all);
    forall i | 0 <= i < |kept| ensures WithinRadius(kept[i], center, radius, dist) {
      assert kept[i] in kept;
    }
  }

  /** Any two records of `out` are the conversions of two first occurrences in
      `all`, in the same order. */
  predicate MappedInFirstOrder(out: seq<Restaurant>, all: seq<RawPlace>) {
    forall i, j :: 0 <= i < j < |out| ==> PairMappedInFirstOrder(out, all, i, j)
  }

  /** Positions `i` and `j` of `out` hold the conversions of two first
      occurrences in `all`, in the same order. */
  predicate PairMappedInFirstOrder(out: seq<Restaurant>, all: seq<RawPlace>, i: nat, j: nat)
    requires i < j < |out|
  {
    exists ki, kj :: 0 <= ki < kj < |all| && IsFirstWithId(all, ki) && IsFirstWithId(all, kj)
                     && out[i] == ToRestaurant(all[ki]) && out[j] == ToRestaurant(all[kj])
  }

  /** The stored restaurants come in the order in which their places first
      occur in the concatenated results. */
  lemma AggregateOrder(restaurantsData: SearchResponse, fastFoodData: SearchResponse,
                       takeawayData: SearchResponse, bakeryCafeData: SearchResponse,
                       center: Coord, radius: real, dist: (Coord, Coord) -> real)
    ensures MappedInFirstOrder(Aggregate(restaurantsData, fastFoodData, takeawayData, bakeryCafeData,
                                         center, radius, dist),
                               AllPlaces(restaurantsData, fastFoodData, takeawayData, bakeryCafeData))
  {
    var all := AllPlaces(restaurantsData, fastFoodData, takeawayData, bakeryCafeData);
    var kept := WithinRadiusOnly(UniqueById(all), center, radius, dist);
    var out := ToRestaurants(kept);
    assert out == Aggregate(restaurantsData, fastFoodData, takeawayData, bakeryCafeData,
                            center, radius, dist);
    forall i, j | 0 <= i < j < |out| ensures PairMappedInFirstOrder(out, all, i, j) {
      var ki, kj := KeptInFirstOrder(all, center, radius, dist, i, j);
      assert out[i] == ToRestaurant(all[ki]) && out[j] == ToRestaurant(all[kj]);
    }
    assert MappedInFirstOrder(out, all);
  }

  /** Two survivors of the merge and the radius filter keep the order of their
      first occurrences. */
  lemma KeptInFirstOrder(all: seq<RawPlace>, center: Coord, radius: real, dist: (Coord, Coord) -> real,
                         i: nat, j: nat) returns (ki: nat, kj: nat)
    requires i < j < |WithinRadiusOnly(UniqueById(all), center, radius, dist)|
    ensures ki < kj < |all| && IsFirstWithId(all, ki) && IsFirstWithId(all, kj)
    ensures var kept := WithinRadiusOnly(UniqueById(all), center, radius, dist);
            kept[i] == all[ki] && kept[j] == all[kj]
  {
    var u := UniqueById(all);
    var kept := WithinRadiusOnly(u, center, radius, dist);
    assert Pairwise(kept, (x, y) => FirstBefore(all, x, y)) by {
      assert InFirstOccurrenceOrder(u, all);
    }
    assert kept[i] in kept && kept[j] in kept;
    ki :| 0 <= ki < |all| && IsFirstWithId(all, ki) && all[ki] == kept[i];
    kj :| 0 <= kj < |all| && IsFirstWithId(all, kj) && all[kj] == kept[j];
    assert FirstBefore(all, kept[i], kept[j]);
    assert FirstAt(all, ki, kept[i]) && FirstAt(all, kj, kept[j]);
  }

  /** The radius bound is inclusive: a place exactly at the radius is kept and
      one any farther out is dropped, as is a place without numeric coordinates. */
  lemma RadiusIsInclusive(p: RawPlace, center: Coord, radius: real, dist: (Coord, Coord) -> real)
    ensures p.location.None? || p.location.value.latitude.None? || p.location.value.longitude.None?
            ==> !WithinRadius(p, center, radius, dist)
    ensures p.location.Some? && p.location.value.latitude.Some? && p.location.value.longitude.Some?
            ==> (WithinRadius(p, center, radius, dist)
                 <==> dist(center, Coord(p.location.value.latitude.value, p.location.value.longitude.value)) <= radius)
  {
  }
}
