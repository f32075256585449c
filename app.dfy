/** `App`: the service-style and price filters over the stored restaurants, and
    the choice of what the wheel card shows. */
module App {
  import opened Wrappers
  import opened Seqs
  import opened NearbyRestaurants
  import opened WheelCanvas

  // ---------------------------------------------------------------- the price filter's value

  predicate IsDigit(c: char)
  {
    '0' <= c <= '9'
  }

  predicate AllDigits(s: string)
  {
    forall i :: 0 <= i < |s| ==> IsDigit(s[i])
  }

  function DigitsValue(s: string): nat
    requires AllDigits(s)
  {
    if s == [] then 0 else DigitsValue(s[..|s| - 1]) * 10 + (s[|s| - 1] as int - '0' as int)
  }

  /** `Number(s)` for a non-empty string of decimal digits; `None` stands for NaN,
      which equals no tier. */
  function NumericValue(s: string): Option<int>
  {
    if s != "" && AllDigits(s) then Some(DigitsValue(s)) else None
  }

  /** The three price options the filter offers read as the tiers 1, 2 and 3. */
  lemma PriceOptionValues()
    ensures NumericValue("1") == Some(1)
    ensures NumericValue("2") == Some(2)
    ensures NumericValue("3") == Some(3)
    ensures NumericValue("$") == None
  {
    assert "1"[..0] == "" && "2"[..0] == "" && "3"[..0] == "";
  }

  // ---------------------------------------------------------------- filteredRestaurants

  /** The predicate given to `restaurants.filter`; an empty filter lets everything through. */
  predicate Keeps(r: Restaurant, category: string, price: string)
  {
    (category == "" || r.serviceStyle == category)
    && (price == "" || NumericValue(price) == Some(r.price))
  }

  /** `filteredRestaurants`: the restaurants that pass both filters, in order. */
  function FilteredRestaurants(restaurants: seq<Restaurant>, category: string, price: string): (out: seq<Restaurant>)
    ensures IsSubsequence(out, restaurants)
    ensures forall r :: r in out <==> r in restaurants && Keeps(r, category, price)
    ensures category == "" && price == "" ==> out == restaurants
  {
    var keep := (r: Restaurant) => Keeps(r, category, price);
    FilterIsSubsequence(restaurants, keep);
    FilterKeepsAll(restaurants, keep);
    FilterMembers(restaurants, keep);
    Filter(restaurants, keep)
  }

  /** A non-empty filter pins the style or the price of everything it keeps. */
  lemma FiltersPinFields(restaurants: seq<Restaurant>, category: string, price: string)
    ensures category != "" ==>
              forall r :: r in FilteredRestaurants(restaurants, category, price) ==> r.serviceStyle == category
    ensures price != "" ==>
              forall r :: r in FilteredRestaurants(restaurants, category, price) ==> Some(r.price) == NumericValue(price)
  {
  }

  /** Choosing the price option "2" keeps exactly the tier-2 restaurants. */
  lemma PriceOptionKeepsTier(restaurants: seq<Restaurant>, category: string)
    ensures forall r :: r in FilteredRestaurants(restaurants, category, "2") <==>
              r in restaurants && (category == "" || r.serviceStyle == category) && r.price == 2
  {
    PriceOptionValues();
  }

  // ---------------------------------------------------------------- the wheel card

  /** What the wheel card shows. */
  datatype Content = LoadingBox | ErrorBox(message: string) | NoMatchesBox | Wheel(restaurants: seq<Restaurant>)

  /** The nested conditional: loading, then an error, then "no matches", then the wheel. */
  function ChooseContent(loading: bool, error: string, filtered: seq<Restaurant>): (c: Content)
    ensures c == LoadingBox <==> loading
    ensures c.ErrorBox? <==> !loading && error != ""
    ensures c.ErrorBox? ==> c.message == error
    ensures c == NoMatchesBox <==> !loading && error == "" && filtered == []
    ensures c.Wheel? <==> !loading && error == "" && filtered != []
    ensures c.Wheel? ==> c.restaurants == filtered && |c.restaurants| > 0
  {
    if loading then LoadingBox
    else if error != "" then ErrorBox(error)
    else if |filtered| == 0 then NoMatchesBox
    else Wheel(filtered)
  }

  /** Whenever the wheel is shown it is configured, with between 1 and 18 segments. */
  lemma WheelIsAlwaysConfigured(loading: bool, error: string, filtered: seq<Restaurant>)
    requires ChooseContent(loading, error, filtered).Wheel?
    ensures ConfigureWheel(DisplayRestaurants(filtered)).Some?
    ensures 1 <= ConfigureWheel(DisplayRestaurants(filtered)).value.numSegments <= MaxSegments
  {
  }

  /** End to end: a spin on the wheel built from one fetch cycle and the two
      filters reports a restaurant that passed both filters, lies within the
      radius and was the first record with its id. */
  lemma SpinResultIsNearbyAndFiltered(restaurantsData: SearchResponse, fastFoodData: SearchResponse,
                                      takeawayData: SearchResponse, bakeryCafeData: SearchResponse,
                                      center: Coord, radius: real, dist: (Coord, Coord) -> real,
                                      category: string, price: string, i: nat)
    requires i < |BuildSegments(DisplayRestaurants(FilteredRestaurants(
               Aggregate(restaurantsData, fastFoodData, takeawayData, bakeryCafeData, center, radius, dist),
                         category, price)))|
    ensures var stored := Aggregate(restaurantsData, fastFoodData, takeawayData, bakeryCafeData,
                                    center, radius, dist);
            var shown := FilteredRestaurants(stored, category, price);
            var result := FinishedResult(BuildSegments(DisplayRestaurants(shown))[i]);
            result.Picked? && result.restaurant in stored && Keeps(result.restaurant, category, price)
            && result.restaurant.lat.Some? && result.restaurant.lng.Some?
            && dist(center, Coord(result.restaurant.lat.value, result.restaurant.lng.value)) <= radius
    ensures var all := AllPlaces(restaurantsData, fastFoodData, takeawayData, bakeryCafeData);
            var stored := Aggregate(restaurantsData, fastFoodData, takeawayData, bakeryCafeData,
                                    center, radius, dist);
            var shown := FilteredRestaurants(stored, category, price);
            var result := FinishedResult(BuildSegments(DisplayRestaurants(shown))[i]);
            exists k :: 0 <= k < |all| && IsFirstWithId(all, k) && result.restaurant == ToRestaurant(all[k])
  {
    var stored := Aggregate(restaurantsData, fastFoodData, takeawayData, bakeryCafeData,
                            center, radius, dist);
    var shown := FilteredRestaurants(stored, category, price);
    SpinReportsShownRestaurant(shown, i);
    assert shown[i] in shown;
    var j :| 0 <= j < |stored| && stored[j] == shown[i];
    AggregateRecords(restaurantsData, fastFoodData, takeawayData, bakeryCafeData, center, radius, dist);
    AggregateSource(restaurantsData, fastFoodData, takeawayData, bakeryCafeData, center, radius, dist, j);
  }
}
