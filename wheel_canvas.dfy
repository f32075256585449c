/** The pure preparation that `WheelCanvas` does before handing the wheel to the
    drawing library: the segment cap, labels, font size, slice colours, the
    record reported when a spin finishes, the Maps link and the rating test. */
module WheelCanvas {
  import opened Wrappers
  import opened Seqs
  import opened Text
  import opened NearbyRestaurants

  const MaxSegments: nat := 18
  const MaxLabelChars: nat := 16

  const SliceColors: seq<string> := [
    "#BFE7FF", "#D7F3FF", "#BFEFEA", "#D9F8F3",
    "#C9D9FF", "#E6ECFF", "#B8E1FF", "#D2FBFF"
  ]

  const MapsSearch: string := "https://www.google.com/maps/search/?api=1&query="
  const PlaceIdParam: string := "&query_place_id="
  const NoLink: string := "#"

  /** One wedge of the wheel. `restaurant` is optional because the finish
      callback also accepts segments that carry no record. */
  datatype Segment = Segment(text: string, restaurant: Option<Restaurant>, fillStyle: string)

  /** The options passed to the drawing library that this model covers. */
  datatype WheelSetup = WheelSetup(numSegments: nat, segments: seq<Segment>, textFontSize: int)

  /** The result shown after a spin: the segment's record, or a record whose
      only field is the segment text as its name. */
  datatype SpinResult = Picked(restaurant: Restaurant) | NameOnly(name: string)

  // ---------------------------------------------------------------- segment cap

  /** `restaurants.slice(0, MAX_SEGMENTS)`. */
  function DisplayRestaurants(restaurants: seq<Restaurant>): (shown: seq<Restaurant>)
    ensures |shown| == if |restaurants| < MaxSegments then |restaurants| else MaxSegments
    ensures shown == restaurants[..|shown|]
  {
    if |restaurants| <= MaxSegments then restaurants else restaurants[..MaxSegments]
  }

  /** Lists of up to 18 are shown whole; a list of 19 loses exactly its last entry. */
  lemma DisplayBoundary(restaurants: seq<Restaurant>)
    ensures |restaurants| <= MaxSegments <==> DisplayRestaurants(restaurants) == restaurants
    ensures |restaurants| == MaxSegments + 1 ==>
              DisplayRestaurants(restaurants) + [restaurants[MaxSegments]] == restaurants
  {
    if |restaurants| == MaxSegments + 1 {
      assert restaurants[..MaxSegments] + [restaurants[MaxSegments]] == restaurants;
    }
  }

  // ---------------------------------------------------------------- labels

  /** `shortenLabel`: the cleaned name, cut to 15 characters and an ellipsis when
      it is longer than 16. */
  function ShortenLabel(name: string): (short: string)
    ensures |short| <= MaxLabelChars
    ensures short == "" <==> Clean(name) == ""
    ensures |Clean(name)| <= MaxLabelChars ==> short == Clean(name)
    ensures |Clean(name)| > MaxLabelChars ==> short == Clean(name)[..MaxLabelChars - 1] + [Ellipsis]
  {
    if name == "" then ""
    else
      var clean := Clean(name);
      if |clean| <= MaxLabelChars then clean else clean[..MaxLabelChars - 1] + [Ellipsis]
  }

  lemma CollapsedSnoc(c: string, x: char)
    requires Collapsed(c) && IsVisible(x)
    ensures Collapsed(c + [x])
  {
    var d := c + [x];
    forall i | 0 <= i < |d| && IsSpace(d[i])
      ensures d[i] == ' ' && (i + 1 < |d| ==> IsVisible(d[i + 1]))
    {
      assert d[i] == c[i];
      if i + 1 < |c| {
        assert d[i + 1] == c[i + 1];
      }
    }
  }

  /** A collapsed, trimmed string is its own cleaned form. */
  lemma CleanFixesClean(c: string)
    requires Collapsed(c) && Trimmed(c)
    ensures Clean(c) == c
  {
    CollapseFixesCollapsed(c);
    assert TrimStart(c) == c;
    assert TrimEnd(c) == c;
  }

  /** A label is a fixed point: shortening it again changes nothing. */
  lemma ShortenLabelIdempotent(name: string)
    ensures ShortenLabel(ShortenLabel(name)) == ShortenLabel(name)
  {
    var short := ShortenLabel(name);
    var clean := Clean(name);
    if short != "" {
      if |clean| <= MaxLabelChars {
        CleanIdempotent(name);
      } else {
        var head := clean[..MaxLabelChars - 1];
        CollapsedSlice(clean, 0, MaxLabelChars - 1);
        CollapsedSnoc(head, Ellipsis);
        assert short[0] == clean[0];
        CleanFixesClean(short);
      }
    }
  }

  // ---------------------------------------------------------------- font size, segments, setup

  /** `textFontSize`, by segment count. */
  function TextFontSize(segCount: int): (size: int)
    ensures size == 11 <==> segCount > 16
    ensures size == 13 <==> 12 < segCount <= 16
    ensures size == 15 <==> 8 < segCount <= 12
    ensures size == 18 <==> segCount <= 8
  {
    if segCount > 16 then 11 else if segCount > 12 then 13 else if segCount > 8 then 15 else 18
  }

  /** More segments never get a larger font. */
  lemma FontSizeNonIncreasing(a: int, b: int)
    requires a <= b
    ensures TextFontSize(b) <= TextFontSize(a)
  {
  }

  /** `displayRestaurants.map((r, i) => ...)`: one wedge per shown restaurant,
      carrying that restaurant, its label and a palette colour that differs
      from its neighbours' and repeats every eight wedges. */
  function BuildSegments(shown: seq<Restaurant>): (segments: seq<Segment>)
    ensures |segments| == |shown|
    ensures forall i :: 0 <= i < |shown| ==> segments[i].restaurant == Some(shown[i])
    ensures forall i :: 0 <= i < |shown| ==>
              segments[i].text == ShortenLabel(shown[i].name) && |segments[i].text| <= MaxLabelChars
    ensures forall i :: 0 <= i < |shown| ==> segments[i].fillStyle == SliceColors[i % |SliceColors|]
    ensures forall i :: 0 <= i < |shown| - 1 ==> segments[i].fillStyle != segments[i + 1].fillStyle
    ensures forall i :: 0 <= i < |shown| - 8 ==> segments[i].fillStyle == segments[i + 8].fillStyle
  {
    var segments := seq(|shown|, i requires 0 <= i < |shown| =>
                          Segment(ShortenLabel(shown[i].name), Some(shown[i]), SliceColors[i % |SliceColors|]));
    SliceColorRhythm(segments);
    segments
  }

  /** The eight palette entries are pairwise different. */
  lemma SliceColorsDistinct(a: nat, b: nat)
    requires a < b < |SliceColors|
    ensures SliceColors[a] != SliceColors[b]
  {
    // The characters at positions 1, 2 and 4 of each entry already tell them apart.
    var at1, at2, at4 := "BDBDCEBD", "F7F99682", "73F89C1B";
    forall i | 0 <= i < |SliceColors|
      ensures SliceColors[i][1] == at1[i] && SliceColors[i][2] == at2[i] && SliceColors[i][4] == at4[i]
    {
    }
    assert at1[a] != at1[b] || at2[a] != at2[b] || at4[a] != at4[b];
  }

  /** Wedges coloured by position in the palette: neighbours never share a
      colour, and colours repeat every eight wedges. */
  lemma SliceColorRhythm(segments: seq<Segment>)
    requires forall i :: 0 <= i < |segments| ==> segments[i].fillStyle == SliceColors[i % |SliceColors|]
    ensures forall i :: 0 <= i < |segments| - 1 ==> segments[i].fillStyle != segments[i + 1].fillStyle
    ensures forall i :: 0 <= i < |segments| - 8 ==> segments[i].fillStyle == segments[i + 8].fillStyle
  {
    forall i | 0 <= i < |segments| - 1 ensures segments[i].fillStyle != segments[i + 1].fillStyle {
      var a, b := i % 8, (i + 1) % 8;
      if b == 0 {
        SliceColorsDistinct(b, a);
      } else {
        assert b == a + 1;
        SliceColorsDistinct(a, b);
      }
    }
    forall i | 0 <= i < |segments| - 8 ensures segments[i].fillStyle == segments[i + 8].fillStyle {
      assert (i + 8) % 8 == i % 8;
    }
  }

  /** Around the circle the last slice touches the first: the two share a colour
      exactly when the last index is a multiple of 8 (9 or 17 slices on a full wheel). */
  lemma WrapAroundColor(shown: seq<Restaurant>)
    requires |shown| > 1
    ensures BuildSegments(shown)[0].fillStyle == BuildSegments(shown)[|shown| - 1].fillStyle
            <==> (|shown| - 1) % 8 == 0
  {
    var segs := BuildSegments(shown);
    var last := (|shown| - 1) % |SliceColors|;
    assert segs[0].fillStyle == SliceColors[0];
    assert segs[|shown| - 1].fillStyle == SliceColors[last];
    if last != 0 {
      SliceColorsDistinct(0, last);
    }
  }

  /** The wheel is configured only for a non-empty list. */
  function ConfigureWheel(shown: seq<Restaurant>): (setup: Option<WheelSetup>)
    ensures setup.None? <==> shown == []
    ensures setup.Some? ==> setup.value.numSegments == |setup.value.segments| == |shown|
    ensures setup.Some? ==> 11 <= setup.value.textFontSize <= 18
    ensures setup.Some? ==> setup.value.segments == BuildSegments(shown)
                            && setup.value.textFontSize == TextFontSize(|shown|)
  {
    if |shown| == 0 then None
    else Some(WheelSetup(|shown|, BuildSegments(shown), TextFontSize(|shown|)))
  }

  // ---------------------------------------------------------------- finishing a spin

  /** `segment.restaurant || { name: segment.text }`. */
  function FinishedResult(segment: Segment): (result: SpinResult)
    ensures result.Picked? <==> segment.restaurant.Some?
    ensures segment.restaurant.Some? ==> result.restaurant == segment.restaurant.value
    ensures segment.restaurant.None? ==> NameOf(result) == segment.text
  {
    match segment.restaurant
    case Some(r) => Picked(r)
    case None => NameOnly(segment.text)
  }

  /** A spin that stops on a built segment reports that segment's restaurant,
      which is one of the first 18 of the list. */
  lemma SpinReportsShownRestaurant(restaurants: seq<Restaurant>, i: nat)
    requires i < |BuildSegments(DisplayRestaurants(restaurants))|
    ensures i < MaxSegments && i < |restaurants|
    ensures FinishedResult(BuildSegments(DisplayRestaurants(restaurants))[i]) == Picked(restaurants[i])
  {
  }

  /** A segment without a record reports its own text as the name. */
  lemma SpinOnBareSegment(text: string, fillStyle: string)
    ensures FinishedResult(Segment(text, None, fillStyle)) == NameOnly(text)
  {
  }

  // ---------------------------------------------------------------- result card

  /** JavaScript truthiness of an optional number and an optional string. */
  predicate NumberTruthy(x: Option<real>)
  {
    x.Some? && x.value != 0.0
  }

  predicate TextTruthy(s: Option<string>)
  {
    s.Some? && s.value != ""
  }

  /** `rest.lat && rest.lng && rest.id`. */
  predicate PlaceKnown(result: SpinResult)
  {
    match result
    case Picked(r) => NumberTruthy(r.lat) && NumberTruthy(r.lng) && TextTruthy(r.id)
    case NameOnly(_) => false
  }

  function NameOf(result: SpinResult): string
  {
    match result
    case Picked(r) => r.name
    case NameOnly(n) => n
  }

  /** `buildMapsUrl`; `encode` stands for `encodeURIComponent` and `numberText`
      for the conversion of a number inside a template literal. */
  function MapsUrl(rest: Option<SpinResult>, encode: string -> string, numberText: real -> string): (url: string)
    ensures url == NoLink <==> rest.None? || (!PlaceKnown(rest.value) && NameOf(rest.value) == "")
    ensures url != NoLink ==> StartsWith(url, MapsSearch)
    ensures rest.Some? && PlaceKnown(rest.value) ==>
              EndsWith(url, PlaceIdParam + rest.value.restaurant.id.value)
    ensures rest.Some? && PlaceKnown(rest.value) ==>
              var r := rest.value.restaurant;
              url == MapsSearch + numberText(r.lat.value) + "," + numberText(r.lng.value)
                     + PlaceIdParam + r.id.value
    ensures rest.Some? && !PlaceKnown(rest.value) && NameOf(rest.value) != "" ==>
              url == MapsSearch + encode(NameOf(rest.value))
  {
    match rest
    case None => NoLink
    case Some(result) =>
      if PlaceKnown(result) then
        var r := result.restaurant;
        var head := MapsSearch + numberText(r.lat.value) + "," + numberText(r.lng.value);
        var url := head + PlaceIdParam + r.id.value;
        ConcatAffixes(MapsSearch, numberText(r.lat.value));
        StartsWithAppend(MapsSearch + numberText(r.lat.value), MapsSearch, ",");
        StartsWithAppend(MapsSearch + numberText(r.lat.value) + ",", MapsSearch, numberText(r.lng.value));
        ConcatAssoc(head, PlaceIdParam, r.id.value);
        ConcatAffixes(head, PlaceIdParam + r.id.value);
        StartsWithAppend(head, MapsSearch, PlaceIdParam + r.id.value);
        url
      else if NameOf(result) != "" then
        ConcatAffixes(MapsSearch, encode(NameOf(result)));
        MapsSearch + encode(NameOf(result))
      else NoLink
  }

  /** A stored restaurant always has a name, so its link is never "#"; at
      latitude or longitude exactly 0 the coordinates count as absent and the
      link falls back to the name search. */
  lemma MapsUrlForStoredRestaurant(p: RawPlace, encode: string -> string, numberText: real -> string)
    ensures MapsUrl(Some(Picked(ToRestaurant(p))), encode, numberText) != NoLink
    ensures ToRestaurant(p).lat == Some(0.0) || ToRestaurant(p).lng == Some(0.0) ==>
              MapsUrl(Some(Picked(ToRestaurant(p))), encode, numberText) == MapsSearch + encode(ToRestaurant(p).name)
  {
  }

  /** `hasRating`: a rating that is present, not "N/A" and not 0. */
  function HasRating(result: Option<SpinResult>): (shown: bool)
    ensures shown ==> result.Some? && result.value.Picked?
    ensures result.Some? && result.value.Picked? ==>
              (shown <==> result.value.restaurant.rating != NotAvailable
                          && result.value.restaurant.rating != Stars(0.0))
  {
    match result
    case None => false
    case Some(NameOnly(_)) => false
    case Some(Picked(r)) =>
      match r.rating
      case NotAvailable => false
      case Stars(x) => x != 0.0
  }

  /** For a stored restaurant the rating is shown exactly when the place came
      with a non-zero rating. */
  lemma HasRatingForStoredRestaurant(p: RawPlace)
    ensures HasRating(Some(Picked(ToRestaurant(p)))) <==> p.rating.Some? && p.rating.value != 0.0
    ensures !HasRating(None)
  {
  }
}
