/**
 * Metadata tables for MapKit point-of-interest categories
 * (`MKPointOfInterestCategory`): tourist priority, display name, suggested
 * map span and SF Symbol name.
 *
 * A category is a struct around its raw string, and two categories are equal
 * exactly when their raw values are, so it is modelled as a one-field
 * datatype. The curated constants carry MapKit's raw values
 * ("MKPOICategory" followed by the case name in upper camel case).
 */
module PoiCategoryDisplay {
  import opened TextUtil

  datatype Category = Category(rawValue: string)

  const Museum := Category("MKPOICategoryMuseum")
  const Landmark := Category("MKPOICategoryLandmark")
  const Park := Category("MKPOICategoryPark")
  const NationalPark := Category("MKPOICategoryNationalPark")
  const Beach := Category("MKPOICategoryBeach")
  const Marina := Category("MKPOICategoryMarina")
  const Aquarium := Category("MKPOICategoryAquarium")
  const AmusementPark := Category("MKPOICategoryAmusementPark")
  const Stadium := Category("MKPOICategoryStadium")
  const Theater := Category("MKPOICategoryTheater")
  const MovieTheater := Category("MKPOICategoryMovieTheater")
  const Nightlife := Category("MKPOICategoryNightlife")
  const Winery := Category("MKPOICategoryWinery")
  const Brewery := Category("MKPOICategoryBrewery")
  const Library := Category("MKPOICategoryLibrary")
  const University := Category("MKPOICategoryUniversity")
  const Campground := Category("MKPOICategoryCampground")
  const Hotel := Category("MKPOICategoryHotel")
  const Restaurant := Category("MKPOICategoryRestaurant")

  /** The seventeen categories the tables single out, listed in
      tourist-priority order. */
  const Curated: seq<Category> := [
    Landmark, Museum, NationalPark, Park, Beach, Aquarium, AmusementPark,
    Stadium, Theater, MovieTheater, Marina, Winery, Brewery, Library,
    University, Campground, Nightlife
  ]

  /** The prefix every MapKit raw value starts with. */
  const RawPrefix := "MKPOICategory"

  /** Membership in the curated list, case by case. */
  lemma CuratedCases(c: Category)
    requires c in Curated
    ensures || c == Landmark || c == Museum || c == NationalPark || c == Park
            || c == Beach || c == Aquarium || c == AmusementPark || c == Stadium
            || c == Theater || c == MovieTheater || c == Marina || c == Winery
            || c == Brewery || c == Library || c == University || c == Campground
            || c == Nightlife
  {
  }

  /** Hotels and restaurants are not in the curated list. */
  lemma LodgingAndDiningUncurated()
    ensures Hotel !in Curated && Restaurant !in Curated
  {
  }

  /** Lower number means more relevant to a tourist; 50 for the rest. */
  function TouristPriority(c: Category): int
  {
    if c == Landmark then 0
    else if c == Museum then 1
    else if c == NationalPark then 2
    else if c == Park then 3
    else if c == Beach then 4
    else if c == Aquarium then 5
    else if c == AmusementPark then 6
    else if c == Stadium then 7
    else if c == Theater then 8
    else if c == MovieTheater then 9
    else if c == Marina then 10
    else if c == Winery then 11
    else if c == Brewery then 12
    else if c == Library then 13
    else if c == University then 14
    else if c == Campground then 15
    else if c == Nightlife then 16
    else 50
  }

  /** The curated categories get priorities 0, 1, ..., 16 in list order. */
  lemma CuratedPriorities(i: nat)
    requires i < |Curated|
    ensures TouristPriority(Curated[i]) == i
  {
  }

  /** Every other category gets the default priority 50. */
  lemma UncuratedPriority(c: Category)
    requires c !in Curated
    ensures TouristPriority(c) == 50
  {
  }

  /** Different curated categories never share a priority, and every curated
      category ranks strictly ahead of every category outside the list. */
  lemma PrioritiesRankCuratedFirst(c: Category, d: Category)
    ensures c in Curated && d in Curated && c != d ==> TouristPriority(c) != TouristPriority(d)
    ensures c in Curated && d !in Curated ==> TouristPriority(c) < TouristPriority(d)
  {
    if c in Curated {
      var i :| 0 <= i < |Curated| && Curated[i] == c;
      CuratedPriorities(i);
      if d in Curated {
        var j :| 0 <= j < |Curated| && Curated[j] == d;
        CuratedPriorities(j);
      } else {
        UncuratedPriority(d);
      }
    }
  }

  predicate IsAsciiLower(c: char) { 'a' <= c <= 'z' }
  predicate IsAsciiUpper(c: char) { 'A' <= c <= 'Z' }

  /** A lower-case letter directly followed by an upper-case one. */
  predicate CamelBoundaryAt(s: string, i: int)
  {
    0 <= i && i + 1 < |s| && IsAsciiLower(s[i]) && IsAsciiUpper(s[i + 1])
  }

  /** The raw value with a leading "MKPOICategory" removed, when present. */
  function StripRawPrefix(raw: string): (r: string)
    ensures HasPrefix(raw, RawPrefix) ==> raw == RawPrefix + r
    ensures !HasPrefix(raw, RawPrefix) ==> r == raw
  {
    if HasPrefix(raw, RawPrefix) then raw[|RawPrefix|..] else raw
  }

  /** The regular-expression replacement of `([a-z])([A-Z])` by `$1 $2`:
      matches of that pattern cannot overlap, so it puts one space into every
      lower-to-upper boundary. */
  function SplitCamelCase(s: string): string
  {
    if |s| < 2 then s
    else if CamelBoundaryAt(s, 0) then [s[0], ' '] + SplitCamelCase(s[1..])
    else [s[0]] + SplitCamelCase(s[1..])
  }

  /** How many lower-to-upper boundaries `s` has. */
  function CamelBoundaries(s: string): nat
  {
    if |s| < 2 then 0 else (if CamelBoundaryAt(s, 0) then 1 else 0) + CamelBoundaries(s[1..])
  }

  /** `s` with its space characters left out. */
  function WithoutSpaces(s: string): string
  {
    if s == [] then [] else (if s[0] == ' ' then [] else [s[0]]) + WithoutSpaces(s[1..])
  }

  lemma {:induction false} WithoutSpacesAppend(a: string, b: string)
    ensures WithoutSpaces(a + b) == WithoutSpaces(a) + WithoutSpaces(b)
  {
    if a != [] {
      WithoutSpacesAppend(a[1..], b);
      var h := if a[0] == ' ' then [] else [a[0]];
      assert (a + b)[0] == a[0] && (a + b)[1..] == a[1..] + b;
      assert WithoutSpaces(a + b) == h + WithoutSpaces(a[1..] + b);
      assert WithoutSpaces(a) == h + WithoutSpaces(a[1..]);
    } else {
      assert a + b == b;
    }
  }

  lemma {:induction false} SplitCamelCaseHead(s: string)
    requires |s| > 0
    ensures |SplitCamelCase(s)| > 0 && SplitCamelCase(s)[0] == s[0]
  {
  }

  /** The camel-case split adds exactly one character per boundary, changes
      nothing but spaces, and leaves no boundary behind. */
  lemma {:induction false} SplitCamelCaseSpec(s: string)
    ensures |SplitCamelCase(s)| == |s| + CamelBoundaries(s)
    ensures WithoutSpaces(SplitCamelCase(s)) == WithoutSpaces(s)
    ensures forall i :: !CamelBoundaryAt(SplitCamelCase(s), i)
  {
    if |s| >= 2 {
      SplitCamelCaseSpec(s[1..]);
      SplitCamelCaseHead(s[1..]);
      var rest := SplitCamelCase(s[1..]);
      assert s == [s[0]] + s[1..];
      WithoutSpacesAppend([s[0]], s[1..]);
      if CamelBoundaryAt(s, 0) {
        WithoutSpacesAppend([s[0], ' '], rest);
        var r := [s[0], ' '] + rest;
        forall i ensures !CamelBoundaryAt(r, i) {
          if 2 <= i && i + 1 < |r| {
            assert r[i] == rest[i - 2] && r[i + 1] == rest[i - 1];
            assert !CamelBoundaryAt(rest, i - 2);
          } else if i == 0 || i == 1 {
            assert r[1] == ' ';
          }
        }
      } else {
        WithoutSpacesAppend([s[0]], rest);
        var r := [s[0]] + rest;
        forall i ensures !CamelBoundaryAt(r, i) {
          if 1 <= i && i + 1 < |r| {
            assert r[i] == rest[i - 1] && r[i + 1] == rest[i];
            assert !CamelBoundaryAt(rest, i - 1);
          } else if i == 0 {
            assert r[0] == s[0] && r[1] == s[1];
          }
        }
      }
    }
  }

  /** The label shown for a category: a fixed title for the curated ones,
      otherwise the raw value without its prefix, split at camel-case
      boundaries. */
  function DisplayName(c: Category): string
  {
    if c == Museum then "Museum"
    else if c == Landmark then "Landmark"
    else if c == Park then "Park"
    else if c == NationalPark then "National Park"
    else if c == Beach then "Beach"
    else if c == Marina then "Marina"
    else if c == Aquarium then "Aquarium"
    else if c == AmusementPark then "Amusement Park"
    else if c == Stadium then "Stadium"
    else if c == Theater then "Theater"
    else if c == MovieTheater then "Movie Theater"
    else if c == Nightlife then "Nightlife"
    else if c == Winery then "Winery"
    else if c == Brewery then "Brewery"
    else if c == Library then "Library"
    else if c == University then "University"
    else if c == Campground then "Campground"
    else SplitCamelCase(StripRawPrefix(c.rawValue))
  }

  /** The fixed title of each of the 17 curated categories. */
  lemma CuratedDisplayNames()
    ensures DisplayName(Museum) == "Museum"
    ensures DisplayName(Landmark) == "Landmark"
    ensures DisplayName(Park) == "Park"
    ensures DisplayName(NationalPark) == "National Park"
    ensures DisplayName(Beach) == "Beach"
    ensures DisplayName(Marina) == "Marina"
    ensures DisplayName(Aquarium) == "Aquarium"
    ensures DisplayName(AmusementPark) == "Amusement Park"
    ensures DisplayName(Stadium) == "Stadium"
    ensures DisplayName(Theater) == "Theater"
    ensures DisplayName(MovieTheater) == "Movie Theater"
    ensures DisplayName(Nightlife) == "Nightlife"
    ensures DisplayName(Winery) == "Winery"
    ensures DisplayName(Brewery) == "Brewery"
    ensures DisplayName(Library) == "Library"
    ensures DisplayName(University) == "University"
    ensures DisplayName(Campground) == "Campground"
  {
  }

  /** For every category outside the list the display name is the stripped
      raw value with one space added at each camel-case boundary, and nothing
      else changed. */
  lemma UncuratedDisplayName(c: Category)
    requires c !in Curated
    ensures var stripped := StripRawPrefix(c.rawValue);
      && |DisplayName(c)| == |stripped| + CamelBoundaries(stripped)
      && WithoutSpaces(DisplayName(c)) == WithoutSpaces(stripped)
      && forall i :: !CamelBoundaryAt(DisplayName(c), i)
  {
    SplitCamelCaseSpec(StripRawPrefix(c.rawValue));
  }

  /** Suggested map span, in hundredths of a degree (the source's values are
      all whole hundredths). */
  function SpanHundredths(c: Category): int
  {
    if c == Landmark then 3
    else if c == Museum then 3
    else if c == Theater then 3
    else if c == MovieTheater then 3
    else if c == Library then 3
    else if c == Aquarium then 4
    else if c == Brewery then 4
    else if c == Stadium then 5
    else if c == Nightlife then 5
    else if c == Marina then 6
    else if c == Winery then 6
    else if c == Park then 10
    else if c == AmusementPark then 12
    else if c == University then 12
    else if c == Campground then 12
    else if c == Beach then 15
    else if c == NationalPark then 50
    else 8
  }

  /** Every span lies in [0.03, 0.50] degrees; national parks get the widest
      span and every category outside the list gets 0.08. */
  lemma SpanBounds(c: Category)
    ensures 3 <= SpanHundredths(c) <= 50
    ensures SpanHundredths(c) <= SpanHundredths(NationalPark)
    ensures c !in Curated ==> SpanHundredths(c) == 8
    ensures SpanHundredths(c) == 50 ==> c == NationalPark
  {
  }

  /** SF Symbol name. `modernSymbols` stands for the OS-availability check
      (iOS 17 / macOS 14 and later) that picks newer symbols for national
      parks and beaches. */
  function SymbolName(c: Category, modernSymbols: bool): string
  {
    if c == Landmark then "star.circle.fill"
    else if c == Museum then "building.columns"
    else if c == NationalPark then (if modernSymbols then "mountain.2.fill" else "leaf.fill")
    else if c == Park then "tree.fill"
    else if c == Beach then (if modernSymbols then "beach.umbrella.fill" else "sun.max")
    else if c == Marina then "sailboat.fill"
    else if c == Aquarium then "fish"
    else if c == AmusementPark then "sparkles"
    else if c == Stadium then "sportscourt.fill"
    else if c == Theater then "theatermasks.fill"
    else if c == MovieTheater then "film.fill"
    else if c == Nightlife then "moon.stars.fill"
    else if c == Winery then "wineglass"
    else if c == Brewery then "wineglass"
    else if c == Library then "books.vertical"
    else if c == University then "graduationcap.fill"
    else if c == Campground then "tent.fill"
    else "mappin"
  }

  /** Categories outside the list use the plain pin; winery and brewery share
      a glass; only national parks and beaches depend on the OS flag. */
  lemma SymbolNameFacts(c: Category, modern: bool)
    ensures c !in Curated ==> SymbolName(c, modern) == "mappin"
    ensures SymbolName(Winery, modern) == SymbolName(Brewery, modern) == "wineglass"
    ensures SymbolName(c, true) != SymbolName(c, false) <==> c == NationalPark || c == Beach
  {
  }
}
