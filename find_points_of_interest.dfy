/**
 * The part of `getSuggestions` that runs once MapKit has answered: the items
 * are sorted by distance from the search center (ties by name), near-duplicate
 * names are dropped, the names are made ASCII-safe and tagged, and the first
 * three are returned. Distances, collation and case folding come from
 * Foundation and are passed in.
 */
module FindPointsOfInterest {
  import opened Wrappers
  import opened TextUtil
  import opened Sorting
  import opened MapKitTypes
  import Display = PoiCategoryDisplay
  import Tr = Transliteration

  /** The tool's argument: the kind of business to look up. */
  datatype PoiKind = Hotel | Restaurant

  /** The raw value, used as the search's natural-language query. */
  function KindRawValue(k: PoiKind): string
  {
    match k
    case Hotel => "hotel"
    case Restaurant => "restaurant"
  }

  /** `poiCategory`: the MapKit category the search is restricted to. */
  function PoiCategory(k: PoiKind): (c: Display.Category)
    ensures c.rawValue == Display.RawPrefix + (if k == Hotel then "Hotel" else "Restaurant")
  {
    match k
    case Hotel => Display.Hotel
    case Restaurant => Display.Restaurant
  }

  /** Both kinds map to different categories, neither of them curated, so
      both rank at the default priority and show the plain pin. */
  lemma PoiCategoryFacts(k: PoiKind, l: PoiKind)
    ensures PoiCategory(k) == PoiCategory(l) <==> k == l
    ensures PoiCategory(k) !in Display.Curated
    ensures Display.TouristPriority(PoiCategory(k)) == 50
    ensures Display.SymbolName(PoiCategory(k), true) == "mappin"
  {
    assert PoiCategory(Hotel).rawValue[13] == 'H';
    assert PoiCategory(Restaurant).rawValue[13] == 'R';
    Display.LodgingAndDiningUncurated();
    Display.UncuratedPriority(PoiCategory(k));
    Display.SymbolNameFacts(PoiCategory(k), true);
  }

  /** The Foundation string services the pipeline uses:
      `collationKey` orders names as `localizedCaseInsensitiveCompare` does,
      `caseFold` makes `caseInsensitiveCompare` answer "same" exactly when
      the folded strings are equal, and `unicode` serves the transliteration. */
  datatype TextServices = TextServices(
    collationKey: string -> string,
    caseFold: string -> string,
    unicode: Tr.UnicodeServices)

  function NameOrEmpty(item: MapItem): string
  {
    match item.name
    case Some(n) => n
    case None => ""
  }

  /** The sort predicate: nearer to the center first; at equal distance, the
      name that collates first (a missing name counts as ""). */
  function NearerFirst(center: Coordinate, distance: DistanceFunction, collationKey: string -> string): (MapItem, MapItem) -> bool
  {
    (a: MapItem, b: MapItem) =>
      var da := distance(a.coordinate, center);
      var db := distance(b.coordinate, center);
      if da == db then LexLess(collationKey(NameOrEmpty(a)), collationKey(NameOrEmpty(b)))
      else da < db
  }

  lemma NearerFirstIsStrictWeakOrder(center: Coordinate, distance: DistanceFunction, collationKey: string -> string)
    ensures StrictWeakOrder(NearerFirst(center, distance, collationKey))
  {
    var lt := NearerFirst(center, distance, collationKey);
    var key := (x: MapItem) => collationKey(NameOrEmpty(x));
    forall a: MapItem, b: MapItem, c: MapItem
      ensures lt(a, b) ==> !lt(b, a)
      ensures lt(a, c) ==> lt(a, b) || lt(b, c)
    {
      LexLessStrictOrder(key(a), key(b), key(c));
    }
  }

  function SortedByDistance(items: seq<MapItem>, center: Coordinate, distance: DistanceFunction, collationKey: string -> string): seq<MapItem>
  {
    SortBy(items, NearerFirst(center, distance, collationKey))
  }

  /** The sorted items are the input items, nearest first, and items at the
      same distance are in name order. */
  lemma SortedByDistanceOrder(items: seq<MapItem>, center: Coordinate, distance: DistanceFunction, collationKey: string -> string)
    ensures multiset(SortedByDistance(items, center, distance, collationKey)) == multiset(items)
    ensures var s := SortedByDistance(items, center, distance, collationKey);
            forall i, j :: 0 <= i < j < |s| ==>
              distance(s[i].coordinate, center) <= distance(s[j].coordinate, center) &&
              (distance(s[i].coordinate, center) == distance(s[j].coordinate, center) ==>
                 !LexLess(collationKey(NameOrEmpty(s[j])), collationKey(NameOrEmpty(s[i]))))
  {
    NearerFirstIsStrictWeakOrder(center, distance, collationKey);
    SortBySorted(items, NearerFirst(center, distance, collationKey));
  }

  /** Dedup radius, in meters (exclusive). */
  const DedupRadiusMeters: real := 75.0

  /** An entry of `seen`: the trimmed name and coordinate of a kept item. */
  datatype SeenEntry = SeenEntry(name: string, coord: Coordinate)

  /** `item` repeats the seen entry: same name up to case, strictly closer
      than 75 m. */
  predicate Repeats(s: SeenEntry, item: MapItem, name: string, distance: DistanceFunction, caseFold: string -> string)
  {
    caseFold(s.name) == caseFold(name) && distance(s.coord, item.coordinate) < DedupRadiusMeters
  }

  function EntryOf(item: MapItem): SeenEntry
    requires item.name.Some?
  {
    SeenEntry(Trim(item.name.value), item.coordinate)
  }

  /** `item` repeats an already kept item `kept`. */
  predicate NearDuplicate(kept: MapItem, item: MapItem, distance: DistanceFunction, caseFold: string -> string)
  {
    kept.name.Some? && item.name.Some? &&
    Repeats(EntryOf(kept), item, Trim(item.name.value), distance, caseFold)
  }

  /** An item survives when it has a name and repeats no item kept so far. */
  predicate Survives(kept: seq<MapItem>, item: MapItem, distance: DistanceFunction, caseFold: string -> string)
  {
    item.name.Some? && forall k :: 0 <= k < |kept| ==> !NearDuplicate(kept[k], item, distance, caseFold)
  }

  /** The items the dedup filter keeps, scanning the sorted items in order. */
  function Deduped(items: seq<MapItem>, distance: DistanceFunction, caseFold: string -> string): seq<MapItem>
    decreases |items|
  {
    if items == [] then []
    else
      var kept := Deduped(items[..|items| - 1], distance, caseFold);
      var item := items[|items| - 1];
      if Survives(kept, item, distance, caseFold) then kept + [item] else kept
  }

  /** The dedup `filter` with its growing `seen` list. */
  method Dedup(sortedItems: seq<MapItem>, distance: DistanceFunction, caseFold: string -> string)
    returns (deduped: seq<MapItem>)
    ensures deduped == Deduped(sortedItems, distance, caseFold)
  {
    var seen: seq<SeenEntry> := [];
    deduped := [];
    for i := 0 to |sortedItems|
      invariant deduped == Deduped(sortedItems[..i], distance, caseFold)
      invariant |seen| == |deduped|
      invariant forall k :: 0 <= k < |seen| ==> deduped[k].name.Some? && seen[k] == EntryOf(deduped[k])
    {
      var item := sortedItems[i];
      assert sortedItems[..i + 1][..i] == sortedItems[..i];
      var keep := false;
      if item.name.Some? {
        var name := Trim(item.name.value);
        var isDuplicate := ContainsWhere(seen, (s: SeenEntry) => Repeats(s, item, name, distance, caseFold));
        assert isDuplicate <==> !Survives(deduped, item, distance, caseFold) by {
          if isDuplicate {
            var k :| 0 <= k < |seen| && Repeats(seen[k], item, name, distance, caseFold);
            assert NearDuplicate(deduped[k], item, distance, caseFold);
          }
        }
        if !isDuplicate {
          seen := seen + [SeenEntry(name, item.coordinate)];
        }
        keep := !isDuplicate;
      }
      if keep {
        deduped := deduped + [item];
      }
    }
    assert sortedItems[..|sortedItems|] == sortedItems;
  }

  /** One step of the scan: the last item is kept exactly when it survives
      the items kept before it. */
  lemma DedupedStep(items: seq<MapItem>, distance: DistanceFunction, caseFold: string -> string)
    requires items != []
    ensures var init := items[..|items| - 1];
            var kept := Deduped(init, distance, caseFold);
            var item := items[|items| - 1];
            items == init + [item] &&
            Deduped(items, distance, caseFold) == if Survives(kept, item, distance, caseFold) then kept + [item] else kept
  {
  }

  /** What dedup keeps is an order-preserving subsequence of its input. */
  lemma {:induction false} DedupedIsSubsequence(items: seq<MapItem>, distance: DistanceFunction, caseFold: string -> string)
    ensures IsSubsequence(Deduped(items, distance, caseFold), items)
    decreases |items|
  {
    if items != [] {
      var init := items[..|items| - 1];
      DedupedStep(items, distance, caseFold);
      DedupedIsSubsequence(init, distance, caseFold);
      SubsequenceAppend(Deduped(init, distance, caseFold), init, items[|items| - 1]);
    }
  }

  /** Every kept item has a name, and no kept item repeats an earlier kept
      one. */
  lemma {:induction false} DedupedNoRepeats(items: seq<MapItem>, distance: DistanceFunction, caseFold: string -> string)
    ensures var d := Deduped(items, distance, caseFold);
            forall k :: 0 <= k < |d| ==> d[k].name.Some?
    ensures var d := Deduped(items, distance, caseFold);
            forall i, j :: 0 <= i < j < |d| ==> !NearDuplicate(d[i], d[j], distance, caseFold)
    decreases |items|
  {
    if items != [] {
      var init := items[..|items| - 1];
      var item := items[|items| - 1];
      DedupedStep(items, distance, caseFold);
      DedupedNoRepeats(init, distance, caseFold);
      var kept := Deduped(init, distance, caseFold);
      if Survives(kept, item, distance, caseFold) {
        var d := kept + [item];
        forall k | 0 <= k < |d| ensures d[k].name.Some? {
          if k < |kept| { assert d[k] == kept[k]; }
        }
        forall i, j | 0 <= i < j < |d| ensures !NearDuplicate(d[i], d[j], distance, caseFold) {
          assert d[i] == kept[i];
          if j < |kept| { assert d[j] == kept[j]; }
        }
      }
    }
  }

  /** The scan never takes back what it kept: the items kept from a prefix
      of the input begin the items kept from the whole input. */
  lemma {:induction false} DedupedPrefix(items: seq<MapItem>, i: nat, distance: DistanceFunction, caseFold: string -> string)
    requires i <= |items|
    ensures Deduped(items[..i], distance, caseFold) <= Deduped(items, distance, caseFold)
    decreases |items|
  {
    if i < |items| {
      var init := items[..|items| - 1];
      DedupedStep(items, distance, caseFold);
      DedupedPrefix(init, i, distance, caseFold);
      assert init[..i] == items[..i];
    } else {
      assert items[..i] == items;
    }
  }

  /** Nothing named is lost without cause: the named item at `i` is kept, or
      repeats an item kept before it was reached (an entry of `seen` at that
      point). */
  lemma DedupedCoversNamed(items: seq<MapItem>, i: nat, distance: DistanceFunction, caseFold: string -> string)
    requires i < |items| && items[i].name.Some?
    ensures || items[i] in Deduped(items, distance, caseFold)
            || exists k :: 0 <= k < |Deduped(items[..i], distance, caseFold)| &&
                 NearDuplicate(Deduped(items[..i], distance, caseFold)[k], items[i], distance, caseFold)
  {
    var upto := items[..i + 1];
    DedupedStep(upto, distance, caseFold);
    assert upto[..i] == items[..i];
    var kept := Deduped(items[..i], distance, caseFold);
    if Survives(kept, items[i], distance, caseFold) {
      DedupedPrefix(items, i + 1, distance, caseFold);
      var d := Deduped(items, distance, caseFold);
      assert Deduped(upto, distance, caseFold) == kept + [items[i]];
      assert d[|kept|] == items[i];
    }
  }

  /** Appending an element to both sides keeps a subsequence, and so does
      appending it to the longer side only. */
  lemma {:induction false} SubsequenceAppend<T>(a: seq<T>, b: seq<T>, x: T)
    requires IsSubsequence(a, b)
    ensures IsSubsequence(a + [x], b + [x])
    ensures IsSubsequence(a, b + [x])
    decreases |b|
  {
    if |a| > 0 {
      assert (a + [x])[1..] == a[1..] + [x];
      assert (b + [x])[1..] == b[1..] + [x];
      if a[0] == b[0] {
        SubsequenceAppend(a[1..], b[1..], x);
      } else {
        SubsequenceAppend(a, b[1..], x);
      }
    } else {
      assert a + [x] == [x];
      SubsequenceOfSingletonEnd(b, x);
    }
  }

  lemma {:induction false} SubsequenceOfSingletonEnd<T>(b: seq<T>, x: T)
    ensures IsSubsequence([x], b + [x])
    decreases |b|
  {
    if b != [] {
      assert (b + [x])[1..] == b[1..] + [x];
      SubsequenceOfSingletonEnd(b[1..], x);
      if b[0] != x {
      } else {
        assert [x][1..] == [];
      }
    }
  }

  /** The name the mapping step gives an item: "TG " and the transliterated
      trimmed name, or the trimmed name itself when transliteration leaves
      nothing; no name at all for an item whose trimmed name is empty. */
  function SuggestionName(item: MapItem, unicode: Tr.UnicodeServices): (r: Option<string>)
    ensures r.Some? <==> item.name.Some? && Trim(item.name.value) != []
    ensures r.Some? ==> |r.value| > 3 && r.value[..3] == "TG "
  {
    match item.name
    case None => None
    case Some(n) =>
      var raw := Trim(n);
      if raw == [] then None
      else
        var transliterated := Tr.TransliteratedLatinSafe(unicode, raw);
        var finalName := if transliterated == [] then raw else transliterated;
        Some("TG " + finalName)
  }

  /** After the tag comes the ASCII-safe name when there is one, else the
      trimmed name. */
  lemma SuggestionNameTail(item: MapItem, unicode: Tr.UnicodeServices)
    requires SuggestionName(item, unicode).Some?
    ensures var raw := Trim(item.name.value);
            var t := Tr.TransliteratedLatinSafe(unicode, raw);
            var tail := SuggestionName(item, unicode).value[3..];
            (t != [] ==> tail == t && Tr.AllAscii(tail)) && (t == [] ==> tail == raw)
  {
  }

  /** The items the mapping step gives a name: named, and not blank once
      trimmed. */
  predicate NamedNonBlank(item: MapItem)
  {
    item.name.Some? && Trim(item.name.value) != []
  }

  /** The mapping step: `compactMap` of `SuggestionName`. The names are, one
      for one and in order, those of the items with a non-blank name, and
      each carries the tag. */
  function SuggestionNames(items: seq<MapItem>, unicode: Tr.UnicodeServices): (r: seq<string>)
    ensures |r| == |Filter(items, NamedNonBlank)|
    ensures forall k :: 0 <= k < |r| ==> SuggestionName(Filter(items, NamedNonBlank)[k], unicode) == Some(r[k])
    ensures forall k :: 0 <= k < |r| ==> |r[k]| > 3 && r[k][..3] == "TG "
  {
    var f := (item: MapItem) => SuggestionName(item, unicode);
    var named := Filter(items, NamedNonBlank);
    CompactMapInOrder(items, f, NamedNonBlank);
    var r := CompactMap(items, f);
    forall k | 0 <= k < |r|
      ensures SuggestionName(named[k], unicode) == Some(r[k])
      ensures |r[k]| > 3 && r[k][..3] == "TG "
    {
      assert f(named[k]) == Some(r[k]);
    }
    r
  }

  /** The maximum number of suggestions returned. */
  const MaxSuggestions: nat := 3

  /** The whole post-response pipeline, as a value: at most three tagged
      names, the first ones the mapping step gives for the kept items. */
  function Suggestions(items: seq<MapItem>, center: Coordinate, distance: DistanceFunction, text: TextServices): (r: seq<string>)
    ensures |r| <= MaxSuggestions
    ensures forall k :: 0 <= k < |r| ==> |r[k]| > 3 && r[k][..3] == "TG "
    ensures var names := SuggestionNames(Deduped(SortedByDistance(items, center, distance, text.collationKey), distance, text.caseFold), text.unicode);
            |r| == (if |names| < MaxSuggestions then |names| else MaxSuggestions) && r == names[..|r|]
  {
    var sorted := SortedByDistance(items, center, distance, text.collationKey);
    var deduped := Deduped(sorted, distance, text.caseFold);
    Take(SuggestionNames(deduped, text.unicode), MaxSuggestions)
  }

  /** `getSuggestions` after the search has answered with `items`. */
  method GetSuggestions(items: seq<MapItem>, center: Coordinate, distance: DistanceFunction, text: TextServices)
    returns (names: seq<string>)
    ensures names == Suggestions(items, center, distance, text)
  {
    var sortedItems := SortBy(items, NearerFirst(center, distance, text.collationKey));
    var dedupedItems := Dedup(sortedItems, distance, text.caseFold);
    var allNames := SuggestionNames(dedupedItems, text.unicode);
    names := Take(allNames, MaxSuggestions);
  }
}
