/**
 * How the landmark screen ranks free-text search results: results without a
 * place identifier are dropped, the rest are ordered by category priority
 * (a result without a category ranks at 100), then by how well the name
 * matches the query, then by name, and the first twenty are kept.
 * Lower-casing is Foundation's and is passed in.
 */
module SearchRanking {
  import opened TextUtil
  import opened Sorting
  import opened MapKitTypes
  import Display = PoiCategoryDisplay

  /** Priority of a result without a category. It is not the default of
      `touristPriority` (50): such results rank after every categorized one. */
  const NilCategoryPriority: int := 100

  /** At most this many results are shown. */
  const MaxSearchResults: nat := 20

  /** The first sort key. */
  function SearchPriority(item: MapItem): int
  {
    match item.category
    case Some(c) => Display.TouristPriority(c)
    case None => NilCategoryPriority
  }

  /** Every categorized result ranks strictly ahead of every uncategorized one
      on the first key. */
  lemma CategorizedRankFirst(a: MapItem, b: MapItem)
    requires a.category.Some? && b.category.None?
    ensures SearchPriority(a) < SearchPriority(b)
  {
  }

  /** `nameMatchScore`: 0 for the same name up to case, 1 when the name
      starts with the query, 2 when it contains it, 3 otherwise. */
  function NameMatchScore(name: string, query: string, lowercased: string -> string): (score: nat)
    ensures score <= 3
    ensures score == 0 <==> lowercased(name) == lowercased(query)
    ensures score <= 1 <==> HasPrefix(lowercased(name), lowercased(query))
    ensures score <= 2 <==> ContainsSubstring(lowercased(name), lowercased(query))
  {
    var n := lowercased(name);
    var ql := lowercased(query);
    assert n == ql ==> n[..|ql|] == ql;
    if n == ql then 0
    else if HasPrefix(n, ql) then 1
    else if ContainsSubstring(n, ql) then 2
    else 3
  }

  function NameOrEmpty(item: MapItem): string
  {
    match item.name
    case Some(n) => n
    case None => ""
  }

  /** The sort predicate: lexicographic on (priority, match score, name). */
  function RankedBefore(query: string, lowercased: string -> string): (MapItem, MapItem) -> bool
  {
    (a: MapItem, b: MapItem) =>
      var p0 := SearchPriority(a);
      var p1 := SearchPriority(b);
      if p0 != p1 then p0 < p1
      else
        var s0 := NameMatchScore(NameOrEmpty(a), query, lowercased);
        var s1 := NameMatchScore(NameOrEmpty(b), query, lowercased);
        if s0 != s1 then s0 < s1
        else LexLess(NameOrEmpty(a), NameOrEmpty(b))
  }

  lemma RankedBeforeIsStrictWeakOrder(query: string, lowercased: string -> string)
    ensures StrictWeakOrder(RankedBefore(query, lowercased))
  {
    var lt := RankedBefore(query, lowercased);
    forall a: MapItem, b: MapItem, c: MapItem
      ensures lt(a, b) ==> !lt(b, a)
      ensures lt(a, c) ==> lt(a, b) || lt(b, c)
    {
      LexLessStrictOrder(NameOrEmpty(a), NameOrEmpty(b), NameOrEmpty(c));
    }
  }

  predicate HasPlaceID(item: MapItem)
  {
    item.identifier.Some?
  }

  /** Results with a place identifier, sorted by rank. */
  function RankedCandidates(items: seq<MapItem>, query: string, lowercased: string -> string): seq<MapItem>
  {
    SortBy(Filter(items, HasPlaceID), RankedBefore(query, lowercased))
  }

  /** The results shown for `query`: the best twenty candidates. */
  function RankedResults(items: seq<MapItem>, query: string, lowercased: string -> string): (r: seq<MapItem>)
    ensures var candidates := Filter(items, HasPlaceID);
      |r| == if |candidates| < MaxSearchResults then |candidates| else MaxSearchResults
    ensures multiset(r) <= multiset(Filter(items, HasPlaceID))
    ensures forall k :: 0 <= k < |r| ==> r[k].identifier.Some?
    ensures forall k :: 0 <= k < |r| ==> r[k] in items
  {
    var candidates := Filter(items, HasPlaceID);
    var s := RankedCandidates(items, query, lowercased);
    assert multiset(s) == multiset(candidates);
    var r := Take(s, MaxSearchResults);
    TakeSubMultiset(s, MaxSearchResults);
    forall k | 0 <= k < |r|
      ensures r[k] in items && r[k].identifier.Some?
    {
      assert r[k] in multiset(candidates);
      assert HasPlaceID(r[k]);
    }
    r
  }

  /** The shown results are in rank order: priority never decreases; at equal
      priority the match score never decreases; at equal priority and score
      the names are in ascending order. */
  lemma RankedResultsOrder(items: seq<MapItem>, query: string, lowercased: string -> string)
    ensures var r := RankedResults(items, query, lowercased);
      forall i, j :: 0 <= i < j < |r| ==>
        && SearchPriority(r[i]) <= SearchPriority(r[j])
        && (SearchPriority(r[i]) == SearchPriority(r[j]) ==>
              NameMatchScore(NameOrEmpty(r[i]), query, lowercased) <= NameMatchScore(NameOrEmpty(r[j]), query, lowercased))
        && (SearchPriority(r[i]) == SearchPriority(r[j]) &&
            NameMatchScore(NameOrEmpty(r[i]), query, lowercased) == NameMatchScore(NameOrEmpty(r[j]), query, lowercased) ==>
              !LexLess(NameOrEmpty(r[j]), NameOrEmpty(r[i])))
  {
    var lt := RankedBefore(query, lowercased);
    RankedBeforeIsStrictWeakOrder(query, lowercased);
    SortBySorted(Filter(items, HasPlaceID), lt);
    var s := RankedCandidates(items, query, lowercased);
    var r := RankedResults(items, query, lowercased);
    forall i, j | 0 <= i < j < |r|
      ensures !lt(r[j], r[i])
    {
      assert r[i] == s[i] && r[j] == s[j];
    }
  }

  /** Nothing that was cut ranks ahead of anything that was kept. */
  lemma RankedResultsKeepBest(items: seq<MapItem>, query: string, lowercased: string -> string, x: MapItem, i: nat)
    requires x in multiset(Filter(items, HasPlaceID)) - multiset(RankedResults(items, query, lowercased))
    requires i < |RankedResults(items, query, lowercased)|
    ensures !RankedBefore(query, lowercased)(x, RankedResults(items, query, lowercased)[i])
  {
    var lt := RankedBefore(query, lowercased);
    RankedBeforeIsStrictWeakOrder(query, lowercased);
    var s := RankedCandidates(items, query, lowercased);
    SortBySorted(Filter(items, HasPlaceID), lt);
    var r := RankedResults(items, query, lowercased);
    assert r == s[..|r|];
    SortedPrefixKeepsBest(s, lt, |r|, x, i);
  }

  /** When at most twenty results carry a place identifier, all of them are
      shown, each as often as it was returned. */
  lemma RankedResultsComplete(items: seq<MapItem>, query: string, lowercased: string -> string)
    requires |Filter(items, HasPlaceID)| <= MaxSearchResults
    ensures multiset(RankedResults(items, query, lowercased)) == multiset(Filter(items, HasPlaceID))
    ensures forall k :: 0 <= k < |items| && items[k].identifier.Some? ==> items[k] in RankedResults(items, query, lowercased)
  {
    var s := RankedCandidates(items, query, lowercased);
    assert RankedResults(items, query, lowercased) == s;
    forall k | 0 <= k < |items| && items[k].identifier.Some?
      ensures items[k] in s
    {
      assert HasPlaceID(items[k]);
      assert items[k] in multiset(Filter(items, HasPlaceID));
    }
  }
}
