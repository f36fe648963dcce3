/**
 * The filter chips over the current search results: which chips exist for a
 * result list, in what order, and which results each chip shows.
 */
module ResultFilters {
  import opened Wrappers
  import opened TextUtil
  import opened Sorting
  import opened MapKitTypes
  import Display = PoiCategoryDisplay
  import F = PoiFilter

  /** The categories present in `results`, each once, in order of first
      appearance. */
  function DistinctCategories(results: seq<MapItem>): seq<Display.Category>
  {
    if results == [] then []
    else
      var cats := DistinctCategories(results[..|results| - 1]);
      match results[|results| - 1].category
      case None => cats
      case Some(c) => if c in cats then cats else cats + [c]
  }

  /** Each category some result has appears exactly once. */
  lemma {:induction false} DistinctCategoriesFacts(results: seq<MapItem>)
    ensures forall i, j :: 0 <= i < j < |DistinctCategories(results)| ==>
              DistinctCategories(results)[i] != DistinctCategories(results)[j]
    ensures forall c :: c in DistinctCategories(results) <==>
              exists k :: 0 <= k < |results| && results[k].category == Some(c)
  {
    if results != [] {
      var init := results[..|results| - 1];
      DistinctCategoriesFacts(init);
      assert forall k :: 0 <= k < |init| ==> init[k] == results[k];
      var last := results[|results| - 1];
      if last.category.Some? {
        var c := last.category.value;
        var cats := DistinctCategories(init);
        if c !in cats {
          var r := cats + [c];
          assert forall i :: 0 <= i < |cats| ==> r[i] == cats[i];
        }
      }
    }
  }

  /** Some result has no category. */
  predicate HasUncategorized(results: seq<MapItem>)
  {
    exists k :: 0 <= k < |results| && results[k].category.None?
  }

  /** Scanning one more result adds its category unless already present. */
  lemma ScanStepCategories(results: seq<MapItem>, i: nat)
    requires i < |results|
    ensures var cats := DistinctCategories(results[..i]);
      DistinctCategories(results[..i + 1]) ==
        match results[i].category
        case None => cats
        case Some(c) => if c in cats then cats else cats + [c]
  {
    var prefix := results[..i + 1];
    assert prefix[..|prefix| - 1] == results[..i];
  }

  /** Scanning one more result notes a missing category. */
  lemma ScanStepUncategorized(results: seq<MapItem>, i: nat)
    requires i < |results|
    ensures HasUncategorized(results[..i + 1]) <==> HasUncategorized(results[..i]) || results[i].category.None?
  {
    var prefix := results[..i + 1];
    if HasUncategorized(results[..i]) {
      var k :| 0 <= k < i && results[..i][k].category.None?;
      assert prefix[k] == results[..i][k];
    }
    if results[i].category.None? {
      assert prefix[i] == results[i];
    }
  }

  /** The order of category chips: by tourist priority, then by display
      name. */
  function CategoryBefore(): (Display.Category, Display.Category) -> bool
  {
    (a: Display.Category, b: Display.Category) =>
      var p0 := Display.TouristPriority(a);
      var p1 := Display.TouristPriority(b);
      if p0 != p1 then p0 < p1
      else LexLess(Display.DisplayName(a), Display.DisplayName(b))
  }

  lemma CategoryBeforeIsStrictWeakOrder()
    ensures StrictWeakOrder(CategoryBefore())
  {
    var lt := CategoryBefore();
    forall a: Display.Category, b: Display.Category, c: Display.Category
      ensures lt(a, b) ==> !lt(b, a)
      ensures lt(a, c) ==> lt(a, b) || lt(b, c)
    {
      LexLessStrictOrder(Display.DisplayName(a), Display.DisplayName(b), Display.DisplayName(c));
    }
  }

  /** One category chip per category. */
  function CategoryFilters(cats: seq<Display.Category>): (r: seq<F.PoiFilter>)
    ensures |r| == |cats|
    ensures forall k :: 0 <= k < |r| ==> r[k] == F.CategoryFilter(cats[k])
  {
    if cats == [] then [] else [F.CategoryFilter(cats[0])] + CategoryFilters(cats[1..])
  }

  /** `!CategoryBefore()(b, a)` spelled out: `a` may stand before `b`. */
  lemma CategoryBeforeMeaning(a: Display.Category, b: Display.Category)
    ensures !CategoryBefore()(b, a) <==>
      || Display.TouristPriority(a) < Display.TouristPriority(b)
      || (Display.TouristPriority(a) == Display.TouristPriority(b) &&
          !LexLess(Display.DisplayName(b), Display.DisplayName(a)))
  {
  }

  /** The categories of the category chips, in chip order. */
  function SortedCategories(results: seq<MapItem>): (cats: seq<Display.Category>)
    ensures multiset(cats) == multiset(DistinctCategories(results))
  {
    SortBy(DistinctCategories(results), CategoryBefore())
  }

  /** Each present category appears once among the chip categories. */
  lemma SortedCategoriesMembers(results: seq<MapItem>)
    ensures var cats := SortedCategories(results);
      && (forall i, j :: 0 <= i < j < |cats| ==> cats[i] != cats[j])
      && (forall c :: c in cats <==> exists k :: 0 <= k < |results| && results[k].category == Some(c))
  {
    var distinct := DistinctCategories(results);
    var cats := SortedCategories(results);
    DistinctCategoriesFacts(results);
    PermutationKeepsDistinct(distinct, cats);
    PermutationKeepsMembers(distinct, cats);
  }

  /** The chip categories are in chip order. */
  lemma SortedCategoriesOrdered(results: seq<MapItem>)
    ensures var cats := SortedCategories(results);
      forall i, j :: 0 <= i < j < |cats| ==> !CategoryBefore()(cats[j], cats[i])
  {
    CategoryBeforeIsStrictWeakOrder();
    SortBySorted(DistinctCategories(results), CategoryBefore());
  }

  /** "All", one chip per category of `cats`, and "Uncategorized" when
      `withUncategorized` holds. */
  function ChipList(cats: seq<Display.Category>, withUncategorized: bool): (fs: seq<F.PoiFilter>)
    ensures |fs| == 1 + |cats| + (if withUncategorized then 1 else 0)
    ensures fs[0] == F.All
    ensures forall k :: 1 <= k <= |cats| ==> fs[k] == F.CategoryFilter(cats[k - 1])
    ensures withUncategorized ==> fs[|fs| - 1] == F.Uncategorized
  {
    [F.All] + CategoryFilters(cats) + (if withUncategorized then [F.Uncategorized] else [])
  }

  /** Which chips the list holds. */
  lemma ChipListMembership(cats: seq<Display.Category>, withUncategorized: bool, f: F.PoiFilter)
    ensures f in ChipList(cats, withUncategorized) <==>
      || f == F.All
      || (f.CategoryFilter? && f.category in cats)
      || (f == F.Uncategorized && withUncategorized)
  {
    var fs := ChipList(cats, withUncategorized);
    if f.CategoryFilter? {
      if f in fs {
        var i :| 0 <= i < |fs| && fs[i] == f;
        assert cats[i - 1] == f.category;
      }
      if f.category in cats {
        var i :| 0 <= i < |cats| && cats[i] == f.category;
        assert fs[i + 1] == f;
      }
    } else if f == F.Uncategorized && f in fs {
      var i :| 0 <= i < |fs| && fs[i] == f;
      assert i == |fs| - 1;
    }
  }

  /** The chips for a result list: "All", the sorted category chips, and
      "Uncategorized" when some result has no category. */
  function AvailableFilters(results: seq<MapItem>): seq<F.PoiFilter>
  {
    ChipList(SortedCategories(results), HasUncategorized(results))
  }

  /** A chip is offered exactly when it is "All", names a category some
      result has, or is "Uncategorized" and some result has no category. */
  lemma AvailableFiltersMembership(results: seq<MapItem>, f: F.PoiFilter)
    ensures f in AvailableFilters(results) <==>
      || f == F.All
      || (f.CategoryFilter? && exists k :: 0 <= k < |results| && results[k].category == Some(f.category))
      || (f == F.Uncategorized && HasUncategorized(results))
  {
    ChipListMembership(SortedCategories(results), HasUncategorized(results), f);
    SortedCategoriesMembers(results);
  }

  /** "All" comes first; "Uncategorized" comes last, if at all; the category
      chips between are in priority order, and in display-name order within
      one priority. */
  lemma AvailableFiltersOrder(results: seq<MapItem>)
    ensures var fs := AvailableFilters(results);
      && fs[0] == F.All
      && (F.Uncategorized in fs <==> fs[|fs| - 1] == F.Uncategorized)
      && (forall k :: 1 <= k < |fs| - 1 ==> fs[k].CategoryFilter?)
      && (forall i, j :: 1 <= i < j < |fs| && fs[i].CategoryFilter? && fs[j].CategoryFilter? ==>
            || Display.TouristPriority(fs[i].category) < Display.TouristPriority(fs[j].category)
            || (Display.TouristPriority(fs[i].category) == Display.TouristPriority(fs[j].category) &&
                !LexLess(Display.DisplayName(fs[j].category), Display.DisplayName(fs[i].category))))
  {
    var cats := SortedCategories(results);
    var fs := ChipList(cats, HasUncategorized(results));
    SortedCategoriesOrdered(results);
    ChipListMembership(cats, HasUncategorized(results), F.Uncategorized);
    forall i, j | 1 <= i < j < |fs| && fs[i].CategoryFilter? && fs[j].CategoryFilter?
      ensures || Display.TouristPriority(fs[i].category) < Display.TouristPriority(fs[j].category)
              || (Display.TouristPriority(fs[i].category) == Display.TouristPriority(fs[j].category) &&
                  !LexLess(Display.DisplayName(fs[j].category), Display.DisplayName(fs[i].category)))
    {
      assert fs[i].category == cats[i - 1] && fs[j].category == cats[j - 1];
      CategoryBeforeMeaning(cats[i - 1], cats[j - 1]);
    }
  }

  /** No chip is offered twice. */
  lemma AvailableFiltersDistinct(results: seq<MapItem>)
    ensures var fs := AvailableFilters(results);
      forall i, j :: 0 <= i < j < |fs| ==> fs[i] != fs[j]
  {
    SortedCategoriesMembers(results);
  }

  /** `filteredResults`: whether a result is shown under a chip. */
  predicate Shows(f: F.PoiFilter, item: MapItem)
  {
    match f
    case All => true
    case Uncategorized => item.category.None?
    case CategoryFilter(c) => item.category == Some(c)
  }

  /** The results a chip shows, in result order. */
  function FilterResults(results: seq<MapItem>, f: F.PoiFilter): (r: seq<MapItem>)
    ensures f == F.All ==> r == results
    ensures IsSubsequence(r, results)
    ensures forall k :: 0 <= k < |r| ==> Shows(f, r[k])
    ensures forall k :: 0 <= k < |results| && Shows(f, results[k]) ==> results[k] in r
    ensures forall x :: multiset(r)[x] == if Shows(f, x) then multiset(results)[x] else 0
  {
    match f
    case All =>
      FilterAll(results, item => Shows(f, item));
      FilterIsSubsequence(results, item => Shows(f, item));
      results
    case Uncategorized =>
      var uncategorized := (item: MapItem) => item.category.None?;
      FilterByChip(results, f, uncategorized);
      Filter(results, uncategorized)
    case CategoryFilter(c) =>
      var inCategory := (item: MapItem) => item.category == Some(c);
      FilterByChip(results, f, inCategory);
      Filter(results, inCategory)
  }

  /** Filtering by a test that agrees with a chip keeps the results the chip
      shows, in order and as often as they occur. */
  lemma FilterByChip(results: seq<MapItem>, f: F.PoiFilter, p: MapItem -> bool)
    requires forall x :: p(x) == Shows(f, x)
    ensures IsSubsequence(Filter(results, p), results)
    ensures forall x :: multiset(Filter(results, p))[x] == if Shows(f, x) then multiset(results)[x] else 0
  {
    FilterIsSubsequence(results, p);
    FilterMultiset(results, p);
  }

  /** The chip a result belongs to, other than "All". */
  function ChipOf(item: MapItem): F.PoiFilter
  {
    match item.category
    case Some(c) => F.CategoryFilter(c)
    case None => F.Uncategorized
  }

  /** The chips other than "All" partition the results: every result is
      offered a chip that shows it, and no other such chip shows it. */
  lemma ChipsPartitionResults(results: seq<MapItem>, k: nat, g: F.PoiFilter)
    requires k < |results|
    ensures ChipOf(results[k]) in AvailableFilters(results)
    ensures results[k] in FilterResults(results, ChipOf(results[k]))
    ensures g != F.All && g != ChipOf(results[k]) ==> results[k] !in FilterResults(results, g)
  {
    AvailableFiltersMembership(results, ChipOf(results[k]));
  }

  /** The selection after a rebuild: kept when still offered, otherwise
      "All". Either way it is one of the offered chips. */
  function ReconciledSelection(selected: F.PoiFilter, filters: seq<F.PoiFilter>): (r: F.PoiFilter)
    requires |filters| > 0 && filters[0] == F.All
    ensures r in filters
    ensures selected in filters ==> r == selected
    ensures selected !in filters ==> r == F.All
  {
    if selected in filters then selected else F.All
  }
}
