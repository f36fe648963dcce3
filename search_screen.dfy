/**
 * The search state of the landmark screen: the query text, the shown
 * results, the message under the search field, the filter chips and the
 * selected chip, and the two flags the search toggles. The MapKit search
 * itself is replaced by its outcome, passed in: the returned items, or
 * `None` when the search threw.
 */
module SearchScreen {
  import opened Wrappers
  import opened TextUtil
  import opened MapKitTypes
  import opened SearchRanking
  import opened ResultFilters
  import opened OrderedSets
  import Display = PoiCategoryDisplay
  import Sorting
  import F = PoiFilter

  const EmptyQueryMessage := "Please enter a place name to search."
  const SearchFailedMessage := "Search failed. Please try again."
  const NoResultsMessage := "No results with a verified Apple Place ID. Try a more specific query."

  /** The pass of `rebuildAvailableFilters` over the results: the
      categories in order of first appearance, deduplicated by raw value
      through an ordered set, and whether some result has no category. */
  method ScanResults(results: seq<MapItem>) returns (categories: seq<Display.Category>, hasUncategorized: bool)
    ensures categories == DistinctCategories(results)
    ensures hasUncategorized <==> HasUncategorized(results)
  {
    var seenRaw := new OrderedSet<string>();
    categories := [];
    hasUncategorized := false;
    for i := 0 to |results|
      invariant seenRaw.Valid()
      invariant categories == DistinctCategories(results[..i])
      invariant forall raw :: raw in seenRaw.members <==> Display.Category(raw) in categories
      invariant hasUncategorized <==> HasUncategorized(results[..i])
    {
      var item := results[i];
      ScanStepCategories(results, i);
      ScanStepUncategorized(results, i);
      match item.category {
        case Some(cat) =>
          if !seenRaw.Contains(cat.rawValue) {
            seenRaw.Insert(cat.rawValue);
            categories := categories + [cat];
          }
        case None =>
          hasUncategorized := true;
      }
    }
    assert results[..|results|] == results;
  }

  /** The chips `rebuildAvailableFilters` assembles from the scan: "All",
      the scanned categories sorted into chip order, and "Uncategorized"
      when the scan met a result without a category. */
  method BuildFilters(results: seq<MapItem>) returns (filters: seq<F.PoiFilter>)
    ensures filters == AvailableFilters(results)
  {
    var categories, hasUncategorized := ScanResults(results);
    categories := Sorting.SortBy(categories, CategoryBefore());
    filters := [F.All] + CategoryFilters(categories);
    if hasUncategorized {
      filters := filters + [F.Uncategorized];
    }
  }

  class LandmarkSearch {
    var queryText: string
    var searchResults: seq<MapItem>
    var searchMessage: Option<string>
    var availableFilters: seq<F.PoiFilter>
    var selectedFilter: F.PoiFilter
    var isSearching: bool
    var hasSelectedPlace: bool

    /** The chips always start with "All" and match the results shown, and
        the selected chip is one of them. */
    ghost predicate ChipsConsistent()
      reads this
    {
      availableFilters == AvailableFilters(searchResults) && selectedFilter in availableFilters
    }

    /** The screen as it first appears: no query, no results, only "All". */
    constructor()
      ensures queryText == [] && searchResults == [] && searchMessage == None
      ensures availableFilters == [F.All] && selectedFilter == F.All
      ensures !isSearching && !hasSelectedPlace
      ensures ChipsConsistent()
    {
      queryText := [];
      searchResults := [];
      searchMessage := None;
      availableFilters := [F.All];
      selectedFilter := F.All;
      isSearching := false;
      hasSelectedPlace := false;
      new;
      assert SortedCategories([]) == [];
    }

    /** `rebuildAvailableFilters`: one pass over the results collects the
        categories (first appearance wins, keyed by raw value in an ordered
        set) and notes whether any result lacks one; the categories are then
        sorted and the chips rebuilt, and a selection that is no longer
        offered falls back to "All". */
    method RebuildAvailableFilters()
      modifies this
      ensures availableFilters == AvailableFilters(searchResults)
      ensures selectedFilter == ReconciledSelection(old(selectedFilter), availableFilters)
      ensures ChipsConsistent()
      ensures queryText == old(queryText) && searchResults == old(searchResults)
      ensures searchMessage == old(searchMessage)
      ensures isSearching == old(isSearching) && hasSelectedPlace == old(hasSelectedPlace)
    {
      var filters := BuildFilters(searchResults);
      availableFilters := filters;
      if selectedFilter !in availableFilters {
        selectedFilter := F.All;
      }
    }

    /** `performSearch` once the MapKit search has answered with `response`.
        An empty query clears the results and asks for a name without
        searching; a failed search reports the failure; a successful one
        shows the best-ranked results, rebuilds the chips, selects "All" and
        says so when nothing is left. */
    method PerformSearch(response: Option<seq<MapItem>>, lowercased: string -> string)
      modifies this
      ensures !hasSelectedPlace
      ensures queryText == old(queryText)
      ensures Trim(queryText) == [] ==>
        && searchResults == [] && searchMessage == Some(EmptyQueryMessage)
        && isSearching == old(isSearching)
        && availableFilters == old(availableFilters) && selectedFilter == old(selectedFilter)
      ensures Trim(queryText) != [] && response.None? ==>
        && searchResults == [] && searchMessage == Some(SearchFailedMessage)
        && !isSearching
        && availableFilters == old(availableFilters) && selectedFilter == old(selectedFilter)
      ensures Trim(queryText) != [] && response.Some? ==>
        && searchResults == RankedResults(response.value, Trim(queryText), lowercased)
        && availableFilters == AvailableFilters(searchResults) && selectedFilter == F.All
        && ChipsConsistent()
        && !isSearching
        && searchMessage == (if searchResults == [] then Some(NoResultsMessage) else None)
    {
      hasSelectedPlace := false;
      var q := Trim(queryText);
      if q == [] {
        searchResults := [];
        searchMessage := Some(EmptyQueryMessage);
        return;
      }
      isSearching := true;
      searchMessage := None;
      searchResults := [];
      match response {
        case None =>
          searchMessage := Some(SearchFailedMessage);
        case Some(items) =>
          var topTwenty := RankedResults(items, q, lowercased);
          searchResults := topTwenty;
          RebuildAvailableFilters();
          selectedFilter := F.All;
          if topTwenty == [] {
            searchMessage := Some(NoResultsMessage);
          }
      }
      isSearching := false;
    }
  }
}
