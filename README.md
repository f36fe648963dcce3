# Point-of-interest curation in FoundationModelsCodeAlong, in Dafny

This project models the parts of the FoundationModelsCodeAlong app that pick,
order, label and de-duplicate points of interest. They are small, deterministic
operations on plain records: a map item with an optional name, an optional
place identifier, an optional MapKit category, a coordinate and a city line.
The project states what these operations promise and proves it.

- **Category metadata** (`PoiCategoryDisplay`): `touristPriority`,
  `displayName` with its prefix-stripping and camel-case fallback,
  `suggestedSpanDegrees` (in hundredths of a degree) and `symbolName`.
- **Filter chips** (`PoiFilter`, `ResultFilters`): the `POIFilter` enum, and
  the chips `rebuildAvailableFilters` derives from a result list. Also the
  results a chip shows (`filteredResults`) and the selection that survives a
  rebuild.
- **Continent lookup** (`ContinentLookup`): the dictionary the six loops
  build, and `continent(for:)` / `continentName(for:)`.
- **ASCII-safe transliteration** (`Transliteration`): the first non-empty
  path wins, and every path keeps only ASCII scalars. The ICU and Unicode
  services are parameters.
- **Dropped pins** (`MapInteraction`, `PinRegistry`):
  - equality and hashing of `DroppedPin`, `isDuplicate` and `makeDroppedPin`;
  - the screen's pin registry: `handleNewMapItem`, the delayed highlight
    reset, "Clear Pins", and a cleared selection.
- **Nearby suggestions** (`FindPointsOfInterest`): the part of
  `getSuggestions` after MapKit answers. Items are sorted by distance, then
  by name; near-duplicates are dropped; names are tagged "TG "; three are kept.
- **Free-text search** (`SearchRanking`, `SearchScreen`): the ranking in
  `performSearch`, and the state changes `performSearch` and
  `rebuildAvailableFilters` make to the screen.
- **Text helpers** (`LandmarkText`, `JsonEscape`, `OrderedSets`):
  - `standardizedName`, the short description and `formattedETA`;
  - `isSameLandmarkByPlaceID`;
  - JSON string escaping per section 7 of RFC 8259;
  - the screen's `OrderedSet`.

Shared modules:
- `TextUtil`: trimming of Unicode white space, prefix and substring tests,
  lexicographic order, filtering and subsequences, decimal rendering.
- `Sorting`: a stable insertion sort under any strict weak order. It stands
  in for Swift's `sorted(by:)`.
- `Wrappers`: `Option`.
- `MapKitTypes`: the records.

Foreign services are parameters, so every fact holds whatever they do:
- `CLLocation.distance(from:)` is a `DistanceFunction` returning a `real`;
- `lowercased()` is a `string -> string`;
- `localizedCaseInsensitiveCompare` is a collation key, and
  `caseInsensitiveCompare` is a case fold;
- the ICU transforms, canonical decomposition and `isDiacritic` are passed in
  as `UnicodeServices`;
- a MapKit search is its outcome: the returned items, or `None` when it threw.

Imperative source code stays imperative. Each of these is a method proved
equal to a specification function:
- the table-building loops;
- the de-duplication scan;
- the JSON escaping loop;
- the result scan of `rebuildAvailableFilters`.

`OrderedSet`, the search state and the pin registry are classes whose methods
update their fields.

## Model

| member | source | states |
|---|---|---|
| PoiCategoryDisplay.CuratedPriorities | FoundationModelsCodeAlong/Utilities/POICategory+Display.swift:32-51 | the i-th of the 17 curated categories has tourist priority i (0..16) |
| PoiCategoryDisplay.UncuratedPriority | FoundationModelsCodeAlong/Utilities/POICategory+Display.swift:52 | any category outside the curated list has priority 50 |
| PoiCategoryDisplay.PrioritiesRankCuratedFirst | FoundationModelsCodeAlong/Utilities/POICategory+Display.swift:32-53 | distinct curated categories have distinct priorities, and every curated category ranks strictly ahead of every other category |
| PoiCategoryDisplay.CuratedCases | FoundationModelsCodeAlong/Utilities/POICategory+Display.swift:32-51 | a curated category is one of the 17 named cases |
| PoiCategoryDisplay.LodgingAndDiningUncurated | FoundationModelsCodeAlong/Utilities/POICategory+Display.swift:32-53 | hotel and restaurant are not curated |
| PoiCategoryDisplay.CuratedDisplayNames | FoundationModelsCodeAlong/Utilities/POICategory+Display.swift:5-23 | each of the 17 curated categories gets its fixed title, from "Museum" to "Campground", with the two-word ones spelled "National Park", "Amusement Park" and "Movie Theater" |
| PoiCategoryDisplay.StripRawPrefix | FoundationModelsCodeAlong/Utilities/POICategory+Display.swift:25-27 | "MKPOICategory" is removed exactly when the raw value starts with it; otherwise the raw value is kept whole |
| PoiCategoryDisplay.SplitCamelCaseSpec | FoundationModelsCodeAlong/Utilities/POICategory+Display.swift:28-29 | the camel-case split adds one character per lower-to-upper letter pair, changes nothing but the inserted spaces, and leaves no such pair behind |
| PoiCategoryDisplay.SplitCamelCaseHead | FoundationModelsCodeAlong/Utilities/POICategory+Display.swift:28-29 | the split keeps the first character |
| PoiCategoryDisplay.WithoutSpacesAppend | FoundationModelsCodeAlong/Utilities/POICategory+Display.swift:28-29 | removing spaces distributes over concatenation (used to show the split only inserts spaces) |
| PoiCategoryDisplay.UncuratedDisplayName | FoundationModelsCodeAlong/Utilities/POICategory+Display.swift:24-30 | the fallback title of an uncategorised raw value is the stripped value with exactly one space inserted per camel-case boundary, and nothing else changed |
| PoiCategoryDisplay.SpanBounds | FoundationModelsCodeAlong/Utilities/POICategory+Display.swift:54-76 | every span lies in [0.03, 0.50]; nationalPark alone has the maximum 0.50; the default is 0.08 |
| PoiCategoryDisplay.SymbolNameFacts | FoundationModelsCodeAlong/Utilities/POICategory+Display.swift:77-124 | non-curated categories show "mappin"; winery and brewery share "wineglass"; only nationalPark and beach depend on the OS-availability flag |
| PoiFilter.IdInjective | FoundationModelsCodeAlong/Utilities/POIFilter.swift:4-15 | for MapKit raw values, two chips have the same id exactly when they are the same chip |
| PoiFilter.SymbolNameFacts | FoundationModelsCodeAlong/Utilities/POIFilter.swift:25-34 | only "All" shows "square.grid.2x2"; a non-curated category chip shows the same symbol as "Uncategorized" |
| PoiFilter.TitlesOfFixedChips | FoundationModelsCodeAlong/Utilities/POIFilter.swift:17-23 | a curated category chip's title differs from "All" and "Uncategorized" |
| ContinentLookup.AssignAll | FoundationModelsCodeAlong/Utilities/ContinentLookup.swift:42 | one loop makes every listed code a key mapped to its continent and leaves every other key as it was |
| ContinentLookup.BuildTable | FoundationModelsCodeAlong/Utilities/ContinentLookup.swift:26-73 | the six loops build a dictionary whose keys are exactly the listed codes, each mapped to the continent whose list holds it |
| ContinentLookup.AsciiUppercased | FoundationModelsCodeAlong/Utilities/ContinentLookup.swift:15-16 | upper-casing keeps the length and maps exactly the letters a-z to A-Z |
| ContinentLookup.ContinentNameFor | FoundationModelsCodeAlong/Utilities/ContinentLookup.swift:20-22 | no region gives no name; a name exists exactly when a continent is found, and it is that continent's raw value |
| ContinentLookup.CodesAgreeWithLetterTable | FoundationModelsCodeAlong/Utilities/ContinentLookup.swift:29-70 | every code in a continent's list is placed on that continent by the per-letter reference table |
| ContinentLookup.LetterTableCodesListed | FoundationModelsCodeAlong/Utilities/ContinentLookup.swift:29-70 | every code the reference table places is in that continent's list |
| ContinentLookup.ContinentListsDisjoint | FoundationModelsCodeAlong/Utilities/ContinentLookup.swift:29-70 | no code is in two lists, so the loop order cannot matter |
| ContinentLookup.ListedContinentIsLetterTable | FoundationModelsCodeAlong/Utilities/ContinentLookup.swift:26-73 | the dictionary agrees with the reference table on every string |
| ContinentLookup.ListedCodesAreTwoUpperLetters | FoundationModelsCodeAlong/Utilities/ContinentLookup.swift:26-73 | every key is two upper-case ASCII letters |
| ContinentLookup.AsciiUppercasedIdempotent | FoundationModelsCodeAlong/Utilities/ContinentLookup.swift:15-16 | upper-casing twice is upper-casing once |
| ContinentLookup.ContinentForIgnoresCase | FoundationModelsCodeAlong/Utilities/ContinentLookup.swift:14-17 | an identifier and its upper-cased form find the same continent ("fr" as "FR") |
| ContinentLookup.ContinentForNeedsTwoCharacters | FoundationModelsCodeAlong/Utilities/ContinentLookup.swift:14-17 | under the model's ASCII upper-casing, an identifier that is not two characters long, such as "US-CA", finds nothing |
| ContinentLookup.ContinentForByLetterTable | FoundationModelsCodeAlong/Utilities/ContinentLookup.swift:14-22 | an identifier whose upper-cased form the reference table places is found there, under that continent's name |
| ContinentLookup.ContinentNameForListed | FoundationModelsCodeAlong/Utilities/ContinentLookup.swift:20-70 | every listed code is found on its own continent, under that continent's raw value ("US" America, "AQ" Antarctica, "TR" Asia, "RU" Europe, "EG" Africa, "NZ" Oceania) |
| ContinentLookup.ContinentForLowerCaseExample | FoundationModelsCodeAlong/Utilities/ContinentLookup.swift:14-17 | "us" is found in America |
| ContinentLookup.ContinentNameForExample | FoundationModelsCodeAlong/Utilities/ContinentLookup.swift:20-22 | "nz" gives "Oceania" |
| ContinentLookup.ContinentNameForSubdivisionExample | FoundationModelsCodeAlong/Utilities/ContinentLookup.swift:20-22 | "US-CA" gives no name |
| Transliteration.TransliteratedLatinSafe | FoundationModelsCodeAlong/Utilities/Strings+Transliteration.swift:9-27 | the result holds only ASCII scalars, on both paths |
| Transliteration.FirstNonEmptyPathWins | FoundationModelsCodeAlong/Utilities/Strings+Transliteration.swift:17-26 | a non-empty ICU result is returned as is; otherwise the fallback's result is; the output is empty exactly when both are |
| Transliteration.TransliterationIsSubsequence | FoundationModelsCodeAlong/Utilities/Strings+Transliteration.swift:16-25 | each path's output is an order-preserving subsequence of its intermediate string, and the fallback's output holds no diacritic |
| Transliteration.TransliterationEmptyIff | FoundationModelsCodeAlong/Utilities/Strings+Transliteration.swift:16-26 | the output is empty exactly when both intermediate strings hold no ASCII scalar |
| Transliteration.AsciiTextUnchanged | FoundationModelsCodeAlong/Utilities/Strings+Transliteration.swift:11-21 | non-empty ASCII text that the ICU transforms leave alone comes back unchanged |
| MapInteraction.SamePinCases | FoundationModelsCodeAlong/Utilities/MapInteractionModel.swift:6-13 | two pins with place ids are equal exactly when the ids match; otherwise exactly when the UUIDs match |
| MapInteraction.HashAgreesWithEquality | FoundationModelsCodeAlong/Utilities/MapInteractionModel.swift:6-21 | equal pins feed the hasher the same value, given that a UUID determines the pin's place id |
| MapInteraction.SamePinIsEquivalence | FoundationModelsCodeAlong/Utilities/MapInteractionModel.swift:6-13 | pin equality is reflexive, symmetric and transitive, under the same condition |
| MapInteraction.IsDuplicate | FoundationModelsCodeAlong/Utilities/MapInteractionModel.swift:37-68 | a new pin with a place id is a duplicate exactly when some existing pin has that place id; one without is a duplicate exactly when some existing pin is at most 20 m away; an empty list never has a duplicate |
| MapInteraction.DuplicateByPlaceIDIsEquality | FoundationModelsCodeAlong/Utilities/MapInteractionModel.swift:6-68 | for a pin with a place id, a duplicate is an existing pin with a place id that is equal to it |
| MapInteraction.IsDuplicateAppend | FoundationModelsCodeAlong/Utilities/MapInteractionModel.swift:62-68 | duplicate against a longer list is duplicate against the old list or the new pin |
| MapInteraction.MakeDroppedPin | FoundationModelsCodeAlong/Utilities/MapInteractionModel.swift:46-60 | the pin takes the item's coordinate, identifier and category; its name is the item's or "Selected Place"; its short address is the trimmed city line when there is one |
| PinRegistry.DedupedPinsMeaning | FoundationModelsCodeAlong/Views/LandmarkInfoView.swift:326-331 | the registry's pairwise invariant says exactly that no pin was a duplicate of the pins before it |
| PinRegistry.RegisterPinKeepsInvariants | FoundationModelsCodeAlong/Views/LandmarkInfoView.swift:326-332 | appending a fresh non-duplicate pin keeps the list de-duplicated with distinct UUIDs |
| PinRegistry.DedupedPinsFacts | FoundationModelsCodeAlong/Views/LandmarkInfoView.swift:326-332 | in the registry, a later pin with a place id never shares it with an earlier pin; a later pin without one lies more than 20 m from every earlier pin |
| PinRegistry.RegisteredPinsPairwiseUnequal | FoundationModelsCodeAlong/Views/LandmarkInfoView.swift:326-332 | no two pins in the registry are equal under the pin equality |
| PinRegistry.LastIndexWhere | FoundationModelsCodeAlong/Views/LandmarkInfoView.swift:307-309 | the index of the last pin from a source, absent exactly when no pin is from it |
| PinRegistry.Registry.constructor | FoundationModelsCodeAlong/Views/LandmarkInfoView.swift:292-311 | the screen starts with no pins, no highlight, no route |
| PinRegistry.Registry.LastSystemFeaturePin | FoundationModelsCodeAlong/Views/LandmarkInfoView.swift:307-309 | the last system-feature pin, absent exactly when there is none |
| PinRegistry.Registry.HandleNewMapItem | FoundationModelsCodeAlong/Views/LandmarkInfoView.swift:326-341 | the selected coordinate always moves; a duplicate leaves pins, highlights and route untouched; otherwise the pin is appended, both highlights become its id, the route, ETA and distance are cleared, and a reset timer carrying the id is scheduled |
| PinRegistry.Registry.DropPin | FoundationModelsCodeAlong/Views/LandmarkInfoView.swift:330-339 | the accepted-pin branch: append, highlight, clear the route, schedule the reset |
| PinRegistry.Registry.ResetTimerFired | FoundationModelsCodeAlong/Views/LandmarkInfoView.swift:314-324 | the delayed reset clears the scaled highlight only when it still holds the id captured at scheduling; nothing else changes |
| PinRegistry.NewerPinSurvivesOlderTimer | FoundationModelsCodeAlong/Views/LandmarkInfoView.swift:314-341 | after a new pin is accepted, an earlier timer firing leaves the new pin highlighted |
| PinRegistry.Registry.ClearPins | FoundationModelsCodeAlong/Views/LandmarkInfoView.swift:481-488 | pins, selection and route are cleared; the highlight ids are kept |
| PinRegistry.Registry.SelectionCleared | FoundationModelsCodeAlong/Views/LandmarkInfoView.swift:399-413 | deselecting clears the selected coordinate and nothing else |
| FindPointsOfInterest.PoiCategory | FoundationModelsCodeAlong/ViewModels/FindPointsOfInterestTool.swift:113-121 | hotel maps to MapKit's hotel category and restaurant to its restaurant category |
| FindPointsOfInterest.PoiCategoryFacts | FoundationModelsCodeAlong/ViewModels/FindPointsOfInterestTool.swift:113-121 | the two kinds map to different categories, neither curated, both at priority 50 with the plain pin symbol |
| FindPointsOfInterest.NearerFirstIsStrictWeakOrder | FoundationModelsCodeAlong/ViewModels/FindPointsOfInterestTool.swift:70-81 | the distance-then-name comparator is a strict weak order |
| FindPointsOfInterest.SortedByDistanceOrder | FoundationModelsCodeAlong/ViewModels/FindPointsOfInterestTool.swift:69-82 | the sorted items are a permutation of the response, by non-decreasing distance, ties by ascending collated name |
| FindPointsOfInterest.Dedup | FoundationModelsCodeAlong/ViewModels/FindPointsOfInterestTool.swift:84-99 | the scan with its growing `seen` list returns the specified de-duplication |
| FindPointsOfInterest.DedupedStep | FoundationModelsCodeAlong/ViewModels/FindPointsOfInterestTool.swift:85-99 | an item is kept exactly when no kept item has the same folded trimmed name and lies under 75 m away |
| FindPointsOfInterest.DedupedIsSubsequence | FoundationModelsCodeAlong/ViewModels/FindPointsOfInterestTool.swift:85-99 | survivors keep their sorted relative order |
| FindPointsOfInterest.DedupedNoRepeats | FoundationModelsCodeAlong/ViewModels/FindPointsOfInterestTool.swift:86-98 | every survivor has a name, and no survivor is a near-duplicate of an earlier survivor |
| FindPointsOfInterest.DedupedPrefix | FoundationModelsCodeAlong/ViewModels/FindPointsOfInterestTool.swift:85-99 | de-duplicating a prefix of the items gives a prefix of the de-duplicated items |
| FindPointsOfInterest.DedupedCoversNamed | FoundationModelsCodeAlong/ViewModels/FindPointsOfInterestTool.swift:85-99 | the named item at any position is kept, or is a near-duplicate of an item already kept before that position was reached |
| FindPointsOfInterest.SuggestionName | FoundationModelsCodeAlong/ViewModels/FindPointsOfInterestTool.swift:102-107 | an item yields a name exactly when its trimmed name is non-empty, and the name starts with "TG " |
| FindPointsOfInterest.SuggestionNameTail | FoundationModelsCodeAlong/ViewModels/FindPointsOfInterestTool.swift:103-106 | after "TG " comes the transliteration, ASCII only, or the trimmed name when the transliteration is empty |
| TextUtil.CompactMapInOrder | FoundationModelsCodeAlong/ViewModels/FindPointsOfInterestTool.swift:102-107 | a compact-map keeps one result per item the mapping accepts, in order |
| FindPointsOfInterest.SuggestionNames | FoundationModelsCodeAlong/ViewModels/FindPointsOfInterestTool.swift:102-107 | one name per item with a non-blank name, in the order of the items, each that item's suggestion name (its trimmed name, transliterated when that leaves something, tagged "TG ") |
| FindPointsOfInterest.Suggestions | FoundationModelsCodeAlong/ViewModels/FindPointsOfInterestTool.swift:69-108 | exactly min(3, number of names) tagged names, the first ones of the names of the sorted, de-duplicated items in order |
| FindPointsOfInterest.GetSuggestions | FoundationModelsCodeAlong/ViewModels/FindPointsOfInterestTool.swift:69-108 | the pipeline, with its imperative de-duplication, returns the specified suggestions |
| SearchRanking.CategorizedRankFirst | FoundationModelsCodeAlong/Views/LandmarkInfoView.swift:735-736 | a result with a category always has a smaller first key than one without (100) |
| SearchRanking.NameMatchScore | FoundationModelsCodeAlong/Views/LandmarkInfoView.swift:725-732 | score 0 exactly for the same lower-cased name, at most 1 exactly for a prefix, at most 2 exactly for a substring, else 3 |
| SearchRanking.RankedBeforeIsStrictWeakOrder | FoundationModelsCodeAlong/Views/LandmarkInfoView.swift:734-744 | the three-key comparator is a strict weak order |
| TextUtil.TakeSubMultiset | FoundationModelsCodeAlong/Views/LandmarkInfoView.swift:746 | a prefix holds no element more often than the whole sequence |
| SearchRanking.RankedResults | FoundationModelsCodeAlong/Views/LandmarkInfoView.swift:719-746 | exactly min(20, number of identified items) results, drawn without repetition beyond the response's own (a sub-multiset of the identified items), each with a place identifier |
| SearchRanking.RankedResultsOrder | FoundationModelsCodeAlong/Views/LandmarkInfoView.swift:734-746 | results are ordered by priority, then match score, then name |
| SearchRanking.RankedResultsKeepBest | FoundationModelsCodeAlong/Views/LandmarkInfoView.swift:734-746 | no candidate that was cut ranks ahead of any shown result |
| SearchRanking.RankedResultsComplete | FoundationModelsCodeAlong/Views/LandmarkInfoView.swift:719-746 | with at most twenty candidates, every identified item is shown, as often as returned |
| SearchScreen.ScanResults | FoundationModelsCodeAlong/Views/LandmarkInfoView.swift:855-868 | the scan through the ordered set returns the distinct categories in order of first appearance, and whether some result has none |
| SearchScreen.BuildFilters | FoundationModelsCodeAlong/Views/LandmarkInfoView.swift:853-879 | the scan, sort and assembly produce the specified chip list |
| SearchScreen.LandmarkSearch.constructor | FoundationModelsCodeAlong/Views/LandmarkInfoView.swift:622-645 | the screen starts with only "All", selected, consistent with its empty results |
| SearchScreen.LandmarkSearch.RebuildAvailableFilters | FoundationModelsCodeAlong/Views/LandmarkInfoView.swift:853-885 | the chips match the results, and the selection is kept if still offered, else "All"; nothing else changes |
| SearchScreen.LandmarkSearch.PerformSearch | FoundationModelsCodeAlong/Views/LandmarkInfoView.swift:698-757 | a blank query clears results and asks for a name; a failed search reports failure; a successful one shows the ranked results, rebuilds the chips, selects "All" and says so when nothing is left |
| ResultFilters.DistinctCategoriesFacts | FoundationModelsCodeAlong/Views/LandmarkInfoView.swift:855-868 | the collected categories are pairwise distinct and are exactly those some result carries |
| ResultFilters.ScanStepCategories | FoundationModelsCodeAlong/Views/LandmarkInfoView.swift:859-864 | one scan step appends a category only when it is new |
| ResultFilters.ScanStepUncategorized | FoundationModelsCodeAlong/Views/LandmarkInfoView.swift:865-867 | one scan step sets the flag exactly for a result without a category |
| ResultFilters.CategoryBeforeIsStrictWeakOrder | FoundationModelsCodeAlong/Views/LandmarkInfoView.swift:870-875 | the (priority, display name) comparator is a strict weak order |
| ResultFilters.CategoryBeforeMeaning | FoundationModelsCodeAlong/Views/LandmarkInfoView.swift:870-875 | b does not sort before a exactly when a has smaller priority, or equal priority and a name not after b's |
| ResultFilters.CategoryFilters | FoundationModelsCodeAlong/Views/LandmarkInfoView.swift:877 | one category chip per category, in the same order |
| ResultFilters.SortedCategories | FoundationModelsCodeAlong/Views/LandmarkInfoView.swift:870-875 | sorting permutes the collected categories |
| ResultFilters.SortedCategoriesMembers | FoundationModelsCodeAlong/Views/LandmarkInfoView.swift:855-875 | the sorted categories are distinct and exactly those present in the results |
| ResultFilters.SortedCategoriesOrdered | FoundationModelsCodeAlong/Views/LandmarkInfoView.swift:870-875 | the sorted categories are in comparator order |
| ResultFilters.ChipList | FoundationModelsCodeAlong/Views/LandmarkInfoView.swift:876-878 | "All" first, one chip per category in order, "Uncategorized" last when flagged |
| ResultFilters.ChipListMembership | FoundationModelsCodeAlong/Views/LandmarkInfoView.swift:876-878 | a chip is in the list exactly when it is "All", one of the categories, or the flagged "Uncategorized" |
| ResultFilters.AvailableFiltersMembership | FoundationModelsCodeAlong/Views/LandmarkInfoView.swift:853-879 | a chip is offered exactly when it is "All", a category some result carries, or "Uncategorized" when some result has none |
| ResultFilters.AvailableFiltersOrder | FoundationModelsCodeAlong/Views/LandmarkInfoView.swift:870-879 | "All" comes first, "Uncategorized" (if offered) last, category chips in between by priority then display name |
| ResultFilters.AvailableFiltersDistinct | FoundationModelsCodeAlong/Views/LandmarkInfoView.swift:855-879 | no chip is offered twice |
| TextUtil.FilterMultiset | FoundationModelsCodeAlong/Views/LandmarkInfoView.swift:892-894 | `filter` keeps each selected element exactly as often as it occurs, and no other element |
| ResultFilters.FilterByChip | FoundationModelsCodeAlong/Views/LandmarkInfoView.swift:892-894 | filtering by a closure that agrees with a chip keeps order and keeps each result the chip shows as often as it occurs |
| ResultFilters.FilterResults | FoundationModelsCodeAlong/Views/LandmarkInfoView.swift:887-896 | "All" shows every result; any chip shows an order-preserving subsequence holding each result it matches exactly as often as the results do, and nothing else |
| ResultFilters.ChipsPartitionResults | FoundationModelsCodeAlong/Views/LandmarkInfoView.swift:853-896 | every result's own chip is offered and shows it, and no other chip except "All" does |
| ResultFilters.ReconciledSelection | FoundationModelsCodeAlong/Views/LandmarkInfoView.swift:881-884 | the selection is always offered: it is kept whenever it still is, and falls back to "All" when it is no longer offered |
| OrderedSets.OrderedSet.constructor | FoundationModelsCodeAlong/Views/LandmarkInfoView.swift:597-599 | an ordered set starts empty |
| OrderedSets.OrderedSet.IsEmpty | FoundationModelsCodeAlong/Views/LandmarkInfoView.swift:600 | empty exactly when no element was inserted |
| OrderedSets.OrderedSet.Contains | FoundationModelsCodeAlong/Views/LandmarkInfoView.swift:606 | membership in the set agrees with the ordered elements |
| OrderedSets.OrderedSet.Insert | FoundationModelsCodeAlong/Views/LandmarkInfoView.swift:601-605 | a new element is appended once; a present one changes nothing |
| JsonEscape.HexDigit | FoundationModelsCodeAlong/Views/LandmarkInfoView.swift:67 | a digit below 16 renders as 0-9 or upper-case A-F |
| JsonEscape.Hex | FoundationModelsCodeAlong/Views/LandmarkInfoView.swift:67 | hexadecimal rendering has one digit below 16 and two below 256 |
| JsonEscape.Zeros | FoundationModelsCodeAlong/Views/LandmarkInfoView.swift:68 | the left padding is n zeros |
| JsonEscape.EscapedAppend | FoundationModelsCodeAlong/Views/LandmarkInfoView.swift:54-74 | escaping is per scalar: it distributes over concatenation |
| JsonEscape.EscapeJsonString | FoundationModelsCodeAlong/Views/LandmarkInfoView.swift:54-74 | the loop returns the scalar-by-scalar escaping |
| JsonEscape.EscapedControl | FoundationModelsCodeAlong/Views/LandmarkInfoView.swift:66-68 | a control scalar without a short form becomes "\u00" and two upper-case hex digits |
| JsonEscape.EscapedHasNoControlCharacters | FoundationModelsCodeAlong/Views/LandmarkInfoView.swift:54-74 | the escaped text has no raw scalar below 0x20, as section 7 of RFC 8259 requires |
| JsonEscape.HexDigitValue | FoundationModelsCodeAlong/Views/LandmarkInfoView.swift:67 | a hex digit's value is below 16 |
| JsonEscape.HexDigitRoundTrip | FoundationModelsCodeAlong/Views/LandmarkInfoView.swift:67 | reading back a rendered digit gives the digit |
| JsonEscape.UnescapeShortForm | FoundationModelsCodeAlong/Views/LandmarkInfoView.swift:59-65 | the two-character escapes read back as their scalar |
| JsonEscape.UnescapeControl | FoundationModelsCodeAlong/Views/LandmarkInfoView.swift:66-68 | the \u00XX escapes read back as their scalar |
| JsonEscape.UnescapeScalar | FoundationModelsCodeAlong/Views/LandmarkInfoView.swift:57-71 | every scalar's escape reads back as that scalar |
| JsonEscape.UnescapeEscaped | FoundationModelsCodeAlong/Views/LandmarkInfoView.swift:54-74 | decoding the escaped text as an RFC 8259 string body returns the input |
| LandmarkText.CountryCode | FoundationModelsCodeAlong/Views/LandmarkInfoView.swift:823-832 | absent for no region or a blank identifier; otherwise the trimmed identifier up to its first '-' |
| LandmarkText.StandardizedName | FoundationModelsCodeAlong/Views/LandmarkInfoView.swift:819-838 | "" for a blank base; "base, CC" when the country code is non-empty; the trimmed base otherwise |
| LandmarkText.CountryCodeSubdivisionExample | FoundationModelsCodeAlong/Views/LandmarkInfoView.swift:823-832 | "US-CA" gives "US" |
| LandmarkText.StandardizedNameSubdivisionExample | FoundationModelsCodeAlong/Views/LandmarkInfoView.swift:819-838 | "Golden Gate Bridge" in "US-CA" gives "Golden Gate Bridge, US" |
| LandmarkText.StandardizedNameEmptyCodeExample | FoundationModelsCodeAlong/Views/LandmarkInfoView.swift:819-838 | an identifier starting with '-' leaves the name bare |
| LandmarkText.ShortDescription | FoundationModelsCodeAlong/Views/LandmarkInfoView.swift:908-915 | without a '.', the trimmed text; with one, a prefix of it ending at its first '.' |
| LandmarkText.ShortDescriptionIdempotent | FoundationModelsCodeAlong/Views/LandmarkInfoView.swift:908-915 | taking the first sentence twice is taking it once |
| LandmarkText.TruncRem | FoundationModelsCodeAlong/Views/LandmarkInfoView.swift:541-550 | Swift's remainder: it truncates toward zero, and its sign follows the dividend |
| LandmarkText.EtaParts | FoundationModelsCodeAlong/Views/LandmarkInfoView.swift:541-550 | for a non-negative duration, the hours and the minutes below 60 that bracket it to the minute |
| LandmarkText.FormattedEta | FoundationModelsCodeAlong/Views/LandmarkInfoView.swift:541-550 | "ETA h hr m min" from an hour on, "ETA m min" below it, in whole hours and minutes |
| LandmarkText.IsSameLandmarkByPlaceID | FoundationModelsCodeAlong/Views/LandmarkInfoView.swift:944-947 | true exactly when both place ids are present, non-empty and equal |
| LandmarkText.IsSameLandmarkByPlaceIDFacts | FoundationModelsCodeAlong/Views/LandmarkInfoView.swift:944-947 | the comparison is symmetric, and a landmark without a usable id matches nothing, itself included |

## Left out

- MapKit search and network calls (`MKLocalSearch`, `MKLocalSearchCompleter`, `MKMapItemRequest`, `MKDirections`). Their results are inputs: a sequence of map items, or `None` for a search that threw. The `pointOfInterestFilter` of a request is not modelled: MapKit applies it.
- `CLLocation.distance(from:)`: a parameter returning a `real`. Only comparisons against 20 m and 75 m matter.
- ICU transforms, canonical decomposition, `isDiacritic`, `lowercased()`, `caseInsensitiveCompare` and `localizedCaseInsensitiveCompare`: parameters (a function, a case fold, a collation key).
- Strings are sequences of Unicode scalars. Trimming with `trimmingCharacters(in:)` works on scalars as the model does; Swift's `<` and `==` compare strings up to canonical equivalence, while the model compares scalar sequences.
- Sorting.SortBy: Swift's `sorted(by:)` is not stable. The model fixes one order for equivalent elements: a stable insertion sort.
- ContinentLookup.AsciiUppercased: upper-cases ASCII letters only. Swift's `uppercased()` applies the full Unicode case mappings, so in the source "ß" becomes "SS" (South Sudan), "ﬁ" becomes "FI" (Finland) and "ﬆ" becomes "ST" (São Tomé and Príncipe); the model covers ASCII region identifiers, which is what region identifiers are in practice.
- ContinentForNeedsTwoCharacters: holds under the ASCII upper-casing only; in the source a one-scalar identifier whose upper-case mapping has two letters ("ß", "ﬁ") does find a continent.
- LandmarkText.FormattedEta: takes whole seconds, not a floating-point `TimeInterval`.
- PoiCategoryDisplay.SpanHundredths: gives the span in hundredths of a degree, not as a `Double`. Every table value is an exact hundredth.
- JsonEscape.UnescapeEscaped: the decoder is the inverse of this escaper. It does not read surrogate-pair escapes, which the escaper never writes.
- MapInteraction.HashAgreesWithEquality and MapInteraction.SamePinIsEquivalence: need the fact that one UUID belongs to one pin, so the same UUID carries the same place id. With arbitrary records, equality mixing the two cases is not transitive.
- UUIDs are natural numbers handed in by the caller, and a ghost set records those already issued.
- Async timing is left out (`Task.sleep`, `@MainActor`, animations). The delayed highlight reset is an explicit `ResetTimerFired` event carrying the captured id.
- `DroppedPin.address` (`MKAddressRepresentations`) is left out; `shortAddress` is the trimmed city line.
- `descriptionGenerator`, `isGeneratingDescription`, FoundationModels sessions, prompts, prewarming and itinerary generation are left out. The short description takes the generated text as input.
- SwiftUI views, `formattedDistance`, the floating-point formatting in `currentJSON` and `JSONDecoder` are left out.
- The `call()` of the tool is reduced to its result list. The string it formats around that list is not modelled.
