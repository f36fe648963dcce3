/**
 * The filter chips of the landmark list: everything, one category, or the
 * results that carry no category. Each filter has an identifier, a title and
 * an SF Symbol name.
 */
module PoiFilter {
  import opened TextUtil
  import Display = PoiCategoryDisplay

  datatype PoiFilter = All | CategoryFilter(category: Display.Category) | Uncategorized

  /** The stable identifier: a category filter uses the category's raw value. */
  function Id(f: PoiFilter): string
  {
    match f
    case All => "all"
    case Uncategorized => "uncategorized"
    case CategoryFilter(c) => c.rawValue
  }

  /** The chip title: a category filter shows the category's display name. */
  function Title(f: PoiFilter): string
  {
    match f
    case All => "All"
    case Uncategorized => "Uncategorized"
    case CategoryFilter(c) => Display.DisplayName(c)
  }

  /** The chip symbol: a category filter shows the category's symbol. */
  function SymbolName(f: PoiFilter, modernSymbols: bool): string
  {
    match f
    case All => "square.grid.2x2"
    case Uncategorized => "mappin"
    case CategoryFilter(c) => Display.SymbolName(c, modernSymbols)
  }

  /** A filter over a category whose raw value has MapKit's prefix. */
  predicate HasMapKitRawValue(f: PoiFilter)
  {
    f.CategoryFilter? ==> HasPrefix(f.category.rawValue, Display.RawPrefix)
  }

  /** Identifiers tell filters apart as long as category raw values carry
      MapKit's prefix, which neither "all" nor "uncategorized" does. */
  lemma IdInjective(f: PoiFilter, g: PoiFilter)
    requires HasMapKitRawValue(f) && HasMapKitRawValue(g)
    ensures Id(f) == Id(g) <==> f == g
  {
    if f.CategoryFilter? {
      assert Id(f)[0] == 'M';
    }
    if g.CategoryFilter? {
      assert Id(g)[0] == 'M';
    }
  }

  /** Only the "All" chip uses the grid symbol; the "Uncategorized" chip
      shares the plain pin with every category outside the curated list. */
  lemma SymbolNameFacts(f: PoiFilter, modernSymbols: bool)
    ensures SymbolName(f, modernSymbols) == "square.grid.2x2" <==> f == All
    ensures f.CategoryFilter? && f.category !in Display.Curated ==>
              SymbolName(f, modernSymbols) == SymbolName(Uncategorized, modernSymbols)
  {
    if f.CategoryFilter? {
      var c := f.category;
      if c !in Display.Curated {
        Display.SymbolNameFacts(c, modernSymbols);
      } else {
        Display.CuratedCases(c);
      }
    }
  }

  /** The title of a curated category's chip is never the title of the two
      fixed chips. */
  lemma TitlesOfFixedChips(f: PoiFilter)
    requires f.CategoryFilter? && f.category in Display.Curated
    ensures Title(f) != Title(All) && Title(f) != Title(Uncategorized)
  {
    Display.CuratedCases(f.category);
  }
}
