/**
 * Maps an ISO 3166-1 alpha-2 region code to one of six continent buckets.
 * The table is built once, by six loops that write every code of a list
 * into a dictionary; the lookups uppercase the region identifier and read
 * the dictionary.
 *
 * Each source list is written here as the concatenation of shorter lists in
 * the same order (the America list along the groups its comments name, the
 * other lists at first-letter boundaries), so that the verifier can reason
 * about membership in each part.
 */
module ContinentLookup {
  import opened Wrappers

  datatype Continent = Africa | Antarctica | Asia | Europe | America | Oceania

  /** The continent's name, its raw value in the source enum. */
  function RawValue(c: Continent): string
  {
    match c
    case Africa => "Africa"
    case Antarctica => "Antarctica"
    case Asia => "Asia"
    case Europe => "Europe"
    case America => "America"
    case Oceania => "Oceania"
  }

  /** North America core */
  const NorthAmericaCoreCodes: seq<string> := [
    "US", "CA", "MX"
  ]

  /** Central America */
  const CentralAmericaCodes: seq<string> := [
    "BZ", "GT", "SV", "HN", "NI", "CR", "PA"
  ]

  /** Caribbean (including territories), first part */
  const CaribbeanCodesPart1: seq<string> := [
    "AG", "AI", "AW", "BB", "BL", "BQ", "BS", "CU", "CW", "DM", "DO"
  ]

  /** Caribbean, second part */
  const CaribbeanCodesPart2: seq<string> := [
    "GD", "GP", "HT", "JM", "KN", "KY", "LC", "MF", "MQ", "MS"
  ]

  /** Caribbean, third part */
  const CaribbeanCodesPart3: seq<string> := [
    "SX", "TC", "TT", "VC", "VG", "VI", "PR", "BM"
  ]

  /** North Atlantic territories associated with America */
  const NorthAtlanticCodes: seq<string> := [
    "GL", "PM"
  ]

  /** South America */
  const SouthAmericaCodes: seq<string> := [
    "AR", "BO", "BR", "CL", "CO", "EC", "FK", "GF", "GY", "PE", "PY", "SR", "UY", "VE"
  ]

  const AmericaCodes: seq<string> :=
    NorthAmericaCoreCodes + CentralAmericaCodes + CaribbeanCodesPart1 + CaribbeanCodesPart2 + CaribbeanCodesPart3 + NorthAtlanticCodes + SouthAmericaCodes

  const AntarcticaCodes: seq<string> := [
    "AQ", "BV", "GS", "HM", "TF"
  ]

  const EuropeCodesAToB: seq<string> := [
    "AD", "AL", "AT", "AX", "BA", "BE", "BG", "BY"
  ]

  const EuropeCodesCToE: seq<string> := [
    "CH", "CY", "CZ", "DE", "DK", "EE", "ES"
  ]

  const EuropeCodesFToG: seq<string> := [
    "FI", "FO", "FR", "GB", "GG", "GI", "GR"
  ]

  const EuropeCodesHToJ: seq<string> := [
    "HR", "HU", "IE", "IM", "IS", "IT", "JE"
  ]

  const EuropeCodesLToM: seq<string> := [
    "LI", "LT", "LU", "LV", "MC", "MD", "ME", "MK", "MT"
  ]

  const EuropeCodesNToR: seq<string> := [
    "NL", "NO", "PL", "PT", "RO", "RS", "RU"
  ]

  const EuropeCodesSToV: seq<string> := [
    "SE", "SI", "SJ", "SK", "SM", "UA", "VA"
  ]

  const EuropeCodes: seq<string> :=
    EuropeCodesAToB + EuropeCodesCToE + EuropeCodesFToG + EuropeCodesHToJ + EuropeCodesLToM + EuropeCodesNToR + EuropeCodesSToV

  const AsiaCodesAToB: seq<string> := [
    "AE", "AF", "AM", "AZ", "BD", "BH", "BN", "BT"
  ]

  const AsiaCodesCToI: seq<string> := [
    "CN", "GE", "HK", "ID", "IL", "IN", "IQ", "IR"
  ]

  const AsiaCodesJToK: seq<string> := [
    "JO", "JP", "KG", "KH", "KP", "KR", "KW", "KZ"
  ]

  const AsiaCodesLToM: seq<string> := [
    "LA", "LB", "LK", "MM", "MN", "MO", "MV", "MY"
  ]

  const AsiaCodesNToS: seq<string> := [
    "NP", "OM", "PH", "PK", "PS", "QA", "SA", "SG", "SY"
  ]

  const AsiaCodesTToU: seq<string> := [
    "TH", "TJ", "TL", "TM", "TR", "TW", "UZ"
  ]

  const AsiaCodesVToY: seq<string> := [
    "VN", "YE"
  ]

  const AsiaCodes: seq<string> :=
    AsiaCodesAToB + AsiaCodesCToI + AsiaCodesJToK + AsiaCodesLToM + AsiaCodesNToS + AsiaCodesTToU + AsiaCodesVToY

  const AfricaCodesAToC: seq<string> := [
    "AO", "BF", "BI", "BJ", "BW", "CD", "CF", "CG", "CI", "CM"
  ]

  const AfricaCodesCToE: seq<string> := [
    "CV", "DJ", "DZ", "EG", "EH", "ER", "ET"
  ]

  const AfricaCodesGToK: seq<string> := [
    "GA", "GH", "GM", "GN", "GQ", "GW", "KE", "KM"
  ]

  const AfricaCodesLToM: seq<string> := [
    "LR", "LS", "LY", "MA", "MG", "ML", "MR", "MU", "MW", "MZ"
  ]

  const AfricaCodesNToS: seq<string> := [
    "NA", "NE", "NG", "RE", "RW", "SC", "SD", "SH", "SL", "SN"
  ]

  const AfricaCodesSToT: seq<string> := [
    "SO", "SS", "ST", "SZ", "TD", "TG", "TN", "TZ"
  ]

  const AfricaCodesUToZ: seq<string> := [
    "UG", "YT", "ZA", "ZM", "ZW"
  ]

  const AfricaCodes: seq<string> :=
    AfricaCodesAToC + AfricaCodesCToE + AfricaCodesGToK + AfricaCodesLToM + AfricaCodesNToS + AfricaCodesSToT + AfricaCodesUToZ

  const OceaniaCodesAToK: seq<string> := [
    "AS", "AU", "CK", "FJ", "FM", "GU", "KI"
  ]

  const OceaniaCodesMToN: seq<string> := [
    "MH", "MP", "NC", "NF", "NR", "NU", "NZ"
  ]

  const OceaniaCodesPToT: seq<string> := [
    "PF", "PG", "PN", "PW", "SB", "TK", "TO", "TV"
  ]

  const OceaniaCodesUToW: seq<string> := [
    "UM", "VU", "WF", "WS"
  ]

  const OceaniaCodes: seq<string> :=
    OceaniaCodesAToK + OceaniaCodesMToN + OceaniaCodesPToT + OceaniaCodesUToW

  /** The code list written for each continent. */
  function ContinentCodes(c: Continent): seq<string>
  {
    match c
    case America => AmericaCodes
    case Antarctica => AntarcticaCodes
    case Europe => EuropeCodes
    case Asia => AsiaCodes
    case Africa => AfricaCodes
    case Oceania => OceaniaCodes
  }

  /** The dictionary the six loops leave behind: a code written by a later
      loop overrides an earlier one, so the lists are consulted from the last
      loop (Oceania) back to the first (America). */
  function ListedContinent(code: string): Option<Continent>
  {
    if code in OceaniaCodes then Some(Oceania)
    else if code in AfricaCodes then Some(Africa)
    else if code in AsiaCodes then Some(Asia)
    else if code in EuropeCodes then Some(Europe)
    else if code in AntarcticaCodes then Some(Antarctica)
    else if code in AmericaCodes then Some(America)
    else None
  }

  /** One loop of the table builder: `for code in codes { m[code] = c }`. */
  method AssignAll(m0: map<string, Continent>, codes: seq<string>, c: Continent)
    returns (m: map<string, Continent>)
    ensures forall k :: k in m <==> k in m0 || k in codes
    ensures forall k :: k in codes ==> m[k] == c
    ensures forall k :: k in m0 && k !in codes ==> m[k] == m0[k]
  {
    m := m0;
    for i := 0 to |codes|
      invariant forall k :: k in m <==> k in m0 || k in codes[..i]
      invariant forall k :: k in codes[..i] ==> m[k] == c
      invariant forall k :: k in m0 && k !in codes[..i] ==> m[k] == m0[k]
    {
      m := m[codes[i] := c];
      assert codes[..i + 1] == codes[..i] + [codes[i]];
    }
    assert codes[..|codes|] == codes;
  }

  /** Builds the static dictionary with the six loops, in the source's
      order. A code is a key exactly when some list names it, and its value is
      the one `ListedContinent` gives. */
  method BuildTable() returns (m: map<string, Continent>)
    ensures forall k :: k in m <==> ListedContinent(k).Some?
    ensures forall k :: k in m ==> ListedContinent(k) == Some(m[k])
  {
    var m1 := AssignAll(map[], AmericaCodes, America);
    var m2 := AssignAll(m1, AntarcticaCodes, Antarctica);
    var m3 := AssignAll(m2, EuropeCodes, Europe);
    var m4 := AssignAll(m3, AsiaCodes, Asia);
    var m5 := AssignAll(m4, AfricaCodes, Africa);
    m := AssignAll(m5, OceaniaCodes, Oceania);
    forall k
      ensures k in m <==> ListedContinent(k).Some?
      ensures k in m ==> ListedContinent(k) == Some(m[k])
    {
      if k in OceaniaCodes {
      } else if k in AfricaCodes {
      } else if k in AsiaCodes {
      } else if k in EuropeCodes {
      } else if k in AntarcticaCodes {
      } else if k in AmericaCodes {
      }
    }
  }

  /** ASCII upper-casing, as `uppercased()` acts on region identifiers. */
  function AsciiUppercased(s: string): (r: string)
    ensures |r| == |s|
    ensures forall i :: 0 <= i < |s| ==> r[i] == if 'a' <= s[i] <= 'z' then (s[i] as int - 32) as char else s[i]
  {
    if s == [] then []
    else [if 'a' <= s[0] <= 'z' then (s[0] as int - 32) as char else s[0]] + AsciiUppercased(s[1..])
  }

  /** `continent(for:)`: no region gives no continent; otherwise the upper-cased
      identifier is looked up. */
  function ContinentFor(region: Option<string>): Option<Continent>
  {
    match region
    case None => None
    case Some(identifier) => ListedContinent(AsciiUppercased(identifier))
  }

  /** `continentName(for:)`: the raw value of the continent found, if any. */
  function ContinentNameFor(region: Option<string>): (r: Option<string>)
    ensures region.None? ==> r.None?
    ensures r.Some? <==> ContinentFor(region).Some?
    ensures r.Some? ==> r.value == RawValue(ContinentFor(region).value)
  {
    match ContinentFor(region)
    case None => None
    case Some(c) => Some(RawValue(c))
  }

  /** The same codes, regrouped by first and then second letter. This table is
      an independent statement of which continent each listed code belongs to. */
  function LetterTable(code: string): Option<Continent>
  {
    if |code| != 2 then None
    else
      var second := code[1];
      match code[0]
      case 'A' =>
        (match second
         case 'G' | 'I' | 'R' | 'W' => Some(America)
         case 'Q' => Some(Antarctica)
         case 'D' | 'L' | 'T' | 'X' => Some(Europe)
         case 'E' | 'F' | 'M' | 'Z' => Some(Asia)
         case 'O' => Some(Africa)
         case 'S' | 'U' => Some(Oceania)
         case _ => None)
      case 'B' =>
        (match second
         case 'B' | 'L' | 'M' | 'O' | 'Q' | 'R' | 'S' | 'Z' => Some(America)
         case 'V' => Some(Antarctica)
         case 'A' | 'E' | 'G' | 'Y' => Some(Europe)
         case 'D' | 'H' | 'N' | 'T' => Some(Asia)
         case 'F' | 'I' | 'J' | 'W' => Some(Africa)
         case _ => None)
      case 'C' =>
        (match second
         case 'A' | 'L' | 'O' | 'R' | 'U' | 'W' => Some(America)
         case 'H' | 'Y' | 'Z' => Some(Europe)
         case 'N' => Some(Asia)
         case 'D' | 'F' | 'G' | 'I' | 'M' | 'V' => Some(Africa)
         case 'K' => Some(Oceania)
         case _ => None)
      case 'D' =>
        (match second
         case 'M' | 'O' => Some(America)
         case 'E' | 'K' => Some(Europe)
         case 'J' | 'Z' => Some(Africa)
         case _ => None)
      case 'E' =>
        (match second
         case 'C' => Some(America)
         case 'E' | 'S' => Some(Europe)
         case 'G' | 'H' | 'R' | 'T' => Some(Africa)
         case _ => None)
      case 'F' =>
        (match second
         case 'K' => Some(America)
         case 'I' | 'O' | 'R' => Some(Europe)
         case 'J' | 'M' => Some(Oceania)
         case _ => None)
      case 'G' =>
        (match second
         case 'D' | 'F' | 'L' | 'P' | 'T' | 'Y' => Some(America)
         case 'S' => Some(Antarctica)
         case 'B' | 'G' | 'I' | 'R' => Some(Europe)
         case 'E' => Some(Asia)
         case 'A' | 'H' | 'M' | 'N' | 'Q' | 'W' => Some(Africa)
         case 'U' => Some(Oceania)
         case _ => None)
      case 'H' =>
        (match second
         case 'N' | 'T' => Some(America)
         case 'M' => Some(Antarctica)
         case 'R' | 'U' => Some(Europe)
         case 'K' => Some(Asia)
         case _ => None)
      case 'I' =>
        (match second
         case 'E' | 'M' | 'S' | 'T' => Some(Europe)
         case 'D' | 'L' | 'N' | 'Q' | 'R' => Some(Asia)
         case _ => None)
      case 'J' =>
        (match second
         case 'M' => Some(America)
         case 'E' => Some(Europe)
         case 'O' | 'P' => Some(Asia)
         case _ => None)
      case 'K' =>
        (match second
         case 'N' | 'Y' => Some(America)
         case 'G' | 'H' | 'P' | 'R' | 'W' | 'Z' => Some(Asia)
         case 'E' | 'M' => Some(Africa)
         case 'I' => Some(Oceania)
         case _ => None)
      case 'L' =>
        (match second
         case 'C' => Some(America)
         case 'I' | 'T' | 'U' | 'V' => Some(Europe)
         case 'A' | 'B' | 'K' => Some(Asia)
         case 'R' | 'S' | 'Y' => Some(Africa)
         case _ => None)
      case 'M' =>
        (match second
         case 'F' | 'Q' | 'S' | 'X' => Some(America)
         case 'C' | 'D' | 'E' | 'K' | 'T' => Some(Europe)
         case 'M' | 'N' | 'O' | 'V' | 'Y' => Some(Asia)
         case 'A' | 'G' | 'L' | 'R' | 'U' | 'W' | 'Z' => Some(Africa)
         case 'H' | 'P' => Some(Oceania)
         case _ => None)
      case 'N' =>
        (match second
         case 'I' => Some(America)
         case 'L' | 'O' => Some(Europe)
         case 'P' => Some(Asia)
         case 'A' | 'E' | 'G' => Some(Africa)
         case 'C' | 'F' | 'R' | 'U' | 'Z' => Some(Oceania)
         case _ => None)
      case 'O' =>
        (match second
         case 'M' => Some(Asia)
         case _ => None)
      case 'P' =>
        (match second
         case 'A' | 'E' | 'M' | 'R' | 'Y' => Some(America)
         case 'L' | 'T' => Some(Europe)
         case 'H' | 'K' | 'S' => Some(Asia)
         case 'F' | 'G' | 'N' | 'W' => Some(Oceania)
         case _ => None)
      case 'Q' =>
        (match second
         case 'A' => Some(Asia)
         case _ => None)
      case 'R' =>
        (match second
         case 'O' | 'S' | 'U' => Some(Europe)
         case 'E' | 'W' => Some(Africa)
         case _ => None)
      case 'S' =>
        (match second
         case 'R' | 'V' | 'X' => Some(America)
         case 'E' | 'I' | 'J' | 'K' | 'M' => Some(Europe)
         case 'A' | 'G' | 'Y' => Some(Asia)
         case 'C' | 'D' | 'H' | 'L' | 'N' | 'O' | 'S' | 'T' | 'Z' => Some(Africa)
         case 'B' => Some(Oceania)
         case _ => None)
      case 'T' =>
        (match second
         case 'C' | 'T' => Some(America)
         case 'F' => Some(Antarctica)
         case 'H' | 'J' | 'L' | 'M' | 'R' | 'W' => Some(Asia)
         case 'D' | 'G' | 'N' | 'Z' => Some(Africa)
         case 'K' | 'O' | 'V' => Some(Oceania)
         case _ => None)
      case 'U' =>
        (match second
         case 'S' | 'Y' => Some(America)
         case 'A' => Some(Europe)
         case 'Z' => Some(Asia)
         case 'G' => Some(Africa)
         case 'M' => Some(Oceania)
         case _ => None)
      case 'V' =>
        (match second
         case 'C' | 'E' | 'G' | 'I' => Some(America)
         case 'A' => Some(Europe)
         case 'N' => Some(Asia)
         case 'U' => Some(Oceania)
         case _ => None)
      case 'W' =>
        (match second
         case 'F' | 'S' => Some(Oceania)
         case _ => None)
      case 'Y' =>
        (match second
         case 'E' => Some(Asia)
         case 'T' => Some(Africa)
         case _ => None)
      case 'Z' =>
        (match second
         case 'A' | 'M' | 'W' => Some(Africa)
         case _ => None)
      case _ => None
  }


  /* Agreement of each part of the lists with the per-letter table. */

  lemma NorthAmericaCoreCodesAgree(x: string)
    requires x in NorthAmericaCoreCodes
    ensures LetterTable(x) == Some(America)
  {
  }

  lemma CentralAmericaCodesAgree(x: string)
    requires x in CentralAmericaCodes
    ensures LetterTable(x) == Some(America)
  {
  }

  lemma CaribbeanCodesPart1Agree(x: string)
    requires x in CaribbeanCodesPart1
    ensures LetterTable(x) == Some(America)
  {
  }

  lemma CaribbeanCodesPart2Agree(x: string)
    requires x in CaribbeanCodesPart2
    ensures LetterTable(x) == Some(America)
  {
  }

  lemma CaribbeanCodesPart3Agree(x: string)
    requires x in CaribbeanCodesPart3
    ensures LetterTable(x) == Some(America)
  {
  }

  lemma NorthAtlanticCodesAgree(x: string)
    requires x in NorthAtlanticCodes
    ensures LetterTable(x) == Some(America)
  {
  }

  lemma SouthAmericaCodesAgree(x: string)
    requires x in SouthAmericaCodes
    ensures LetterTable(x) == Some(America)
  {
  }

  lemma AntarcticaCodesAgree(x: string)
    requires x in AntarcticaCodes
    ensures LetterTable(x) == Some(Antarctica)
  {
  }

  lemma EuropeCodesAToBAgree(x: string)
    requires x in EuropeCodesAToB
    ensures LetterTable(x) == Some(Europe)
  {
  }

  lemma EuropeCodesCToEAgree(x: string)
    requires x in EuropeCodesCToE
    ensures LetterTable(x) == Some(Europe)
  {
  }

  lemma EuropeCodesFToGAgree(x: string)
    requires x in EuropeCodesFToG
    ensures LetterTable(x) == Some(Europe)
  {
  }

  lemma EuropeCodesHToJAgree(x: string)
    requires x in EuropeCodesHToJ
    ensures LetterTable(x) == Some(Europe)
  {
  }

  lemma EuropeCodesLToMAgree(x: string)
    requires x in EuropeCodesLToM
    ensures LetterTable(x) == Some(Europe)
  {
  }

  lemma EuropeCodesNToRAgree(x: string)
    requires x in EuropeCodesNToR
    ensures LetterTable(x) == Some(Europe)
  {
  }

  lemma EuropeCodesSToVAgree(x: string)
    requires x in EuropeCodesSToV
    ensures LetterTable(x) == Some(Europe)
  {
  }

  lemma AsiaCodesAToBAgree(x: string)
    requires x in AsiaCodesAToB
    ensures LetterTable(x) == Some(Asia)
  {
  }

  lemma AsiaCodesCToIAgree(x: string)
    requires x in AsiaCodesCToI
    ensures LetterTable(x) == Some(Asia)
  {
  }

  lemma AsiaCodesJToKAgree(x: string)
    requires x in AsiaCodesJToK
    ensures LetterTable(x) == Some(Asia)
  {
  }

  lemma AsiaCodesLToMAgree(x: string)
    requires x in AsiaCodesLToM
    ensures LetterTable(x) == Some(Asia)
  {
  }

  lemma AsiaCodesNToSAgree(x: string)
    requires x in AsiaCodesNToS
    ensures LetterTable(x) == Some(Asia)
  {
  }

  lemma AsiaCodesTToUAgree(x: string)
    requires x in AsiaCodesTToU
    ensures LetterTable(x) == Some(Asia)
  {
  }

  lemma AsiaCodesVToYAgree(x: string)
    requires x in AsiaCodesVToY
    ensures LetterTable(x) == Some(Asia)
  {
  }

  lemma AfricaCodesAToCAgree(x: string)
    requires x in AfricaCodesAToC
    ensures LetterTable(x) == Some(Africa)
  {
  }

  lemma AfricaCodesCToEAgree(x: string)
    requires x in AfricaCodesCToE
    ensures LetterTable(x) == Some(Africa)
  {
  }

  lemma AfricaCodesGToKAgree(x: string)
    requires x in AfricaCodesGToK
    ensures LetterTable(x) == Some(Africa)
  {
  }

  lemma AfricaCodesLToMAgree(x: string)
    requires x in AfricaCodesLToM
    ensures LetterTable(x) == Some(Africa)
  {
  }

  lemma AfricaCodesNToSAgree(x: string)
    requires x in AfricaCodesNToS
    ensures LetterTable(x) == Some(Africa)
  {
  }

  lemma AfricaCodesSToTAgree(x: string)
    requires x in AfricaCodesSToT
    ensures LetterTable(x) == Some(Africa)
  {
  }

  lemma AfricaCodesUToZAgree(x: string)
    requires x in AfricaCodesUToZ
    ensures LetterTable(x) == Some(Africa)
  {
  }

  lemma OceaniaCodesAToKAgree(x: string)
    requires x in OceaniaCodesAToK
    ensures LetterTable(x) == Some(Oceania)
  {
  }

  lemma OceaniaCodesMToNAgree(x: string)
    requires x in OceaniaCodesMToN
    ensures LetterTable(x) == Some(Oceania)
  {
  }

  lemma OceaniaCodesPToTAgree(x: string)
    requires x in OceaniaCodesPToT
    ensures LetterTable(x) == Some(Oceania)
  {
  }

  lemma OceaniaCodesUToWAgree(x: string)
    requires x in OceaniaCodesUToW
    ensures LetterTable(x) == Some(Oceania)
  {
  }

  /** Every code the lists assign to a continent is assigned to that same
      continent by the per-letter table. */
  lemma CodesAgreeWithLetterTable(c: Continent, x: string)
    requires x in ContinentCodes(c)
    ensures LetterTable(x) == Some(c)
  {
    match c
    case America =>
      if x in NorthAmericaCoreCodes { NorthAmericaCoreCodesAgree(x); }
      else if x in CentralAmericaCodes { CentralAmericaCodesAgree(x); }
      else if x in CaribbeanCodesPart1 { CaribbeanCodesPart1Agree(x); }
      else if x in CaribbeanCodesPart2 { CaribbeanCodesPart2Agree(x); }
      else if x in CaribbeanCodesPart3 { CaribbeanCodesPart3Agree(x); }
      else if x in NorthAtlanticCodes { NorthAtlanticCodesAgree(x); }
      else { SouthAmericaCodesAgree(x); }
    case Antarctica =>
      AntarcticaCodesAgree(x);
    case Europe =>
      if x in EuropeCodesAToB { EuropeCodesAToBAgree(x); }
      else if x in EuropeCodesCToE { EuropeCodesCToEAgree(x); }
      else if x in EuropeCodesFToG { EuropeCodesFToGAgree(x); }
      else if x in EuropeCodesHToJ { EuropeCodesHToJAgree(x); }
      else if x in EuropeCodesLToM { EuropeCodesLToMAgree(x); }
      else if x in EuropeCodesNToR { EuropeCodesNToRAgree(x); }
      else { EuropeCodesSToVAgree(x); }
    case Asia =>
      if x in AsiaCodesAToB { AsiaCodesAToBAgree(x); }
      else if x in AsiaCodesCToI { AsiaCodesCToIAgree(x); }
      else if x in AsiaCodesJToK { AsiaCodesJToKAgree(x); }
      else if x in AsiaCodesLToM { AsiaCodesLToMAgree(x); }
      else if x in AsiaCodesNToS { AsiaCodesNToSAgree(x); }
      else if x in AsiaCodesTToU { AsiaCodesTToUAgree(x); }
      else { AsiaCodesVToYAgree(x); }
    case Africa =>
      if x in AfricaCodesAToC { AfricaCodesAToCAgree(x); }
      else if x in AfricaCodesCToE { AfricaCodesCToEAgree(x); }
      else if x in AfricaCodesGToK { AfricaCodesGToKAgree(x); }
      else if x in AfricaCodesLToM { AfricaCodesLToMAgree(x); }
      else if x in AfricaCodesNToS { AfricaCodesNToSAgree(x); }
      else if x in AfricaCodesSToT { AfricaCodesSToTAgree(x); }
      else { AfricaCodesUToZAgree(x); }
    case Oceania =>
      if x in OceaniaCodesAToK { OceaniaCodesAToKAgree(x); }
      else if x in OceaniaCodesMToN { OceaniaCodesMToNAgree(x); }
      else if x in OceaniaCodesPToT { OceaniaCodesPToTAgree(x); }
      else { OceaniaCodesUToWAgree(x); }
  }

  /* Conversely, every code of the per-letter table is on its continent's list. */

  lemma LetterAListed(code: string)
    requires |code| == 2 && code[0] == 'A' && LetterTable(code).Some?
    ensures code in ContinentCodes(LetterTable(code).value)
    ensures 'A' <= code[1] <= 'Z'
  {
    assert code == ['A', code[1]];
  }

  lemma LetterBListed(code: string)
    requires |code| == 2 && code[0] == 'B' && LetterTable(code).Some?
    ensures code in ContinentCodes(LetterTable(code).value)
    ensures 'A' <= code[1] <= 'Z'
  {
    assert code == ['B', code[1]];
  }

  lemma LetterCListed(code: string)
    requires |code| == 2 && code[0] == 'C' && LetterTable(code).Some?
    ensures code in ContinentCodes(LetterTable(code).value)
    ensures 'A' <= code[1] <= 'Z'
  {
    assert code == ['C', code[1]];
  }

  lemma LetterDListed(code: string)
    requires |code| == 2 && code[0] == 'D' && LetterTable(code).Some?
    ensures code in ContinentCodes(LetterTable(code).value)
    ensures 'A' <= code[1] <= 'Z'
  {
    assert code == ['D', code[1]];
  }

  lemma LetterEListed(code: string)
    requires |code| == 2 && code[0] == 'E' && LetterTable(code).Some?
    ensures code in ContinentCodes(LetterTable(code).value)
    ensures 'A' <= code[1] <= 'Z'
  {
    assert code == ['E', code[1]];
  }

  lemma LetterFListed(code: string)
    requires |code| == 2 && code[0] == 'F' && LetterTable(code).Some?
    ensures code in ContinentCodes(LetterTable(code).value)
    ensures 'A' <= code[1] <= 'Z'
  {
    assert code == ['F', code[1]];
  }

  lemma LetterGListed(code: string)
    requires |code| == 2 && code[0] == 'G' && LetterTable(code).Some?
    ensures code in ContinentCodes(LetterTable(code).value)
    ensures 'A' <= code[1] <= 'Z'
  {
    assert code == ['G', code[1]];
  }

  lemma LetterHListed(code: string)
    requires |code| == 2 && code[0] == 'H' && LetterTable(code).Some?
    ensures code in ContinentCodes(LetterTable(code).value)
    ensures 'A' <= code[1] <= 'Z'
  {
    assert code == ['H', code[1]];
  }

  lemma LetterIListed(code: string)
    requires |code| == 2 && code[0] == 'I' && LetterTable(code).Some?
    ensures code in ContinentCodes(LetterTable(code).value)
    ensures 'A' <= code[1] <= 'Z'
  {
    assert code == ['I', code[1]];
  }

  lemma LetterJListed(code: string)
    requires |code| == 2 && code[0] == 'J' && LetterTable(code).Some?
    ensures code in ContinentCodes(LetterTable(code).value)
    ensures 'A' <= code[1] <= 'Z'
  {
    assert code == ['J', code[1]];
  }

  lemma LetterKListed(code: string)
    requires |code| == 2 && code[0] == 'K' && LetterTable(code).Some?
    ensures code in ContinentCodes(LetterTable(code).value)
    ensures 'A' <= code[1] <= 'Z'
  {
    assert code == ['K', code[1]];
  }

  lemma LetterLListed(code: string)
    requires |code| == 2 && code[0] == 'L' && LetterTable(code).Some?
    ensures code in ContinentCodes(LetterTable(code).value)
    ensures 'A' <= code[1] <= 'Z'
  {
    assert code == ['L', code[1]];
  }

  lemma LetterMListed(code: string)
    requires |code| == 2 && code[0] == 'M' && LetterTable(code).Some?
    ensures code in ContinentCodes(LetterTable(code).value)
    ensures 'A' <= code[1] <= 'Z'
  {
    assert code == ['M', code[1]];
  }

  lemma LetterNListed(code: string)
    requires |code| == 2 && code[0] == 'N' && LetterTable(code).Some?
    ensures code in ContinentCodes(LetterTable(code).value)
    ensures 'A' <= code[1] <= 'Z'
  {
    assert code == ['N', code[1]];
  }

  lemma LetterOListed(code: string)
    requires |code| == 2 && code[0] == 'O' && LetterTable(code).Some?
    ensures code in ContinentCodes(LetterTable(code).value)
    ensures 'A' <= code[1] <= 'Z'
  {
    assert code == ['O', code[1]];
  }

  lemma LetterPListed(code: string)
    requires |code| == 2 && code[0] == 'P' && LetterTable(code).Some?
    ensures code in ContinentCodes(LetterTable(code).value)
    ensures 'A' <= code[1] <= 'Z'
  {
    assert code == ['P', code[1]];
  }

  lemma LetterQListed(code: string)
    requires |code| == 2 && code[0] == 'Q' && LetterTable(code).Some?
    ensures code in ContinentCodes(LetterTable(code).value)
    ensures 'A' <= code[1] <= 'Z'
  {
    assert code == ['Q', code[1]];
  }

  lemma LetterRListed(code: string)
    requires |code| == 2 && code[0] == 'R' && LetterTable(code).Some?
    ensures code in ContinentCodes(LetterTable(code).value)
    ensures 'A' <= code[1] <= 'Z'
  {
    assert code == ['R', code[1]];
  }

  lemma LetterSListed(code: string)
    requires |code| == 2 && code[0] == 'S' && LetterTable(code).Some?
    ensures code in ContinentCodes(LetterTable(code).value)
    ensures 'A' <= code[1] <= 'Z'
  {
    assert code == ['S', code[1]];
  }

  lemma LetterTListed(code: string)
    requires |code| == 2 && code[0] == 'T' && LetterTable(code).Some?
    ensures code in ContinentCodes(LetterTable(code).value)
    ensures 'A' <= code[1] <= 'Z'
  {
    assert code == ['T', code[1]];
  }

  lemma LetterUListed(code: string)
    requires |code| == 2 && code[0] == 'U' && LetterTable(code).Some?
    ensures code in ContinentCodes(LetterTable(code).value)
    ensures 'A' <= code[1] <= 'Z'
  {
    assert code == ['U', code[1]];
  }

  lemma LetterVListed(code: string)
    requires |code| == 2 && code[0] == 'V' && LetterTable(code).Some?
    ensures code in ContinentCodes(LetterTable(code).value)
    ensures 'A' <= code[1] <= 'Z'
  {
    assert code == ['V', code[1]];
  }

  lemma LetterWListed(code: string)
    requires |code| == 2 && code[0] == 'W' && LetterTable(code).Some?
    ensures code in ContinentCodes(LetterTable(code).value)
    ensures 'A' <= code[1] <= 'Z'
  {
    assert code == ['W', code[1]];
  }

  lemma LetterYListed(code: string)
    requires |code| == 2 && code[0] == 'Y' && LetterTable(code).Some?
    ensures code in ContinentCodes(LetterTable(code).value)
    ensures 'A' <= code[1] <= 'Z'
  {
    assert code == ['Y', code[1]];
  }

  lemma LetterZListed(code: string)
    requires |code| == 2 && code[0] == 'Z' && LetterTable(code).Some?
    ensures code in ContinentCodes(LetterTable(code).value)
    ensures 'A' <= code[1] <= 'Z'
  {
    assert code == ['Z', code[1]];
    assert code in AfricaCodesUToZ;
  }

  lemma LetterTableCodesListed(code: string)
    requires LetterTable(code).Some?
    ensures code in ContinentCodes(LetterTable(code).value)
    ensures |code| == 2 && 'A' <= code[0] <= 'Z' && 'A' <= code[1] <= 'Z'
  {
    if code[0] == 'A' { LetterAListed(code); }
      else if code[0] == 'B' { LetterBListed(code); }
      else if code[0] == 'C' { LetterCListed(code); }
      else if code[0] == 'D' { LetterDListed(code); }
      else if code[0] == 'E' { LetterEListed(code); }
      else if code[0] == 'F' { LetterFListed(code); }
      else if code[0] == 'G' { LetterGListed(code); }
      else if code[0] == 'H' { LetterHListed(code); }
      else if code[0] == 'I' { LetterIListed(code); }
      else if code[0] == 'J' { LetterJListed(code); }
      else if code[0] == 'K' { LetterKListed(code); }
      else if code[0] == 'L' { LetterLListed(code); }
      else if code[0] == 'M' { LetterMListed(code); }
      else if code[0] == 'N' { LetterNListed(code); }
      else if code[0] == 'O' { LetterOListed(code); }
      else if code[0] == 'P' { LetterPListed(code); }
      else if code[0] == 'Q' { LetterQListed(code); }
      else if code[0] == 'R' { LetterRListed(code); }
      else if code[0] == 'S' { LetterSListed(code); }
      else if code[0] == 'T' { LetterTListed(code); }
      else if code[0] == 'U' { LetterUListed(code); }
      else if code[0] == 'V' { LetterVListed(code); }
      else if code[0] == 'W' { LetterWListed(code); }
      else if code[0] == 'Y' { LetterYListed(code); }
      else { LetterZListed(code); }
  }

  /** No code is written by two of the six loops, so the order of the loops
      does not matter: each listed code belongs to exactly one continent. */
  lemma ContinentListsDisjoint(c: Continent, d: Continent, code: string)
    requires code in ContinentCodes(c) && code in ContinentCodes(d)
    ensures c == d
  {
    CodesAgreeWithLetterTable(c, code);
    CodesAgreeWithLetterTable(d, code);
  }

  /** The dictionary the loops build is exactly the per-letter table. */
  lemma ListedContinentIsLetterTable(code: string)
    ensures ListedContinent(code) == LetterTable(code)
  {
    match ListedContinent(code)
    case Some(c) =>
      CodesAgreeWithLetterTable(c, code);
    case None =>
      if LetterTable(code).Some? {
        LetterTableCodesListed(code);
        var c := LetterTable(code).value;
        assert code in ContinentCodes(c);
        match c
        case America =>
        case Antarctica =>
        case Europe =>
        case Asia =>
        case Africa =>
        case Oceania =>
      }
  }

  /** Every key of the dictionary is two upper-case ASCII letters. */
  lemma ListedCodesAreTwoUpperLetters(code: string)
    requires ListedContinent(code).Some?
    ensures |code| == 2 && 'A' <= code[0] <= 'Z' && 'A' <= code[1] <= 'Z'
  {
    ListedContinentIsLetterTable(code);
    LetterTableCodesListed(code);
  }

  /** Upper-casing twice is upper-casing once. */
  lemma {:induction false} AsciiUppercasedIdempotent(s: string)
    ensures AsciiUppercased(AsciiUppercased(s)) == AsciiUppercased(s)
  {
    if s != [] {
      AsciiUppercasedIdempotent(s[1..]);
    }
  }

  /** The lookup ignores ASCII case: an identifier and its upper-cased form
      find the same continent. */
  lemma ContinentForIgnoresCase(identifier: string)
    ensures ContinentFor(Some(identifier)) == ContinentFor(Some(AsciiUppercased(identifier)))
  {
    AsciiUppercasedIdempotent(identifier);
  }

  /** Only two-character identifiers can be found; a subdivision code such as
      "US-CA" finds no continent. */
  lemma ContinentForNeedsTwoCharacters(identifier: string)
    requires |identifier| != 2
    ensures ContinentFor(Some(identifier)) == None
  {
    ListedContinentIsLetterTable(AsciiUppercased(identifier));
  }

  /** An identifier whose upper-cased form the per-letter table places on a
      continent is found on that continent. */
  lemma ContinentForByLetterTable(identifier: string, c: Continent)
    requires LetterTable(AsciiUppercased(identifier)) == Some(c)
    ensures ContinentFor(Some(identifier)) == Some(c)
    ensures ContinentNameFor(Some(identifier)) == Some(RawValue(c))
  {
    ListedContinentIsLetterTable(AsciiUppercased(identifier));
  }

  /** A lower-case identifier is found: "us" is in America. */
  lemma ContinentForLowerCaseExample()
    ensures ContinentFor(Some("us")) == Some(America)
  {
    ContinentForByLetterTable("us", America);
  }

  /** The name lookup gives the raw value: "nz" is in "Oceania". */
  lemma ContinentNameForExample()
    ensures ContinentNameFor(Some("nz")) == Some("Oceania")
  {
    ContinentForByLetterTable("nz", Oceania);
  }

  /** A subdivision identifier is not a key. */
  lemma ContinentNameForSubdivisionExample()
    ensures ContinentNameFor(Some("US-CA")) == None
  {
    ContinentForNeedsTwoCharacters("US-CA");
  }

  /** Every code written into a continent's list is found there, under
      that continent's name. */
  lemma ContinentNameForListed(code: string, c: Continent)
    requires code in ContinentCodes(c)
    ensures ContinentFor(Some(code)) == Some(c)
    ensures ContinentNameFor(Some(code)) == Some(RawValue(c))
  {
    CodesAgreeWithLetterTable(c, code);
    ListedContinentIsLetterTable(code);
    ListedCodesAreTwoUpperLetters(code);
    assert AsciiUppercased(code) == code;
    ContinentForByLetterTable(code, c);
  }
}
