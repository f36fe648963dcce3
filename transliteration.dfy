/**
 * `transliteratedLatinSafe`: a lossy Latin/ASCII rendering of a string.
 *
 * The Unicode machinery it calls (the ICU "Any-Latin" and "strip combining
 * marks" transforms, canonical decomposition and the diacritic property) is
 * passed in as `UnicodeServices`, so every fact below holds whatever those
 * services do. Strings are sequences of Unicode scalars.
 */
module Transliteration {
  import opened TextUtil

  /** The foreign string services the operation relies on. */
  datatype UnicodeServices = UnicodeServices(
    toLatin: string -> string,
    stripCombiningMarks: string -> string,
    decomposeCanonically: string -> string,
    isDiacritic: char -> bool)

  predicate IsAscii(c: char) { c as int < 0x80 }

  predicate AllAscii(s: string) { forall k :: 0 <= k < |s| ==> IsAscii(s[k]) }

  /** The string the two in-place ICU transforms leave behind: first to
      Latin script, then without combining marks. */
  function IcuTransformed(u: UnicodeServices, s: string): string
  {
    u.stripCombiningMarks(u.toLatin(s))
  }

  /** The ASCII scalars of the ICU result. */
  function IcuResult(u: UnicodeServices, s: string): string
  {
    Filter(IcuTransformed(u, s), IsAscii)
  }

  /** The fallback: decompose, drop diacritic scalars, keep ASCII scalars. */
  function WithoutDiacritics(u: UnicodeServices, s: string): string
  {
    Filter(u.decomposeCanonically(s), c => !u.isDiacritic(c))
  }

  function FallbackResult(u: UnicodeServices, s: string): string
  {
    Filter(WithoutDiacritics(u, s), IsAscii)
  }

  function TransliteratedLatinSafe(u: UnicodeServices, s: string): (r: string)
    ensures AllAscii(r)
  {
    var icuResult := IcuResult(u, s);
    if icuResult != [] then icuResult else FallbackResult(u, s)
  }

  /** The first non-empty path wins: a non-empty ICU result is returned as is,
      and the fallback is used only when that result is empty. */
  lemma FirstNonEmptyPathWins(u: UnicodeServices, s: string)
    ensures IcuResult(u, s) != [] ==> TransliteratedLatinSafe(u, s) == IcuResult(u, s)
    ensures IcuResult(u, s) == [] ==> TransliteratedLatinSafe(u, s) == FallbackResult(u, s)
    ensures TransliteratedLatinSafe(u, s) == [] <==> IcuResult(u, s) == [] && FallbackResult(u, s) == []
  {
  }

  /** Each path keeps, in order, a selection of the scalars of its
      intermediate string; the fallback keeps no diacritic scalar. */
  lemma TransliterationIsSubsequence(u: UnicodeServices, s: string)
    ensures IcuResult(u, s) != [] ==>
              IsSubsequence(TransliteratedLatinSafe(u, s), IcuTransformed(u, s))
    ensures IcuResult(u, s) == [] ==>
              IsSubsequence(TransliteratedLatinSafe(u, s), u.decomposeCanonically(s))
    ensures IcuResult(u, s) == [] ==>
              forall k :: 0 <= k < |TransliteratedLatinSafe(u, s)| ==>
                !u.isDiacritic(TransliteratedLatinSafe(u, s)[k])
  {
    FilterIsSubsequence(IcuTransformed(u, s), IsAscii);
    var d := u.decomposeCanonically(s);
    var noMarks := Filter(d, c => !u.isDiacritic(c));
    FilterIsSubsequence(d, c => !u.isDiacritic(c));
    FilterIsSubsequence(noMarks, IsAscii);
    SubsequenceTransitive(Filter(noMarks, IsAscii), noMarks, d);
  }

  /** The result is empty exactly when neither intermediate string holds a
      usable ASCII scalar (as happens for emoji-only input). */
  lemma TransliterationEmptyIff(u: UnicodeServices, s: string)
    ensures TransliteratedLatinSafe(u, s) == [] <==>
              (forall k :: 0 <= k < |IcuTransformed(u, s)| ==> !IsAscii(IcuTransformed(u, s)[k])) &&
              (forall k :: 0 <= k < |WithoutDiacritics(u, s)| ==> !IsAscii(WithoutDiacritics(u, s)[k]))
  {
    var t := IcuTransformed(u, s);
    var w := WithoutDiacritics(u, s);
    if TransliteratedLatinSafe(u, s) == [] {
      assert IcuResult(u, s) == [] && FallbackResult(u, s) == [];
    } else if IcuResult(u, s) != [] {
      assert IsAscii(IcuResult(u, s)[0]) && IcuResult(u, s)[0] in t;
    } else {
      assert IsAscii(FallbackResult(u, s)[0]) && FallbackResult(u, s)[0] in w;
    }
  }

  /** Text that the transforms leave alone and that is already ASCII comes
      back unchanged. */
  lemma AsciiTextUnchanged(u: UnicodeServices, s: string)
    requires s != [] && AllAscii(s)
    requires u.toLatin(s) == s && u.stripCombiningMarks(s) == s
    ensures TransliteratedLatinSafe(u, s) == s
  {
    FilterAll(s, IsAscii);
  }
}
