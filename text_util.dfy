/**
 * String helpers shared by the model. A Swift `String` is modelled as its
 * sequence of Unicode scalars (`seq<char>`); grapheme clustering and
 * canonical equivalence are not modelled.
 */
module TextUtil {
  import opened Wrappers

  /** Membership in Unicode's White_Space property, the set that
      `CharacterSet.whitespacesAndNewlines` stands for. */
  predicate IsWhitespace(c: char)
  {
    var v := c as int;
    (0x09 <= v <= 0x0D) || v == 0x20 || v == 0x85 || v == 0xA0 || v == 0x1680
    || (0x2000 <= v <= 0x200A) || v == 0x2028 || v == 0x2029 || v == 0x202F
    || v == 0x205F || v == 0x3000
  }

  /** Number of whitespace scalars at the front of `s`. */
  function LeadingWhitespace(s: string): (n: nat)
    ensures n <= |s|
    ensures forall k :: 0 <= k < n ==> IsWhitespace(s[k])
    ensures n < |s| ==> !IsWhitespace(s[n])
  {
    if |s| > 0 && IsWhitespace(s[0]) then 1 + LeadingWhitespace(s[1..]) else 0
  }

  /** Number of whitespace scalars at the back of `s`. */
  function TrailingWhitespace(s: string): (n: nat)
    ensures n <= |s|
    ensures forall k :: |s| - n <= k < |s| ==> IsWhitespace(s[k])
    ensures n < |s| ==> !IsWhitespace(s[|s| - 1 - n])
  {
    if |s| > 0 && IsWhitespace(s[|s| - 1]) then 1 + TrailingWhitespace(s[..|s| - 1]) else 0
  }

  /** `trimmingCharacters(in: .whitespacesAndNewlines)`: the longest slice of
      `s` that neither starts nor ends with whitespace, and everything cut
      off on either side is whitespace. */
  function Trim(s: string): (r: string)
    ensures LeadingWhitespace(s) + |r| <= |s|
    ensures r == s[LeadingWhitespace(s)..LeadingWhitespace(s) + |r|]
    ensures forall k :: 0 <= k < LeadingWhitespace(s) ==> IsWhitespace(s[k])
    ensures forall k :: LeadingWhitespace(s) + |r| <= k < |s| ==> IsWhitespace(s[k])
    ensures r != [] ==> !IsWhitespace(r[0]) && !IsWhitespace(r[|r| - 1])
  {
    var t := s[LeadingWhitespace(s)..];
    t[..|t| - TrailingWhitespace(t)]
  }

  /** Trimming twice is trimming once. */
  lemma TrimIdempotent(s: string)
    ensures Trim(Trim(s)) == Trim(s)
  {
    var r := Trim(s);
    if r != [] {
      assert LeadingWhitespace(r) == 0;
      assert TrailingWhitespace(r) == 0;
    }
  }

  /** A string trims to "" exactly when it is all whitespace. */
  lemma TrimEmptyIff(s: string)
    ensures Trim(s) == [] <==> forall k :: 0 <= k < |s| ==> IsWhitespace(s[k])
  {
    if forall k :: 0 <= k < |s| ==> IsWhitespace(s[k]) {
      assert LeadingWhitespace(s) == |s|;
    }
  }

  /** A string that neither starts nor ends with whitespace trims to itself. */
  lemma TrimKeepsUntrimmed(s: string)
    requires s != [] && !IsWhitespace(s[0]) && !IsWhitespace(s[|s| - 1])
    ensures Trim(s) == s
  {
    assert LeadingWhitespace(s) == 0;
    assert TrailingWhitespace(s) == 0;
  }

  /** Position of the first occurrence of `c` (Swift `firstIndex(of:)`). */
  function FirstIndexOf(s: string, c: char): (r: Option<nat>)
    ensures r.None? <==> c !in s
    ensures r.Some? ==> r.value < |s| && s[r.value] == c && c !in s[..r.value]
  {
    if s == [] then None
    else if s[0] == c then Some(0)
    else match FirstIndexOf(s[1..], c)
      case None => None
      case Some(i) => assert s[1..][..i] == s[1..i + 1]; Some(i + 1)
  }

  /** `s` begins with `p` (Swift `hasPrefix`). */
  predicate HasPrefix(s: string, p: string)
  {
    |p| <= |s| && s[..|p|] == p
  }

  /** `p` occurs as a contiguous part of `s` (Swift `contains`). */
  predicate ContainsSubstring(s: string, p: string)
    decreases |s|
  {
    HasPrefix(s, p) || (|s| > 0 && ContainsSubstring(s[1..], p))
  }

  /** An occurrence at any offset makes `ContainsSubstring` hold. */
  lemma {:induction false} ContainsSubstringAt(s: string, p: string, i: nat)
    requires i + |p| <= |s| && s[i..i + |p|] == p
    ensures ContainsSubstring(s, p)
    decreases i
  {
    if i > 0 {
      assert s[1..][i - 1..i - 1 + |p|] == p;
      ContainsSubstringAt(s[1..], p, i - 1);
    }
  }

  /** Conversely, `ContainsSubstring` names an offset where `p` occurs. */
  lemma {:induction false} ContainsSubstringWitness(s: string, p: string) returns (i: nat)
    requires ContainsSubstring(s, p)
    ensures i + |p| <= |s| && s[i..i + |p|] == p
    decreases |s|
  {
    if HasPrefix(s, p) {
      i := 0;
    } else {
      var j := ContainsSubstringWitness(s[1..], p);
      assert s[j + 1..j + 1 + |p|] == s[1..][j..j + |p|];
      i := j + 1;
    }
  }

  /** Swift's `String <`, modelled as lexicographic order on scalar values. */
  predicate LexLess(a: string, b: string)
    decreases |a|
  {
    if |a| == 0 then |b| > 0
    else if |b| == 0 then false
    else if a[0] < b[0] then true
    else if a[0] > b[0] then false
    else LexLess(a[1..], b[1..])
  }

  lemma {:induction false} LexLessIrreflexive(a: string)
    ensures !LexLess(a, a)
    decreases |a|
  {
    if |a| > 0 { LexLessIrreflexive(a[1..]); }
  }

  lemma {:induction false} LexLessTransitive(a: string, b: string, c: string)
    requires LexLess(a, b) && LexLess(b, c)
    ensures LexLess(a, c)
    decreases |a|
  {
    if |a| > 0 && |b| > 0 && |c| > 0 && a[0] == b[0] == c[0] {
      LexLessTransitive(a[1..], b[1..], c[1..]);
    }
  }

  /** Any two different strings are ordered one way or the other. */
  lemma {:induction false} LexLessTotal(a: string, b: string)
    requires a != b
    ensures LexLess(a, b) || LexLess(b, a)
    decreases |a|
  {
    if |a| > 0 && |b| > 0 && a[0] == b[0] {
      assert a == [a[0]] + a[1..] && b == [b[0]] + b[1..];
      LexLessTotal(a[1..], b[1..]);
    }
  }

  /** `LexLess` is a strict total order, so it is asymmetric and negatively
      transitive, as a sort predicate must be. */
  lemma LexLessStrictOrder(a: string, b: string, c: string)
    ensures LexLess(a, b) ==> !LexLess(b, a)
    ensures LexLess(a, c) ==> LexLess(a, b) || LexLess(b, c)
  {
    if LexLess(a, b) && LexLess(b, a) {
      LexLessTransitive(a, b, a);
      LexLessIrreflexive(a);
    }
    if LexLess(a, c) && !LexLess(a, b) && !LexLess(b, c) {
      LexLessIrreflexive(a);
      if a != b { LexLessTotal(a, b); }
      if b != c { LexLessTotal(b, c); }
      if a != b && b != c {
        LexLessTransitive(c, b, a);
        LexLessTransitive(a, c, a);
      } else if a != b {
        LexLessTransitive(a, b, a);
      } else if b != c {
        LexLessTransitive(a, c, a);
      }
    }
  }

  /** `a` is `b` with some elements removed, order kept. */
  predicate IsSubsequence<T(==)>(a: seq<T>, b: seq<T>)
    decreases |b|
  {
    if |a| == 0 then true
    else if |b| == 0 then false
    else if a[0] == b[0] then IsSubsequence(a[1..], b[1..])
    else IsSubsequence(a, b[1..])
  }

  /** Elements of `s` satisfying `p`, in their original order (Swift `filter`). */
  function Filter<T>(s: seq<T>, p: T -> bool): (r: seq<T>)
    ensures |r| <= |s|
    ensures forall k :: 0 <= k < |r| ==> p(r[k])
    ensures forall k :: 0 <= k < |r| ==> r[k] in s
    ensures forall k :: 0 <= k < |s| && p(s[k]) ==> s[k] in r
  {
    if s == [] then [] else (if p(s[0]) then [s[0]] else []) + Filter(s[1..], p)
  }

  /** What `Filter` keeps is an order-preserving subsequence of its input. */
  lemma {:induction false} FilterIsSubsequence<T>(s: seq<T>, p: T -> bool)
    ensures IsSubsequence(Filter(s, p), s)
  {
    if s != [] {
      FilterIsSubsequence(s[1..], p);
      if p(s[0]) {
        assert Filter(s, p) == [s[0]] + Filter(s[1..], p);
      } else {
        assert Filter(s, p) == Filter(s[1..], p);
        SubsequenceOfTail(Filter(s[1..], p), s);
      }
    }
  }

  /** A subsequence of the tail of `b` is a subsequence of `b`. */
  lemma {:induction false} SubsequenceOfTail<T>(a: seq<T>, b: seq<T>)
    requires |b| > 0 && IsSubsequence(a, b[1..])
    ensures IsSubsequence(a, b)
    decreases |b|, |a|
  {
    if |a| > 0 && a[0] == b[0] {
      SubsequenceDropHead(a, b[1..]);
    }
  }

  /** Dropping the first element of a subsequence keeps it a subsequence. */
  lemma {:induction false} SubsequenceDropHead<T>(a: seq<T>, b: seq<T>)
    requires |a| > 0 && IsSubsequence(a, b)
    ensures IsSubsequence(a[1..], b)
    decreases |b|, |a|
  {
    if a[0] == b[0] {
      if |a| > 1 { SubsequenceOfTail(a[1..], b); }
    } else {
      SubsequenceDropHead(a, b[1..]);
      if |a| > 1 { SubsequenceOfTail(a[1..], b); }
    }
  }

  /** A subsequence of a subsequence is a subsequence. */
  lemma {:induction false} SubsequenceTransitive<T>(a: seq<T>, b: seq<T>, c: seq<T>)
    requires IsSubsequence(a, b) && IsSubsequence(b, c)
    ensures IsSubsequence(a, c)
    decreases |c|
  {
    if |a| > 0 && |c| > 0 {
      if b[0] == c[0] {
        if a[0] == b[0] {
          SubsequenceTransitive(a[1..], b[1..], c[1..]);
        } else {
          SubsequenceTransitive(a, b[1..], c[1..]);
        }
      } else {
        SubsequenceTransitive(a, b, c[1..]);
        SubsequenceOfTail(a, c);
      }
    }
  }

  /** Swift `contains(where:)`: some element satisfies `p`. */
  function ContainsWhere<T>(s: seq<T>, p: T -> bool): (r: bool)
    ensures r <==> exists k :: 0 <= k < |s| && p(s[k])
  {
    if s == [] then false
    else p(s[0]) || ContainsWhere(s[1..], p)
  }

  /** Swift `compactMap`: the present results of `f`, in order. */
  function CompactMap<T, U>(s: seq<T>, f: T -> Option<U>): (r: seq<U>)
    ensures |r| <= |s|
    ensures forall k :: 0 <= k < |r| ==> exists i :: 0 <= i < |s| && f(s[i]) == Some(r[k])
    ensures (forall i :: 0 <= i < |s| ==> f(s[i]).Some?) ==> |r| == |s|
  {
    if s == [] then []
    else
      var rest := CompactMap(s[1..], f);
      var r := (match f(s[0]) case Some(y) => [y] case None => []) + rest;
      assert forall k :: 0 <= k < |rest| ==> exists i :: 0 <= i < |s| && f(s[i]) == Some(rest[k]) by {
        forall k | 0 <= k < |rest| ensures exists i :: 0 <= i < |s| && f(s[i]) == Some(rest[k]) {
          var i :| 0 <= i < |s[1..]| && f(s[1..][i]) == Some(rest[k]);
          assert s[1..][i] == s[i + 1];
        }
      }
      r
  }

  /** `compactMap` keeps order and loses nothing: when `p` says which
      elements `f` maps to a value, the results are, one for one and in
      order, the values of the elements `p` selects. */
  lemma {:induction false} CompactMapInOrder<T, U>(s: seq<T>, f: T -> Option<U>, p: T -> bool)
    requires forall x :: p(x) <==> f(x).Some?
    ensures |CompactMap(s, f)| == |Filter(s, p)|
    ensures forall k :: 0 <= k < |Filter(s, p)| ==> f(Filter(s, p)[k]) == Some(CompactMap(s, f)[k])
  {
    if s != [] {
      var kept, mapped := Filter(s[1..], p), CompactMap(s[1..], f);
      CompactMapInOrder(s[1..], f, p);
      if p(s[0]) {
        var y := f(s[0]).value;
        assert Filter(s, p) == [s[0]] + kept;
        assert CompactMap(s, f) == [y] + mapped;
      } else {
        assert f(s[0]) == None;
        assert Filter(s, p) == [] + kept;
        assert CompactMap(s, f) == [] + mapped;
      }
    }
  }

  /** Swift `prefix(n)`: the first `n` elements, or all of them if fewer. */
  function Take<T>(s: seq<T>, n: nat): (r: seq<T>)
    ensures |r| <= n && |r| <= |s|
    ensures r == s[..|r|]
    ensures |s| <= n ==> r == s
    ensures n <= |s| ==> |r| == n
  {
    if |s| <= n then s else s[..n]
  }

  /** A prefix takes no element more often than the whole sequence has it. */
  lemma TakeSubMultiset<T>(s: seq<T>, n: nat)
    ensures multiset(Take(s, n)) <= multiset(s)
  {
    var r := Take(s, n);
    assert s == r + s[|r|..];
  }

  /** `Filter` keeps every selected element as often as it occurs, and no
      other element. */
  lemma {:induction false} FilterMultiset<T>(s: seq<T>, p: T -> bool)
    ensures forall x :: multiset(Filter(s, p))[x] == if p(x) then multiset(s)[x] else 0
  {
    if s != [] {
      var kept := Filter(s[1..], p);
      FilterMultiset(s[1..], p);
      assert s == [s[0]] + s[1..];
      if p(s[0]) {
        assert Filter(s, p) == [s[0]] + kept;
      } else {
        assert Filter(s, p) == [] + kept;
      }
    }
  }

  /** `Filter` with a predicate that holds everywhere is the identity. */
  lemma {:induction false} FilterAll<T>(s: seq<T>, p: T -> bool)
    requires forall k :: 0 <= k < |s| ==> p(s[k])
    ensures Filter(s, p) == s
  {
    if s != [] {
      FilterAll(s[1..], p);
    }
  }

  /** Decimal digits of a natural number, as Swift's `"\(n)"` prints it. */
  function NatToString(n: nat): (r: string)
    ensures |r| > 0
    ensures forall k :: 0 <= k < |r| ==> '0' <= r[k] <= '9'
    decreases n
  {
    if n < 10 then [('0' as int + n) as char]
    else NatToString(n / 10) + [('0' as int + n % 10) as char]
  }

  /** The number a non-empty run of decimal digits denotes. */
  function DigitsValue(s: string): nat
    requires forall k :: 0 <= k < |s| ==> '0' <= s[k] <= '9'
  {
    if s == [] then 0 else DigitsValue(s[..|s| - 1]) * 10 + (s[|s| - 1] as int - '0' as int)
  }

  /** Reading the printed digits back yields the number. */
  lemma {:induction false} NatToStringRoundTrip(n: nat)
    ensures DigitsValue(NatToString(n)) == n
    decreases n
  {
    if n >= 10 {
      NatToStringRoundTrip(n / 10);
      var r := NatToString(n);
      assert r[..|r| - 1] == NatToString(n / 10);
    }
  }

  /** Swift's `"\(i)"` for a signed integer. */
  function IntToString(i: int): (r: string)
    ensures |r| > 0
    ensures i >= 0 ==> r == NatToString(i)
    ensures i < 0 ==> r == "-" + NatToString(-i)
  {
    if i >= 0 then NatToString(i) else "-" + NatToString(-i)
  }
}
