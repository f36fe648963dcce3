/**
 * `escapeJSONString`: the body of a JSON string literal for a Swift string,
 * following section 7 of RFC 8259. Quotation mark, reverse solidus and the
 * five control characters with a short form get two-character escapes, the
 * other control characters U+0000..U+001F become `\u` and four upper-case
 * hexadecimal digits, and every other scalar is copied.
 *
 * `Unescape` decodes the body of a JSON string as section 7 of RFC 8259
 * reads it; it is the partner the escaper is checked against.
 */
module JsonEscape {
  import opened Wrappers

  /** Upper-case hexadecimal digit for 0..15. */
  function HexDigit(d: nat): (c: char)
    requires d < 16
    ensures ('0' <= c <= '9') || ('A' <= c <= 'F')
  {
    "0123456789ABCDEF"[d]
  }

  /** `String(n, radix: 16, uppercase: true)`: no leading zeros, "0" for 0. */
  function Hex(n: nat): (r: string)
    ensures |r| > 0
    ensures n < 16 ==> |r| == 1
    ensures 16 <= n < 256 ==> |r| == 2
    decreases n
  {
    if n < 16 then [HexDigit(n)] else Hex(n / 16) + [HexDigit(n % 16)]
  }

  /** `String(repeating: "0", count: n)`. */
  function Zeros(n: nat): (r: string)
    ensures |r| == n && forall k :: 0 <= k < n ==> r[k] == '0'
  {
    if n == 0 then [] else Zeros(n - 1) + "0"
  }

  /** What the loop appends for one scalar. */
  function EscapedScalar(c: char): (r: string)
  {
    var v := c as int;
    if v == 0x22 then "\\\""
    else if v == 0x5C then "\\\\"
    else if v == 0x08 then "\\b"
    else if v == 0x0C then "\\f"
    else if v == 0x0A then "\\n"
    else if v == 0x0D then "\\r"
    else if v == 0x09 then "\\t"
    else if v <= 0x1F then
      var hex := Hex(v);
      "\\u" + Zeros(4 - |hex|) + hex
    else [c]
  }

  /** The escaped form of a whole string. */
  function Escaped(s: string): string
  {
    if s == [] then [] else EscapedScalar(s[0]) + Escaped(s[1..])
  }

  lemma {:induction false} EscapedAppend(a: string, b: string)
    ensures Escaped(a + b) == Escaped(a) + Escaped(b)
  {
    if a == [] {
      assert a + b == b;
    } else {
      assert (a + b)[0] == a[0] && (a + b)[1..] == a[1..] + b;
      EscapedAppend(a[1..], b);
    }
  }

  /** `escapeJSONString`, the loop over the unicode scalars. */
  method EscapeJsonString(s: string) returns (out: string)
    ensures out == Escaped(s)
  {
    out := "";
    for i := 0 to |s|
      invariant out == Escaped(s[..i])
    {
      var ch := s[i];
      var v := ch as int;
      var piece: string;
      if v == 0x22 {
        piece := "\\\"";
      } else if v == 0x5C {
        piece := "\\\\";
      } else if v == 0x08 {
        piece := "\\b";
      } else if v == 0x0C {
        piece := "\\f";
      } else if v == 0x0A {
        piece := "\\n";
      } else if v == 0x0D {
        piece := "\\r";
      } else if v == 0x09 {
        piece := "\\t";
      } else if v <= 0x1F {
        var hex := Hex(v);
        piece := "\\u" + Zeros(4 - |hex|) + hex;
      } else {
        piece := [ch];
      }
      assert piece == EscapedScalar(ch);
      out := out + piece;
      assert s[..i + 1] == s[..i] + [ch];
      EscapedAppend(s[..i], [ch]);
    }
    assert s[..|s|] == s;
  }

  /** A control character without a short form becomes `\u00` followed by
      two upper-case hexadecimal digits, six characters in all. */
  lemma EscapedControl(c: char)
    requires c as int <= 0x1F
    requires c as int !in {0x08, 0x09, 0x0A, 0x0C, 0x0D}
    ensures EscapedScalar(c) == "\\u00" + [HexDigit(c as int / 16), HexDigit(c as int % 16)]
  {
    var v := c as int;
    if v < 16 {
      assert Hex(v) == [HexDigit(v)];
    } else {
      assert Hex(v) == Hex(1) + [HexDigit(v % 16)];
    }
  }

  /** No raw control character is left in the output. */
  lemma {:induction false} EscapedHasNoControlCharacters(s: string)
    ensures forall k :: 0 <= k < |Escaped(s)| ==> Escaped(s)[k] as int >= 0x20
  {
    if s != [] {
      EscapedHasNoControlCharacters(s[1..]);
      var c := s[0];
      if c as int <= 0x1F && c as int !in {0x08, 0x09, 0x0A, 0x0C, 0x0D} {
        EscapedControl(c);
      }
      var e := EscapedScalar(c);
      assert forall k :: 0 <= k < |e| ==> e[k] as int >= 0x20;
      var r := Escaped(s);
      assert r == e + Escaped(s[1..]);
      forall k | 0 <= k < |r| ensures r[k] as int >= 0x20 {
        if k >= |e| {
          assert r[k] == Escaped(s[1..])[k - |e|];
        }
      }
    }
  }

  /* Decoding, as section 7 of RFC 8259 reads a string body. */

  predicate IsHexDigit(c: char)
  {
    ('0' <= c <= '9') || ('A' <= c <= 'F') || ('a' <= c <= 'f')
  }

  function HexDigitValue(c: char): (d: nat)
    requires IsHexDigit(c)
    ensures d < 16
  {
    if '0' <= c <= '9' then c as int - '0' as int
    else if 'A' <= c <= 'F' then c as int - 'A' as int + 10
    else c as int - 'a' as int + 10
  }

  /** The number four hexadecimal digits denote. */
  function HexValue4(h: string): nat
    requires |h| == 4 && forall k :: 0 <= k < 4 ==> IsHexDigit(h[k])
  {
    ((HexDigitValue(h[0]) * 16 + HexDigitValue(h[1])) * 16 + HexDigitValue(h[2])) * 16 + HexDigitValue(h[3])
  }

  /** The character a two-character escape stands for. */
  function ShortEscape(c: char): Option<char>
  {
    if c == '"' then Some('"')
    else if c == '\\' then Some('\\')
    else if c == '/' then Some('/')
    else if c == 'b' then Some(8 as char)
    else if c == 'f' then Some(12 as char)
    else if c == 'n' then Some(10 as char)
    else if c == 'r' then Some(13 as char)
    else if c == 't' then Some(9 as char)
    else None
  }

  function Prepend(c: char, rest: Option<string>): Option<string>
  {
    match rest
    case None => None
    case Some(r) => Some([c] + r)
  }

  /** The decoded string body, or `None` when `t` is not a valid body (an
      unescaped quotation mark or control character, or a malformed
      escape). Surrogate-pair escapes are not decoded. */
  function Unescape(t: string): Option<string>
    decreases |t|
  {
    if t == [] then Some([])
    else if t[0] == '\\' then
      if |t| >= 2 && ShortEscape(t[1]).Some? then
        Prepend(ShortEscape(t[1]).value, Unescape(t[2..]))
      else if |t| >= 6 && t[1] == 'u' && (forall k :: 2 <= k < 6 ==> IsHexDigit(t[k])) then
        var v := HexValue4(t[2..6]);
        if v < 0xD800 || 0xE000 <= v < 0x11_0000 then Prepend(v as char, Unescape(t[6..])) else None
      else None
    else if t[0] == '"' || t[0] as int < 0x20 then None
    else Prepend(t[0], Unescape(t[1..]))
  }

  lemma HexDigitRoundTrip(d: nat)
    requires d < 16
    ensures IsHexDigit(HexDigit(d)) && HexDigitValue(HexDigit(d)) == d
  {
  }

  /** Decoding the escape of one scalar yields that scalar. */
  lemma UnescapeScalar(c: char, rest: string)
    ensures Unescape(EscapedScalar(c) + rest) == Prepend(c, Unescape(rest))
  {
    var v := c as int;
    if v in {0x22, 0x5C, 0x08, 0x0C, 0x0A, 0x0D, 0x09} {
      UnescapeShortForm(c, rest);
    } else if v <= 0x1F {
      UnescapeControl(c, rest);
    } else {
      var t := EscapedScalar(c) + rest;
      assert t[0] == c && t[1..] == rest;
    }
  }

  lemma UnescapeShortForm(c: char, rest: string)
    requires c as int in {0x22, 0x5C, 0x08, 0x0C, 0x0A, 0x0D, 0x09}
    ensures Unescape(EscapedScalar(c) + rest) == Prepend(c, Unescape(rest))
  {
    var t := EscapedScalar(c) + rest;
    assert t[0] == '\\' && ShortEscape(t[1]) == Some(c);
    assert t[2..] == rest;
  }

  lemma UnescapeControl(c: char, rest: string)
    requires c as int <= 0x1F
    requires c as int !in {0x22, 0x5C, 0x08, 0x0C, 0x0A, 0x0D, 0x09}
    ensures Unescape(EscapedScalar(c) + rest) == Prepend(c, Unescape(rest))
  {
    var v := c as int;
    var t := EscapedScalar(c) + rest;
    EscapedControl(c);
    HexDigitRoundTrip(v / 16);
    HexDigitRoundTrip(v % 16);
    assert t[0] == '\\' && t[1] == 'u' && ShortEscape(t[1]).None?;
    assert t[2..6] == ['0', '0', HexDigit(v / 16), HexDigit(v % 16)];
    assert HexValue4(t[2..6]) == v;
    assert t[6..] == rest;
  }

  /** Decoding the escaped string gives back the original. */
  lemma {:induction false} UnescapeEscaped(s: string)
    ensures Unescape(Escaped(s)) == Some(s)
  {
    if s != [] {
      UnescapeEscaped(s[1..]);
      UnescapeScalar(s[0], Escaped(s[1..]));
      assert [s[0]] + s[1..] == s;
    }
  }
}
