/** The JavaScript string primitives the core relies on: `trim`, `toLowerCase`,
    `includes`, `Number.prototype.toString` on integers, and the
    "keep only 0-9, then parseInt" idiom used when a price cell is edited. */
module Text {

  import opened Types

  // ---------------------------------------------------------------------
  // trim
  // ---------------------------------------------------------------------

  /** ECMAScript WhiteSpace and LineTerminator code points: exactly what
      `String.prototype.trim` removes at both ends. */
  predicate IsJsWhitespace(c: char) {
    || c == '\t' || c == '\n' || c == '\U{000B}' || c == '\U{000C}' || c == '\r'
    || c == ' ' || c == '\U{00A0}' || c == '\U{1680}'
    || ('\U{2000}' <= c <= '\U{200A}')
    || c == '\U{2028}' || c == '\U{2029}' || c == '\U{202F}' || c == '\U{205F}'
    || c == '\U{3000}' || c == '\U{FEFF}'
  }

  /** `s` with its leading whitespace removed. */
  function TrimStart(s: string): (r: string)
    ensures |r| <= |s| && r == s[|s| - |r|..]
    ensures forall i :: 0 <= i < |s| - |r| ==> IsJsWhitespace(s[i])
    ensures r != [] ==> !IsJsWhitespace(r[0])
    decreases |s|
  {
    if s != [] && IsJsWhitespace(s[0]) then TrimStart(s[1..]) else s
  }

  /** `s` with its trailing whitespace removed. */
  function TrimEnd(s: string): (r: string)
    ensures |r| <= |s| && r == s[..|r|]
    ensures forall i :: |r| <= i < |s| ==> IsJsWhitespace(s[i])
    ensures r != [] ==> !IsJsWhitespace(r[|r| - 1])
    decreases |s|
  {
    if s != [] && IsJsWhitespace(s[|s| - 1]) then TrimEnd(s[..|s| - 1]) else s
  }

  /** `s.trim()`: a stretch of `s` that neither starts nor ends with
      whitespace, and is empty exactly when `s` is blank. */
  function Trim(s: string): (r: string)
    ensures exists i :: OccursAt(r, s, i)
    ensures r != [] ==> !IsJsWhitespace(r[0]) && !IsJsWhitespace(r[|r| - 1])
    ensures r == [] <==> AllWhitespace(s)
  {
    var t := TrimStart(s);
    var r := TrimEnd(t);
    assert OccursAt(r, s, |s| - |t|);
    r
  }

  /** A string is blank when it consists of whitespace only. */
  ghost predicate AllWhitespace(s: string) {
    forall i :: 0 <= i < |s| ==> IsJsWhitespace(s[i])
  }

  /** `!s.trim()` holds exactly for the strings made of whitespace only
      (the empty string included). */
  lemma TrimEmptyIffAllWhitespace(s: string)
    ensures Trim(s) == [] <==> AllWhitespace(s)
  {
  }

  /** Whitespace in front of a string does not survive `trimStart`. */
  lemma {:induction false} TrimStartSkipsWhitespace(w: string, t: string)
    requires AllWhitespace(w)
    ensures TrimStart(w + t) == TrimStart(t)
    decreases |w|
  {
    if w == [] {
      assert w + t == t;
    } else {
      assert (w + t)[1..] == w[1..] + t;
      TrimStartSkipsWhitespace(w[1..], t);
    }
  }

  /** Whitespace after a string does not survive `trimEnd`. */
  lemma {:induction false} TrimEndSkipsWhitespace(t: string, w: string)
    requires AllWhitespace(w)
    ensures TrimEnd(t + w) == TrimEnd(t)
    decreases |w|
  {
    if w == [] {
      assert t + w == t;
    } else {
      assert (t + w)[..|t + w| - 1] == t + w[..|w| - 1];
      TrimEndSkipsWhitespace(t, w[..|w| - 1]);
    }
  }

  /** Once a string holds a non-whitespace character, `trimStart` leaves
      whatever follows it alone. */
  lemma {:induction false} TrimStartKeepsSuffix(t: string, w: string)
    requires !AllWhitespace(t)
    ensures TrimStart(t + w) == TrimStart(t) + w
    decreases |t|
  {
    assert (t + w)[0] == t[0];
    if IsJsWhitespace(t[0]) {
      var i :| 0 <= i < |t| && !IsJsWhitespace(t[i]);
      assert t[1..][i - 1] == t[i];
      assert (t + w)[1..] == t[1..] + w;
      TrimStartKeepsSuffix(t[1..], w);
    }
  }

  /** `trim` ignores any whitespace placed around a string. */
  lemma TrimIgnoresSurroundingWhitespace(w1: string, t: string, w2: string)
    requires AllWhitespace(w1) && AllWhitespace(w2)
    ensures Trim(w1 + t + w2) == Trim(t)
  {
    if AllWhitespace(t) {
      assert AllWhitespace(w1 + t + w2);
      TrimEmptyIffAllWhitespace(w1 + t + w2);
      TrimEmptyIffAllWhitespace(t);
    } else {
      assert w1 + t + w2 == w1 + (t + w2);
      TrimStartSkipsWhitespace(w1, t + w2);
      TrimStartKeepsSuffix(t, w2);
      TrimEndSkipsWhitespace(TrimStart(t), w2);
    }
  }

  // ---------------------------------------------------------------------
  // toLowerCase
  // ---------------------------------------------------------------------

  /** Lower-case mapping of one character, for the capitals of Vietnamese
      text: ASCII, Latin-1, the Latin Extended-A letters U+0100..U+012F
      (Ă, Đ, Ĩ among them), Ũ, the horned O and U, and the letters of Latin
      Extended Additional U+1EA0..U+1EF9. Every other character maps to
      itself. */
  function LowerChar(c: char): (l: char)
    ensures IsUpper(c) ==> l != c && !IsUpper(l)
    ensures !IsUpper(c) ==> l == c
  {
    if 'A' <= c <= 'Z' then (c as int + 32) as char
    else if '\U{00C0}' <= c <= '\U{00DE}' && c != '\U{00D7}' then (c as int + 32) as char
    else if '\U{0100}' <= c <= '\U{012F}' && c as int % 2 == 0 then (c as int + 1) as char
    else if c == '\U{0168}' || c == '\U{01A0}' || c == '\U{01AF}' then (c as int + 1) as char
    else if '\U{1EA0}' <= c <= '\U{1EF8}' && c as int % 2 == 0 then (c as int + 1) as char
    else c
  }

  /** The characters LowerChar changes. */
  predicate IsUpper(c: char) {
    || 'A' <= c <= 'Z'
    || ('\U{00C0}' <= c <= '\U{00DE}' && c != '\U{00D7}')
    || ('\U{0100}' <= c <= '\U{012F}' && c as int % 2 == 0)
    || c == '\U{0168}' || c == '\U{01A0}' || c == '\U{01AF}'
    || ('\U{1EA0}' <= c <= '\U{1EF8}' && c as int % 2 == 0)
  }

  /** `s.toLowerCase()`, character by character: same length, no capital
      left, and every character that is not a capital kept in place. */
  function Lower(s: string): (r: string)
    ensures |r| == |s|
    ensures forall i :: 0 <= i < |s| ==> !IsUpper(r[i])
    ensures forall i :: 0 <= i < |s| && !IsUpper(s[i]) ==> r[i] == s[i]
  {
    seq(|s|, i requires 0 <= i < |s| => LowerChar(s[i]))
  }

  /** Lower-casing twice is lower-casing once. */
  lemma LowerIdempotent(s: string)
    ensures Lower(Lower(s)) == Lower(s)
  {
    var l := Lower(s);
    forall i | 0 <= i < |s| ensures Lower(l)[i] == l[i] {
      assert !IsUpper(l[i]);
    }
  }

  // ---------------------------------------------------------------------
  // includes
  // ---------------------------------------------------------------------

  /** `needle` sits in `hay` starting at index `i`. */
  predicate OccursAt(needle: string, hay: string, i: int) {
    0 <= i && i + |needle| <= |hay| && hay[i..i + |needle|] == needle
  }

  /** `hay.includes(needle)`, searching from the left. */
  function Includes(hay: string, needle: string): (b: bool)
    ensures b <==> exists i :: OccursAt(needle, hay, i)
    decreases |hay|
  {
    if |needle| > |hay| then false
    else if hay[..|needle|] == needle then (assert OccursAt(needle, hay, 0); true)
    else
      var tail := hay[1..];
      var b := Includes(tail, needle);
      if b then
        var j :| OccursAt(needle, tail, j);
        assert tail[j..j + |needle|] == hay[j + 1..j + 1 + |needle|];
        assert OccursAt(needle, hay, j + 1);
        true
      else
        assert forall i :: 1 <= i ==> OccursAt(needle, hay, i) ==> OccursAt(needle, tail, i - 1) by {
          forall i | 1 <= i && OccursAt(needle, hay, i) ensures OccursAt(needle, tail, i - 1) {
            assert tail[i - 1..i - 1 + |needle|] == hay[i..i + |needle|];
          }
        }
        assert !OccursAt(needle, hay, 0);
        false
  }

  /** A string placed between two others is included in the result. */
  lemma IncludesMiddle(a: string, x: string, b: string)
    ensures Includes(a + x + b, x)
  {
    assert (a + x + b)[|a|..|a| + |x|] == x;
    assert OccursAt(x, a + x + b, |a|);
  }

  /** A needle holding a character the haystack lacks is not included. */
  lemma NotIncludesMissingChar(hay: string, needle: string, c: char)
    requires c in needle && c !in hay
    ensures !Includes(hay, needle)
  {
    forall i | 0 <= i && i + |needle| <= |hay| ensures !OccursAt(needle, hay, i) {
      var k :| 0 <= k < |needle| && needle[k] == c;
      assert hay[i + k] !in needle[k..k + 1];
    }
  }

  // ---------------------------------------------------------------------
  // decimal digits
  // ---------------------------------------------------------------------

  /** The characters `/[0-9]/` matches. */
  predicate IsDigit(c: char) {
    '0' <= c <= '9'
  }

  predicate AllDigits(s: string) {
    forall i :: 0 <= i < |s| ==> IsDigit(s[i])
  }

  function DigitChar(d: nat): (c: char)
    requires d < 10
    ensures IsDigit(c) && c as int - '0' as int == d
  {
    ('0' as int + d) as char
  }

  /** The decimal numeral of a natural number, without leading zeros
      (`String(n)` for an integral `n >= 0`). */
  function NatToString(n: nat): (s: string)
    ensures |s| >= 1 && AllDigits(s)
    ensures s[0] == '0' ==> n == 0 && s == "0"
    decreases n
  {
    if n < 10 then [DigitChar(n)] else NatToString(n / 10) + [DigitChar(n % 10)]
  }

  /** `String(n)` for an integral `n`: a minus sign before negative values. */
  function IntToString(n: int): (s: string)
    ensures |s| >= 1 && IsDigit(s[|s| - 1])
    ensures s[0] == '-' <==> n < 0
  {
    if n < 0 then "-" + NatToString(-n) else NatToString(n)
  }

  /** Decimal renderings hold only digits and a leading minus sign. */
  lemma IntToStringChars(n: int)
    ensures forall i :: 0 <= i < |IntToString(n)| ==> IsDigit(IntToString(n)[i]) || IntToString(n)[i] == '-'
  {
  }

  /** The value of a string of decimal digits (`parseInt(s, 10)` for such a
      string when it is not empty). */
  function DigitsValue(s: string): nat
    requires AllDigits(s)
    decreases |s|
  {
    if s == [] then 0 else DigitsValue(s[..|s| - 1]) * 10 + (s[|s| - 1] as int - '0' as int)
  }

  /** Reading back a numeral gives the number it was written from. */
  lemma {:induction false} DigitsValueOfNatToString(n: nat)
    ensures DigitsValue(NatToString(n)) == n
    decreases n
  {
    if n >= 10 {
      var s := NatToString(n);
      DigitsValueOfNatToString(n / 10);
      assert s[..|s| - 1] == NatToString(n / 10);
    }
  }

  /** The inverse of IntToString on the strings it produces. */
  function ParseIntString(s: string): Option<int>
  {
    if s != [] && s[0] == '-' && |s| > 1 && AllDigits(s[1..]) then Some(0 - DigitsValue(s[1..]))
    else if s != [] && AllDigits(s) then Some(DigitsValue(s))
    else None
  }

  /** The decimal rendering of an integer loses nothing: it parses back. */
  lemma IntToStringRoundTrip(n: int)
    ensures ParseIntString(IntToString(n)) == Some(n)
  {
    if n < 0 {
      DigitsValueOfNatToString(-n);
      assert IntToString(n)[1..] == NatToString(-n);
    } else {
      DigitsValueOfNatToString(n);
    }
  }

  /** Two integers have the same decimal rendering only if they are equal. */
  lemma IntToStringInjective(m: int, n: int)
    requires IntToString(m) == IntToString(n)
    ensures m == n
  {
    IntToStringRoundTrip(m);
    IntToStringRoundTrip(n);
  }

  /** `s.replace(/[^0-9]/g, '')`: the ASCII digits of `s`, in order. */
  function StripNonDigits(s: string): (r: string)
    ensures AllDigits(r) && |r| <= |s|
    ensures r == [] <==> forall i :: 0 <= i < |s| ==> !IsDigit(s[i])
    ensures AllDigits(s) ==> r == s
    ensures |s| == 1 && !IsDigit(s[0]) ==> r == []
    decreases |s|
  {
    if s == [] then []
    else if IsDigit(s[0]) then [s[0]] + StripNonDigits(s[1..])
    else
      var r := StripNonDigits(s[1..]);
      assert r == [] ==> forall i :: 0 <= i < |s| ==> !IsDigit(s[i]) by {
        if r == [] {
          forall i | 0 <= i < |s| ensures !IsDigit(s[i]) {
            if i > 0 { assert s[i] == s[1..][i - 1]; }
          }
        }
      }
      r
  }

  /** Stripping works piece by piece: the digits of a concatenation are the
      digits of its first part followed by those of its second. Together with
      the one-character cases in StripNonDigits's contract this fixes the
      result as the digits of `s`, in their original order. */
  lemma {:induction false} StripNonDigitsAppend(a: string, b: string)
    ensures StripNonDigits(a + b) == StripNonDigits(a) + StripNonDigits(b)
    decreases |a|
  {
    if a == [] {
      assert a + b == b;
    } else {
      assert (a + b)[0] == a[0] && (a + b)[1..] == a[1..] + b;
      StripNonDigitsAppend(a[1..], b);
      if IsDigit(a[0]) {
        assert [a[0]] + (StripNonDigits(a[1..]) + StripNonDigits(b))
            == [a[0]] + StripNonDigits(a[1..]) + StripNonDigits(b);
      }
    }
  }

  /** `parseInt(s.replace(/[^0-9]/g, ''), 10)`, with NaN as None. */
  function ParseDigitsOnly(s: string): (r: Option<nat>)
    ensures r == None <==> forall i :: 0 <= i < |s| ==> !IsDigit(s[i])
    ensures r.Some? ==> r.value == DigitsValue(StripNonDigits(s))
    ensures AllDigits(s) && s != [] ==> r == Some(DigitsValue(s))
  {
    var d := StripNonDigits(s);
    if d == [] then None else Some(DigitsValue(d))
  }

  /** A separator between two groups of digits is dropped, not read as a
      decimal point: "68.000" parses as 68000 and "70.5" as 705. */
  lemma SeparatorDropped(a: string, c: char, b: string)
    requires AllDigits(a) && AllDigits(b) && !IsDigit(c) && a + b != []
    ensures ParseDigitsOnly(a + [c] + b) == Some(DigitsValue(a + b))
  {
    var ac := a + [c];
    StripNonDigitsAppend(ac, b);
    StripNonDigitsAppend(a, [c]);
    assert StripNonDigits([c]) == [];
    assert StripNonDigits(ac) == a;
    assert StripNonDigits(ac + b) == a + b;
  }

  lemma ParseDigitsOnlyExamples()
    ensures ParseDigitsOnly("68.000") == Some(68000)
  {
    SeparatorDropped("68", '.', "000");
    assert "68" + ['.'] + "000" == "68.000";
    assert "68" + "000" == "68000";
    assert DigitsValue("6") == 6;
    assert DigitsValue("68") == 68 by { assert "68"[..1] == "6"; }
    assert DigitsValue("680") == 680 by { assert "680"[..2] == "68"; }
    assert DigitsValue("6800") == 6800 by { assert "6800"[..3] == "680"; }
    assert DigitsValue("68000") == 68000 by { assert "68000"[..4] == "6800"; }
  }
}
