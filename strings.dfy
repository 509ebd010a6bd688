/** Text helpers shared by the model: ASCII case mapping, substring search, and decimal
    numerals with their parser. JavaScript strings are modelled as sequences of characters. */
module Strings {

  // ---------------------------------------------------------------- case mapping (ASCII)

  predicate IsLowerAscii(c: char) { 'a' <= c <= 'z' }
  predicate IsUpperAscii(c: char) { 'A' <= c <= 'Z' }

  function ToUpperChar(c: char): (u: char)
    ensures !IsLowerAscii(u)
    ensures IsLowerAscii(c) ==> IsUpperAscii(u) && u as int == c as int - 32
    ensures !IsLowerAscii(c) ==> u == c
  {
    if IsLowerAscii(c) then (c as int - 32) as char else c
  }

  function ToLowerChar(c: char): (l: char)
    ensures !IsUpperAscii(l)
    ensures IsUpperAscii(c) ==> IsLowerAscii(l) && l as int == c as int + 32
    ensures !IsUpperAscii(c) ==> l == c
  {
    if IsUpperAscii(c) then (c as int + 32) as char else c
  }

  /** `String.prototype.toUpperCase`, restricted to ASCII letters. */
  function ToUpper(s: string): (r: string)
    ensures |r| == |s|
    ensures forall i :: 0 <= i < |s| ==> r[i] == ToUpperChar(s[i])
  {
    if s == [] then [] else [ToUpperChar(s[0])] + ToUpper(s[1..])
  }

  /** `String.prototype.toLowerCase`, restricted to ASCII letters. */
  function ToLower(s: string): (r: string)
    ensures |r| == |s|
    ensures forall i :: 0 <= i < |s| ==> r[i] == ToLowerChar(s[i])
  {
    if s == [] then [] else [ToLowerChar(s[0])] + ToLower(s[1..])
  }

  lemma ToLowerWithoutUpper(s: string)
    requires forall i :: 0 <= i < |s| ==> !IsUpperAscii(s[i])
    ensures ToLower(s) == s
  {
  }

  // ---------------------------------------------------------------- substring search

  predicate StartsWith(s: string, prefix: string) {
    |prefix| <= |s| && s[..|prefix|] == prefix
  }

  /** `sub` occurs in `s` starting at position `i`. */
  predicate OccursAt(s: string, sub: string, i: nat) {
    i + |sub| <= |s| && s[i..i + |sub|] == sub
  }

  /** `s.includes(sub)`: true when `sub` occurs at some position of `s` (always for ""). */
  function Contains(s: string, sub: string): (b: bool)
    ensures b <==> exists i: nat :: OccursAt(s, sub, i)
    decreases |s|
  {
    if StartsWith(s, sub) then
      assert OccursAt(s, sub, 0);
      true
    else if s == [] then
      false
    else
      var rest := Contains(s[1..], sub);
      assert rest ==> exists i: nat :: OccursAt(s, sub, i) by {
        if rest {
          var j: nat :| OccursAt(s[1..], sub, j);
          assert s[j + 1..j + 1 + |sub|] == s[1..][j..j + |sub|];
          assert OccursAt(s, sub, j + 1);
        }
      }
      assert (exists i: nat :: OccursAt(s, sub, i)) ==> rest by {
        if exists i: nat :: OccursAt(s, sub, i) {
          var i: nat :| OccursAt(s, sub, i);
          assert i != 0;
          assert s[1..][i - 1..i - 1 + |sub|] == s[i..i + |sub|];
          assert OccursAt(s[1..], sub, i - 1);
        }
      }
      rest
  }

  /** Index of the first occurrence of `c` in `s`, or -1 (`indexOf` on one character). */
  function IndexOfChar(s: string, c: char): (k: int)
    ensures -1 <= k < |s|
    ensures k == -1 <==> c !in s
    ensures k >= 0 ==> s[k] == c && c !in s[..k]
  {
    if s == [] then -1
    else if s[0] == c then 0
    else
      var k := IndexOfChar(s[1..], c);
      if k == -1 then -1
      else
        assert s[..k + 1] == [s[0]] + s[1..][..k];
        k + 1
  }

  /** `s.split(sep)[1]` for a string that contains `sep`: the field between the first and the
      second separator, or up to the end when there is no second one. */
  function SecondField(s: string, sep: char): (f: string)
    requires sep in s
    ensures sep !in f
    ensures exists k :: 0 <= k < |s| && s[k] == sep && sep !in s[..k] && StartsWith(s[k + 1..], f)
                        && (k + 1 + |f| == |s| || s[k + 1 + |f|] == sep)
    ensures |f| < |s|
  {
    var k := IndexOfChar(s, sep);
    var rest := s[k + 1..];
    var m := IndexOfChar(rest, sep);
    var f := if m == -1 then rest else rest[..m];
    assert StartsWith(s[k + 1..], f);
    f
  }

  // ---------------------------------------------------------------- decimal numerals

  predicate IsDigit(c: char) { '0' <= c <= '9' }

  predicate AllDigits(s: string) { forall i :: 0 <= i < |s| ==> IsDigit(s[i]) }

  /** A numeral as `Number.prototype.toString` writes a non-negative integer. */
  predicate IsCanonicalNumeral(s: string) {
    |s| >= 1 && AllDigits(s) && (|s| > 1 ==> s[0] != '0')
  }

  function DigitChar(d: nat): (c: char)
    requires d < 10
    ensures IsDigit(c) && c as int - '0' as int == d
  {
    ('0' as int + d) as char
  }

  function DigitValue(c: char): (d: nat)
    requires IsDigit(c)
    ensures d < 10
  {
    c as int - '0' as int
  }

  /** The decimal numeral of `n`, without leading zeros (`String(n)` / template literals). */
  function NatToString(n: nat): (s: string)
    ensures IsCanonicalNumeral(s)
    ensures n < 10 <==> |s| == 1
  {
    if n < 10 then [DigitChar(n)] else NatToString(n / 10) + [DigitChar(n % 10)]
  }

  /** `parseInt(s, 10)` on a string made only of decimal digits. */
  function ParseDigits(s: string): (n: nat)
    requires AllDigits(s)
  {
    if s == [] then 0 else ParseDigits(s[..|s| - 1]) * 10 + DigitValue(s[|s| - 1])
  }

  lemma {:induction false} ParseNatToString(n: nat)
    ensures ParseDigits(NatToString(n)) == n
  {
    if n >= 10 {
      var s := NatToString(n);
      assert s[..|s| - 1] == NatToString(n / 10);
      ParseNatToString(n / 10);
    }
  }

  lemma {:induction false} ParseAtLeastLeading(s: string)
    requires AllDigits(s) && |s| >= 1 && s[0] != '0'
    ensures ParseDigits(s) >= 1
  {
    if |s| > 1 {
      ParseAtLeastLeading(s[..|s| - 1]);
    }
  }

  lemma {:induction false} NatToStringParse(s: string)
    requires IsCanonicalNumeral(s)
    ensures NatToString(ParseDigits(s)) == s
  {
    if |s| > 1 {
      var p := s[..|s| - 1];
      ParseAtLeastLeading(p);
      NatToStringParse(p);
      var n := ParseDigits(s);
      assert n / 10 == ParseDigits(p) && n % 10 == DigitValue(s[|s| - 1]);
      assert NatToString(n) == NatToString(ParseDigits(p)) + [DigitChar(n % 10)];
    }
  }

  /** `str.padStart(2, '0')`. */
  function PadStart2(s: string): (r: string)
    ensures |s| >= 2 ==> r == s
    ensures |s| < 2 ==> |r| == 2 && r[2 - |s|..] == s && forall i :: 0 <= i < 2 - |s| ==> r[i] == '0'
  {
    if |s| >= 2 then s else if |s| == 1 then "0" + s else "00"
  }
}
