/**
 * The small pieces of Swift's standard library and Foundation that the
 * record decoder and the operation lifecycle rely on: `Int(String)`,
 * `trimmingCharacters(in: .whitespaces)` and `String.capitalized`.
 * Strings are sequences of Unicode scalar values.
 */
module FoundationText {
  import opened Wrappers

  // ---------------------------------------------------------------------
  // Whitespace trimming

  /** Membership in `CharacterSet.whitespaces`: Unicode general category Zs plus tab.
      Line and paragraph separators (newline, carriage return) are not in it. */
  predicate IsWhitespace(c: char) {
    c == '\t' || c == ' ' || c == '\U{00A0}' || c == '\U{1680}'
    || ('\U{2000}' <= c <= '\U{200A}')
    || c == '\U{202F}' || c == '\U{205F}' || c == '\U{3000}'
  }

  /** Number of whitespace characters at the start of `s`. */
  function LeadingWhitespace(s: string): (n: nat)
    ensures n <= |s|
    ensures forall i :: 0 <= i < n ==> IsWhitespace(s[i])
    ensures n < |s| ==> !IsWhitespace(s[n])
  {
    if |s| == 0 || !IsWhitespace(s[0]) then 0 else 1 + LeadingWhitespace(s[1..])
  }

  /** Number of whitespace characters at the end of `s`. */
  function TrailingWhitespace(s: string): (n: nat)
    ensures n <= |s|
    ensures forall i :: |s| - n <= i < |s| ==> IsWhitespace(s[i])
    ensures n < |s| ==> !IsWhitespace(s[|s| - 1 - n])
  {
    if |s| == 0 || !IsWhitespace(s[|s| - 1]) then 0 else 1 + TrailingWhitespace(s[..|s| - 1])
  }

  /** `s.trimmingCharacters(in: .whitespaces)`: the infix of `s` that starts after its
      leading whitespace, keeps no whitespace at either end, and drops only whitespace. */
  function Trim(s: string): (r: string)
    ensures LeadingWhitespace(s) + |r| <= |s|
    ensures forall k :: 0 <= k < |r| ==> r[k] == s[LeadingWhitespace(s) + k]
    ensures r == [] || (!IsWhitespace(r[0]) && !IsWhitespace(r[|r| - 1]))
    ensures forall i :: 0 <= i < |s| && !(LeadingWhitespace(s) <= i < LeadingWhitespace(s) + |r|)
                        ==> IsWhitespace(s[i])
  {
    var n := LeadingWhitespace(s);
    var m := TrailingWhitespace(s[n..]);
    s[n..|s| - m]
  }

  /** A string with no whitespace at either end is left unchanged by trimming. */
  lemma TrimUnchanged(s: string)
    requires s == [] || (!IsWhitespace(s[0]) && !IsWhitespace(s[|s| - 1]))
    ensures Trim(s) == s
  {
  }

  /** Trimming twice is trimming once. */
  lemma TrimIdempotent(s: string)
    ensures Trim(Trim(s)) == Trim(s)
  {
    TrimUnchanged(Trim(s));
  }

  // ---------------------------------------------------------------------
  // Int(String)

  const Int64Min: int := -0x8000_0000_0000_0000
  const Int64Max: int := 0x7FFF_FFFF_FFFF_FFFF

  predicate IsDigit(c: char) {
    '0' <= c <= '9'
  }

  predicate AllDigits(d: string) {
    forall i :: 0 <= i < |d| ==> IsDigit(d[i])
  }

  function Pow10(k: nat): (p: nat)
    ensures p >= 1
  {
    if k == 0 then 1 else 10 * Pow10(k - 1)
  }

  /** The value of a string of decimal digits, most significant first. */
  function DigitsValue(d: string): (v: nat)
    requires AllDigits(d)
    ensures v < Pow10(|d|)
  {
    if d == [] then 0
    else 10 * DigitsValue(d[..|d| - 1]) + ((d[|d| - 1] as int) - ('0' as int))
  }

  /** The part of a numeral after its optional leading sign. */
  function Magnitude(s: string): (d: string)
    ensures |d| <= |s|
  {
    if |s| > 0 && (s[0] == '+' || s[0] == '-') then s[1..] else s
  }

  /** The syntax `Int(String)` accepts: an optional `+` or `-`, then one or more decimal digits. */
  predicate IsDecimalLiteral(s: string) {
    |Magnitude(s)| > 0 && AllDigits(Magnitude(s))
  }

  /** The value a numeral denotes, before any range check: its digits, negated after a `-`. */
  function SignedValue(s: string): (v: int)
    requires AllDigits(Magnitude(s))
    ensures v < 0 ==> |s| > 0 && s[0] == '-'
  {
    if |s| > 0 && s[0] == '-' then -(DigitsValue(Magnitude(s)) as int) else DigitsValue(Magnitude(s))
  }

  /** `Int(s)` for Swift's 64-bit `Int`: no whitespace, no radix prefix, no overflow. */
  function ParseInt(s: string): (r: Option<int>)
    ensures r.Some? ==> IsDecimalLiteral(s) && Int64Min <= r.value <= Int64Max
    ensures IsDecimalLiteral(s) && |Magnitude(s)| <= 18 ==> r.Some?
    ensures r.Some? ==> (r.value < 0 ==> s[0] == '-')
  {
    var d := Magnitude(s);
    if |d| == 0 || !AllDigits(d) then None
    else
      var v := SignedValue(s);
      assert |d| <= 18 ==> Int64Min <= v <= Int64Max by {
        if |d| <= 18 {
          Pow10Monotonic(|d|, 18);
          Pow10Sum(9, 9);
          assert Pow10(9) == 1_000_000_000;
        }
      }
      if Int64Min <= v <= Int64Max then Some(v) else None
  }

  /** A numeral whose value lies in the 64-bit range parses to that value, whatever its length. */
  lemma ParseIntInRange(s: string)
    requires IsDecimalLiteral(s)
    requires Int64Min <= SignedValue(s) <= Int64Max
    ensures ParseInt(s) == Some(SignedValue(s))
  {
  }

  /** Overflow: a numeral whose value lies outside the 64-bit range gives nil. */
  lemma ParseIntOverflow(s: string)
    requires IsDecimalLiteral(s)
    requires SignedValue(s) < Int64Min || Int64Max < SignedValue(s)
    ensures ParseInt(s) == None
  {
  }

  lemma Pow10Monotonic(j: nat, k: nat)
    requires j <= k
    ensures Pow10(j) <= Pow10(k)
  {
  }

  lemma {:induction false} Pow10Sum(j: nat, k: nat)
    ensures Pow10(j + k) == Pow10(j) * Pow10(k)
  {
    if j > 0 { Pow10Sum(j - 1, k); }
  }

  /** The decimal digits of a natural number, without leading zeros. */
  function NatDigits(n: nat): (d: string)
    ensures |d| > 0 && AllDigits(d)
    ensures d[0] != '0' || n == 0
  {
    if n < 10 then ['0' + n as char]
    else NatDigits(n / 10) + ['0' + (n % 10) as char]
  }

  /** `String(n)` (`n.description`) for an integer: a minus sign for negatives, then digits. */
  function IntDescription(n: int): (s: string)
    ensures IsDecimalLiteral(s)
    ensures s[0] == '-' <==> n < 0
  {
    if n < 0 then "-" + NatDigits(-n) else NatDigits(n)
  }

  lemma {:induction false} NatDigitsValue(n: nat)
    ensures DigitsValue(NatDigits(n)) == n
  {
    if n >= 10 {
      NatDigitsValue(n / 10);
      var d := NatDigits(n);
      assert d[..|d| - 1] == NatDigits(n / 10);
    }
  }

  /** Round trip: parsing the description of a 64-bit integer gives the integer back. */
  lemma ParseIntDescription(n: int)
    requires Int64Min <= n <= Int64Max
    ensures ParseInt(IntDescription(n)) == Some(n)
  {
    var s := IntDescription(n);
    var k: nat := if n < 0 then -n else n;
    NatDigitsValue(k);
    assert Magnitude(s) == NatDigits(k);
    assert (|s| > 0 && s[0] == '-') <==> n < 0;
  }

  /** A leading zero does not change the value of a digit string. */
  lemma {:induction false} DigitsValueLeadingZero(d: string)
    requires AllDigits(d)
    ensures AllDigits("0" + d) && DigitsValue("0" + d) == DigitsValue(d)
  {
    if d != [] {
      var init := d[..|d| - 1];
      DigitsValueLeadingZero(init);
      assert ("0" + d)[..|"0" + d| - 1] == "0" + init;
    }
  }

  /** Leading zeros are ignored: `Int("007") == Int("7")`, with or without a sign. */
  lemma ParseIntLeadingZero(sign: string, d: string)
    requires sign == "" || sign == "+" || sign == "-"
    requires |d| > 0 && AllDigits(d)
    ensures ParseInt(sign + "0" + d) == ParseInt(sign + d)
  {
    DigitsValueLeadingZero(d);
    assert Magnitude(sign + "0" + d) == "0" + d;
    assert Magnitude(sign + d) == d;
  }

  /** A `+` sign changes nothing, and a `-` sign negates the value of the digits. */
  lemma ParseIntSign(d: string)
    requires |d| > 0 && AllDigits(d)
    ensures ParseInt("+" + d) == ParseInt(d)
    ensures ParseInt(d).Some? ==> ParseInt("-" + d) == Some(-ParseInt(d).value)
  {
    assert Magnitude("+" + d) == d;
    assert Magnitude("-" + d) == d;
    assert Magnitude(d) == d;
  }

  // ---------------------------------------------------------------------
  // String.capitalized, on ASCII text

  function UpperAscii(c: char): (u: char)
    ensures 'a' <= c <= 'z' ==> u as int == c as int - 32
    ensures !('a' <= c <= 'z') ==> u == c
  {
    if 'a' <= c <= 'z' then (c as int - 32) as char else c
  }

  function LowerAscii(c: char): (l: char)
    ensures 'A' <= c <= 'Z' ==> l as int == c as int + 32
    ensures !('A' <= c <= 'Z') ==> l == c
  {
    if 'A' <= c <= 'Z' then (c as int + 32) as char else c
  }

  /** What separates the words of `capitalized`: spaces, tabs and line terminators. */
  predicate IsWordDelimiter(c: char) {
    IsWhitespace(c) || c == '\n' || c == '\r' || c == '\U{000B}' || c == '\U{000C}'
    || c == '\U{0085}' || c == '\U{2028}' || c == '\U{2029}'
  }

  /** `s.capitalized` for ASCII letters: the first letter of every word in upper case,
      every other letter in lower case; `wordStart` says whether `s` begins a word. */
  function CapitalizedFrom(s: string, wordStart: bool): (r: string)
    ensures |r| == |s|
    ensures forall i :: 0 <= i < |s| && IsWordDelimiter(s[i]) ==> r[i] == s[i]
    ensures |s| > 0 && !IsWordDelimiter(s[0]) ==> r[0] == (if wordStart then UpperAscii(s[0]) else LowerAscii(s[0]))
  {
    if s == [] then []
    else
      var c := if IsWordDelimiter(s[0]) then s[0] else if wordStart then UpperAscii(s[0]) else LowerAscii(s[0]);
      [c] + CapitalizedFrom(s[1..], IsWordDelimiter(s[0]))
  }

  function Capitalized(s: string): (r: string)
    ensures |r| == |s|
    ensures forall i :: 0 <= i < |s| && IsWordDelimiter(s[i]) ==> r[i] == s[i]
    ensures |s| > 0 && !IsWordDelimiter(s[0]) ==> r[0] == UpperAscii(s[0])
  {
    CapitalizedFrom(s, true)
  }

  /** A word of lower-case ASCII letters that does not begin a word stays as it is. */
  lemma {:induction false} LowerLettersUnchanged(s: string)
    requires forall i :: 0 <= i < |s| ==> 'a' <= s[i] <= 'z'
    ensures CapitalizedFrom(s, false) == s
  {
    if s != [] {
      LowerLettersUnchanged(s[1..]);
    }
  }

  /** A single lower-case ASCII word is capitalized by raising its first letter only. */
  lemma CapitalizedLowerWord(s: string)
    requires |s| > 0
    requires forall i :: 0 <= i < |s| ==> 'a' <= s[i] <= 'z'
    ensures Capitalized(s) == [UpperAscii(s[0])] + s[1..]
  {
    LowerLettersUnchanged(s[1..]);
  }
}
