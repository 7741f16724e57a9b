/** The few .NET string and character operations that the copy commands
    build on: char.IsWhiteSpace, string.IsNullOrWhiteSpace, TrimStart,
    TrimEnd, ToLower and the decimal rendering of an int. */
module Strings {

  /** int.MaxValue of a 32-bit C# int. */
  const IntMaxValue: int := 0x7FFF_FFFF

  /** char.IsWhiteSpace: the Unicode space, line and paragraph separators
      together with U+0009..U+000D, U+0085 and U+00A0. */
  predicate IsWhiteSpace(c: char) {
    var n := c as int;
    (0x09 <= n <= 0x0D) || n == 0x20 || n == 0x85 || n == 0xA0 || n == 0x1680
    || (0x2000 <= n <= 0x200A) || n == 0x2028 || n == 0x2029 || n == 0x202F
    || n == 0x205F || n == 0x3000
  }

  /** string.IsNullOrWhiteSpace (a Dafny string is never null): true of
      the empty string and of every string made of whitespace only. */
  predicate IsBlank(s: string) {
    forall i | 0 <= i < |s| :: IsWhiteSpace(s[i])
  }

  /** string.TrimEnd(): the longest prefix that does not end in whitespace. */
  function TrimEnd(s: string): (r: string)
    ensures |r| <= |s|
    ensures forall i | 0 <= i < |r| :: r[i] == s[i]
    ensures forall i | |r| <= i < |s| :: IsWhiteSpace(s[i])
    ensures r == [] || !IsWhiteSpace(r[|r| - 1])
  {
    if |s| == 0 || !IsWhiteSpace(s[|s| - 1]) then s else TrimEnd(s[..|s| - 1])
  }

  /** string.TrimStart(): the longest suffix that does not start with whitespace. */
  function TrimStart(s: string): (r: string)
    ensures |r| <= |s|
    ensures forall i | 0 <= i < |s| - |r| :: IsWhiteSpace(s[i])
    ensures |r| > 0 ==> !IsWhiteSpace(s[|s| - |r|])
  {
    if |s| == 0 || !IsWhiteSpace(s[0]) then s else TrimStart(s[1..])
  }

  /** What TrimStart keeps is the suffix of that length. */
  lemma {:induction false} TrimStartIsSuffix(s: string)
    ensures TrimStart(s) == s[|s| - |TrimStart(s)|..]
  {
    if |s| > 0 && IsWhiteSpace(s[0]) {
      TrimStartIsSuffix(s[1..]);
      assert s[1..][|s| - 1 - |TrimStart(s)|..] == s[|s| - |TrimStart(s)|..];
    }
  }

  /** char.ToLower restricted to ASCII: 'A'..'Z' become 'a'..'z'. */
  function LowerChar(c: char): char {
    if 'A' <= c <= 'Z' then (c as int - 'A' as int + 'a' as int) as char else c
  }

  /** string.ToLower() on ASCII letters; every other character is kept. */
  function ToLower(s: string): (r: string)
    ensures |r| == |s|
  {
    seq(|s|, i requires 0 <= i < |s| => LowerChar(s[i]))
  }

  function DigitChar(d: nat): (c: char)
    requires d < 10
    ensures '0' <= c <= '9'
  {
    ('0' as int + d) as char
  }

  function DigitValue(c: char): nat {
    if '0' <= c <= '9' then c as int - '0' as int else 0
  }

  /** The decimal digits of a natural number, most significant first. */
  function NatToString(n: nat): (s: string)
    ensures |s| > 0
    ensures forall i | 0 <= i < |s| :: '0' <= s[i] <= '9'
    ensures s[0] == '0' ==> n == 0
    decreases n
  {
    if n < 10 then [DigitChar(n)] else NatToString(n / 10) + [DigitChar(n % 10)]
  }

  /** The value of a string of decimal digits. */
  function ParseNat(s: string): nat {
    if |s| == 0 then 0 else 10 * ParseNat(s[..|s| - 1]) + DigitValue(s[|s| - 1])
  }

  /** An int as string interpolation renders it: an optional '-' and the
      decimal digits of its magnitude. */
  function IntToString(i: int): (s: string)
    ensures |s| > 0
    ensures (s[0] == '-') == (i < 0)
    ensures var d := if i < 0 then 1 else 0;
            && d < |s|
            && (forall k | d <= k < |s| :: '0' <= s[k] <= '9')
            && (s[d] == '0' ==> i == 0)
  {
    if i < 0 then "-" + NatToString(-i) else NatToString(i)
  }

  function ParseInt(s: string): int {
    if |s| > 0 && s[0] == '-' then -(ParseNat(s[1..]) as int) else ParseNat(s)
  }

  lemma {:induction false} NatToStringRoundTrip(n: nat)
    ensures ParseNat(NatToString(n)) == n
    decreases n
  {
    if n >= 10 {
      var s := NatToString(n);
      assert s[..|s| - 1] == NatToString(n / 10);
      NatToStringRoundTrip(n / 10);
    }
  }

  /** The rendering of a line number loses nothing: it parses back to the number. */
  lemma IntToStringRoundTrip(i: int)
    ensures ParseInt(IntToString(i)) == i
  {
    if i < 0 {
      assert IntToString(i)[1..] == NatToString(-i);
      NatToStringRoundTrip(-i);
    } else {
      NatToStringRoundTrip(i);
    }
  }
}
