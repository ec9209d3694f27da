/** Numerals and letters as the printers write them and the parsers read them. */
module Decimal {
  const MAX_SAFE_INTEGER := 9007199254740991

  /** `Number.isSafeInteger` */
  predicate SafeInteger(n: int) {
    -MAX_SAFE_INTEGER <= n <= MAX_SAFE_INTEGER
  }

  predicate IsDigit(c: char) {
    '0' <= c <= '9'
  }

  predicate AllDigits(s: string) {
    forall i :: 0 <= i < |s| ==> IsDigit(s[i])
  }

  function DigitsValue(s: string): nat
    requires AllDigits(s)
  {
    if s == "" then 0
    else DigitsValue(s[..|s| - 1]) * 10 + (s[|s| - 1] as int - '0' as int)
  }

  function NatText(n: nat): (s: string)
    ensures s != "" && AllDigits(s) && DigitsValue(s) == n
  {
    if n < 10 then ['0' + n as char]
    else
      var high, low := NatText(n / 10), '0' + (n % 10) as char;
      assert (high + [low])[..|high|] == high;
      high + [low]
  }

  function IntText(n: int): string {
    if n < 0 then "-" + NatText(-n) else NatText(n)
  }

  function HexDigit(n: nat): char
    requires n < 16
  {
    if n < 10 then '0' + n as char else 'a' + (n - 10) as char
  }

  /** `toLowerCase` on ASCII letters */
  function Lower(s: string): (r: string)
    ensures |r| == |s|
  {
    if s == "" then ""
    else [if 'A' <= s[0] <= 'Z' then s[0] - 'A' + 'a' else s[0]] + Lower(s[1..])
  }

  lemma LowerFixed(s: string)
    requires forall i :: 0 <= i < |s| ==> s[i] < 'A' || 'Z' < s[i]
    ensures Lower(s) == s
  {
    if s != "" {
      assert s == [s[0]] + s[1..];
      LowerFixed(s[1..]);
    }
  }

  lemma Associates(a: string, b: string, c: string)
    ensures a + b + c == a + (b + c)
  {
  }
}
