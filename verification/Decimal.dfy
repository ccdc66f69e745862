/** Decimal numerals: what `{i}` prints for an unsigned integer, and what `str::parse::<u32>` reads back. */
module Decimal {
  import opened Wrappers

  const U32_LIMIT: nat := 0x1_0000_0000

  predicate IsDigit(c: char) { '0' <= c <= '9' }

  predicate AllDigits(s: string) { forall i :: 0 <= i < |s| ==> IsDigit(s[i]) }

  function Print(n: nat): string
  {
    if n < 10 then ['0' + n as char] else Print(n / 10) + ['0' + (n % 10) as char]
  }

  function Value(s: string): nat
    requires AllDigits(s)
  {
    if s == [] then 0 else 10 * Value(s[..|s| - 1]) + (s[|s| - 1] as int - '0' as int)
  }

  /** `str::parse::<u32>`: an optional '+', at least one digit, and no overflow. */
  function ParseU32(s: string): Option<nat>
  {
    var t := if s != [] && s[0] == '+' then s[1..] else s;
    if t == [] || !AllDigits(t) || Value(t) >= U32_LIMIT then None else Some(Value(t))
  }

  lemma {:induction false} PrintThenValue(n: nat)
    ensures Print(n) != [] && AllDigits(Print(n)) && Value(Print(n)) == n
  {
    if n >= 10 {
      PrintThenValue(n / 10);
      assert Print(n)[..|Print(n)| - 1] == Print(n / 10);
    }
  }

  lemma PrintIsInjective(m: nat, n: nat)
    requires Print(m) == Print(n)
    ensures m == n
  {
    PrintThenValue(m);
    PrintThenValue(n);
  }

  /** Printing a u32 and parsing the text gives the number back. */
  lemma ParsePrint(n: nat)
    requires n < U32_LIMIT
    ensures ParseU32(Print(n)) == Some(n)
  {
    PrintThenValue(n);
    assert IsDigit(Print(n)[0]);
  }
}
