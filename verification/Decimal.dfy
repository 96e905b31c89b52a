/** Decimal printing of counters, as `format!("{}")` and Kotlin string templates do it. */
module Decimal {

  function Print(n: nat): (s: string)
    ensures |s| >= 1
  {
    if n < 10 then [('0' as int + n) as char] else Print(n / 10) + [('0' as int + n % 10) as char]
  }

  /** The number a digit string stands for; the left inverse of printing. */
  function Value(s: string): int {
    if s == [] then 0 else Value(s[..|s| - 1]) * 10 + (s[|s| - 1] as int - '0' as int)
  }

  lemma {:induction false} ValueOfPrint(n: nat)
    ensures Value(Print(n)) == n
  {
    if n < 10 {
      assert Print(n)[..0] == [];
    } else {
      ValueOfPrint(n / 10);
      assert Print(n)[..|Print(n)| - 1] == Print(n / 10);
    }
  }

  /** Different numbers never print alike. */
  lemma PrintIsInjective(m: nat, n: nat)
    requires Print(m) == Print(n)
    ensures m == n
  {
    ValueOfPrint(m);
    ValueOfPrint(n);
  }

  /** Nor do they when a common prefix is put in front. */
  lemma PrefixedPrintIsInjective(prefix: string, m: nat, n: nat)
    requires prefix + Print(m) == prefix + Print(n)
    ensures m == n
  {
    assert (prefix + Print(m))[|prefix|..] == Print(m);
    assert (prefix + Print(n))[|prefix|..] == Print(n);
    PrintIsInjective(m, n);
  }

  /** The number of a text of decimal digits, most significant first. */
  lemma {:induction false} PrintForm(n: nat)
    ensures forall i :: 0 <= i < |Print(n)| ==> '0' <= Print(n)[i] <= '9'
    ensures n > 0 ==> Print(n)[0] != '0'
    ensures Print(n)[|Print(n)| - 1] == "0123456789"[n % 10]
  {
    if n >= 10 {
      PrintForm(n / 10);
    }
  }
}
