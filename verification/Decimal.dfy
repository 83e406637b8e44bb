/**
 Decimal numerals as the formatter prints them and as unsigned parsing reads
 them. Shared by message framing and by temp-file names.
 */
module Decimal {
  import opened Bytes

  // Largest value of the source's 64-bit `usize`.
  const USIZE_MAX: nat := 0xFFFF_FFFF_FFFF_FFFF

  predicate IsDigit(c: char) { '0' <= c <= '9' }

  predicate AllDigits(s: string) {
    forall i :: 0 <= i < |s| ==> IsDigit(s[i])
  }

  function Digit(d: nat): (c: char)
    requires d < 10
    ensures IsDigit(c) && c as int - '0' as int == d
  {
    (d + '0' as int) as char
  }

  // The numeral printed by the `{}` formatter.
  function Print(n: nat): (s: string)
    ensures |s| > 0 && AllDigits(s)
  {
    if n < 10 then [Digit(n)] else Print(n / 10) + [Digit(n % 10)]
  }

  // The number a digit string denotes.
  function Value(s: string): nat
    requires AllDigits(s)
  {
    if s == [] then 0
    else 10 * Value(s[..|s| - 1]) + (s[|s| - 1] as int - '0' as int)
  }

  // `str::parse::<usize>`: one optional '+', at least one digit, no overflow.
  function ParseUsize(s: string): Option<nat> {
    var digits := if s != [] && s[0] == '+' then s[1..] else s;
    if digits == [] || !AllDigits(digits) then None
    else if Value(digits) > USIZE_MAX then None
    else Some(Value(digits))
  }

  lemma {:induction false} ValueOfPrint(n: nat)
    ensures Value(Print(n)) == n
  {
    if n >= 10 {
      ValueOfPrint(n / 10);
      assert Print(n)[..|Print(n)| - 1] == Print(n / 10);
    } else {
      assert Print(n)[..0] == [];
    }
  }

  // Printing then parsing returns the number exactly when it fits a `usize`.
  lemma ParseOfPrint(n: nat)
    ensures ParseUsize(Print(n)) == if n <= 0xFFFF_FFFF_FFFF_FFFF then Some(n) else None
  {
    ValueOfPrint(n);
    assert IsDigit(Print(n)[0]);
  }

  lemma PrintInjective(m: nat, n: nat)
    requires Print(m) == Print(n)
    ensures m == n
  {
    ValueOfPrint(m);
    ValueOfPrint(n);
  }

  function Pow10(k: nat): (p: nat)
    ensures p > 0
  {
    if k == 0 then 1 else 10 * Pow10(k - 1)
  }

  lemma {:induction false} PrintLength(n: nat, k: nat)
    requires k > 0 && n < Pow10(k)
    ensures |Print(n)| <= k
  {
    if n >= 10 {
      assert Pow10(1) == 10;
      PrintLength(n / 10, k - 1);
    }
  }

  // A leading zero is printed for zero only, and then nothing else.
  lemma {:induction false} PrintCanonical(n: nat)
    ensures Print(n)[0] == '0' <==> n == 0
    ensures Print(0) == "0"
  {
    if n >= 10 { PrintCanonical(n / 10); }
  }

  // Digits weigh ten times what those after them do.
  lemma {:induction false} ValueConcat(a: string, b: string)
    requires AllDigits(a) && AllDigits(b)
    ensures AllDigits(a + b) && Value(a + b) == Value(a) * Pow10(|b|) + Value(b)
    decreases |b|
  {
    if b == [] {
      assert a + b == a;
    } else {
      var front, last := b[..|b| - 1], b[|b| - 1];
      ValueConcat(a, front);
      ValueLast(a + b, a + front, last);
      ValueLast(b, front, last);
      TenTimes(Value(a), Pow10(|front|));
    }
  }

  lemma ValueLast(s: string, front: string, last: char)
    requires s == front + [last] && AllDigits(s)
    ensures AllDigits(front) && Value(s) == 10 * Value(front) + (last as int - '0' as int)
  {
    assert s[..|s| - 1] == front;
    assert forall i :: 0 <= i < |front| ==> front[i] == s[i];
  }

  lemma TenTimes(v: nat, p: nat)
    ensures 10 * (v * p) == v * (10 * p)
  {
  }
}
