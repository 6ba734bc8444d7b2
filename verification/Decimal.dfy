/**
 * Decimal printing and parsing of machine integers, as Rust's `to_string` and `parse` do it.
 * Batch ids, paging offsets and the numbers of a stored batch line all go through it.
 */
module Decimal {
  import opened Wrappers

  predicate IsDigit(c: char) { '0' <= c <= '9' }

  function Digit(d: nat): (c: char)
    requires d < 10
    ensures IsDigit(c) && DigitValue(c) == d
  {
    ('0' as int + d) as char
  }

  function DigitValue(c: char): (d: nat)
    requires IsDigit(c)
    ensures d < 10
  {
    c as int - '0' as int
  }

  predicate AllDigits(s: string) { forall i | 0 <= i < |s| :: IsDigit(s[i]) }

  function Digits(n: nat): (s: string)
    ensures |s| > 0 && AllDigits(s)
  {
    if n < 10 then [Digit(n)] else Digits(n / 10) + [Digit(n % 10)]
  }

  function DigitsValue(s: string): nat
    requires AllDigits(s)
  {
    if s == "" then 0 else DigitsValue(s[..|s| - 1]) * 10 + DigitValue(s[|s| - 1])
  }

  function Print(i: int): string {
    if i < 0 then "-" + Digits(-i) else Digits(i)
  }

  /** `str::parse` for an integer type with range `lo..=hi`; an unsigned type (`lo == 0`) takes no minus sign. */
  function Parse(s: string, lo: int, hi: int): (r: Option<int>)
    ensures r.Some? ==> lo <= r.value <= hi
  {
    var negative := lo < 0 && |s| > 0 && s[0] == '-';
    var body := if negative || (|s| > 0 && s[0] == '+') then s[1..] else s;
    if body == "" || !AllDigits(body) then None
    else
      var v := if negative then -(DigitsValue(body) as int) else DigitsValue(body);
      if lo <= v <= hi then Some(v) else None
  }

  lemma {:induction false} DigitsValueOfDigits(n: nat)
    ensures DigitsValue(Digits(n)) == n
  {
    if n >= 10 {
      DigitsValueOfDigits(n / 10);
      assert Digits(n)[..|Digits(n)| - 1] == Digits(n / 10);
    }
  }

  lemma ParsePrint(i: int, lo: int, hi: int)
    requires lo <= i <= hi && lo <= 0
    ensures Parse(Print(i), lo, hi) == Some(i)
  {
    if i < 0 {
      DigitsValueOfDigits(-i);
      assert Print(i)[1..] == Digits(-i);
    } else {
      DigitsValueOfDigits(i);
      assert IsDigit(Digits(i)[0]);
    }
  }

  /** The digits are those of base ten, the most significant first. */
  lemma PrintedInTens()
    ensures Print(1203) == "1203" && Print(-70) == "-70"
  {
    assert Digits(1) == "1";
    assert Digits(12) == Digits(1) + "2" == "12";
    assert Digits(120) == Digits(12) + "0" == "120";
    assert Digits(7) == "7";
  }
}
