/** Integers as decimal text: Rust's `to_string` and `parse::<i64>`. */
module Decimal {

  const I64_MIN: int := -0x8000_0000_0000_0000
  const I64_MAX: int := 0x7fff_ffff_ffff_ffff

  type I64 = n: int | I64_MIN <= n <= I64_MAX

  function Digit(d: nat): char
    requires d < 10
  {
    '0' + d as char
  }

  function Digits(n: nat): (s: string) {
    if n < 10 then [Digit(n)] else Digits(n / 10) + [Digit(n % 10)]
  }

  function Show(n: int): string {
    if n < 0 then "-" + Digits(-n) else Digits(n)
  }

  /** The value of a nonempty digit string, or -1. */
  function Value(s: string): (n: int)
    ensures n >= -1
  {
    if s == [] then -1 else
      var d := s[|s|-1];
      if !('0' <= d <= '9') then -1
      else if |s| == 1 then (d - '0') as int
      else
        var front := Value(s[..|s|-1]);
        if front < 0 then -1 else 10 * front + (d - '0') as int
  }

  /** An optional sign and digits; text that is no number, or out of range, reads as 0. */
  function ReadI64(s: string): I64 {
    if s == [] then 0 else
      var signed := s[0] == '-' || s[0] == '+';
      var v := Value(if signed then s[1..] else s);
      var n := if s[0] == '-' then -v else v;
      if v < 0 || !(I64_MIN <= n <= I64_MAX) then 0 else n
  }

  lemma {:induction false} DigitsRead(n: nat)
    ensures Value(Digits(n)) == n
    ensures Digits(n) != [] && '0' <= Digits(n)[0] <= '9'
  {
    if n >= 10 {
      DigitsRead(n / 10);
      assert Digits(n)[..|Digits(n)|-1] == Digits(n / 10);
    }
  }

  /** What is shown reads back, on the whole range of the type. */
  lemma {:induction false} ShowReads(n: I64)
    ensures ReadI64(Show(n)) == n
  {
    if n < 0 {
      var m: int := n;
      DigitsRead(-m);
      assert Show(n)[1..] == Digits(-m);
    } else {
      DigitsRead(n);
    }
  }
}
