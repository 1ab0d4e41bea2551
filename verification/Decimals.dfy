/** Numbers written in decimal digits, as keys and headers carry them. */
module Decimals {

  predicate IsDigit(c: char) {
    '0' <= c <= '9'
  }

  predicate AllDigits(s: string) {
    forall i :: 0 <= i < |s| ==> IsDigit(s[i])
  }

  /** The value of a text of digits; the empty text counts as zero. */
  function Number(s: string): nat
    requires AllDigits(s)
  {
    if s == [] then 0 else Number(s[..|s| - 1]) * 10 + (s[|s| - 1] as int - '0' as int)
  }

  function Decimal(n: nat): (s: string)
    ensures s != [] && AllDigits(s)
  {
    var digit := [('0' as int + n % 10) as char];
    if n < 10 then digit else Decimal(n / 10) + digit
  }

  /** The decimal text of a number, filled with zeros on the left up to the given width. */
  function Padded(n: nat, width: nat): (s: string)
    ensures s != [] && AllDigits(s) && |s| >= width
  {
    Zeros(width - |Decimal(n)|) + Decimal(n)
  }

  function Zeros(count: int): (s: string)
    ensures AllDigits(s) && |s| == if count < 0 then 0 else count
  {
    if count <= 0 then [] else ['0'] + Zeros(count - 1)
  }

  lemma {:induction false} NumberOfDecimal(n: nat)
    ensures Number(Decimal(n)) == n
  {
    if n >= 10 {
      NumberOfDecimal(n / 10);
      assert Decimal(n)[..|Decimal(n)| - 1] == Decimal(n / 10);
    }
  }

  lemma {:induction false} LeadingZero(s: string)
    requires AllDigits(s)
    ensures Number(['0'] + s) == Number(s)
  {
    var t := ['0'] + s;
    if s == [] {
      assert t[..0] == [];
    } else {
      LeadingZero(s[..|s| - 1]);
      assert t[..|t| - 1] == ['0'] + s[..|s| - 1];
    }
  }

  lemma {:induction false} LeadingZeros(count: int, s: string)
    requires AllDigits(s)
    ensures Number(Zeros(count) + s) == Number(s)
  {
    if count <= 0 {
      assert Zeros(count) + s == s;
    } else {
      var rest := Zeros(count - 1);
      assert Zeros(count) == ['0'] + rest;
      hide Number, Zeros;
      LeadingZeros(count - 1, s);
      LeadingZero(rest + s);
      assert ['0'] + rest + s == ['0'] + (rest + s);
    }
  }

  /** Padding loses nothing, so different numbers have different texts. */
  lemma NumberOfPadded(n: nat, width: nat)
    ensures Number(Padded(n, width)) == n
  {
    LeadingZeros(width - |Decimal(n)|, Decimal(n));
    NumberOfDecimal(n);
  }
}
