/** Decimal notation, as digit values. */
module Numerals {

  type Digit = d: int | 0 <= d < 10

  /** The decimal digits of a number, without leading zeros. */
  function Digits(n: nat): (ds: seq<Digit>)
    ensures ds != []
  {
    (if n < 10 then [] else Digits(n / 10)) + [n % 10]
  }

  function Value(ds: seq<Digit>): nat {
    if ds == [] then 0 else 10 * Value(ds[..|ds| - 1]) + ds[|ds| - 1]
  }

  lemma {:induction false} ValueOfDigits(n: nat)
    ensures Value(Digits(n)) == n
  {
    var ds := Digits(n);
    if n < 10 {
      assert ds[..|ds| - 1] == [];
    } else {
      assert ds[..|ds| - 1] == Digits(n / 10);
      ValueOfDigits(n / 10);
    }
  }
}
