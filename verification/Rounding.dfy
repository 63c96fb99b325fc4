/** Rounding to the nearest integer with ties to even, over exact rationals. */
module Rounding {
  function Round(x: real): int {
    var f := x.Floor;
    var d := x - f as real;
    if d < 0.5 then f else if d > 0.5 then f + 1 else if f % 2 == 0 then f else f + 1
  }

  function Abs(x: real): real {
    if x < 0.0 then -x else x
  }

  /** The rounded value is the only integer at most one half away that is even on a tie. */
  lemma RoundIsNearestEven(x: real, n: int)
    ensures n == Round(x) <==>
            Abs(x - n as real) <= 0.5 && (Abs(x - n as real) == 0.5 ==> n % 2 == 0)
  {
    var f := x.Floor;
    assert f as real <= x < f as real + 1.0;
    if Abs(x - n as real) <= 0.5 {
      assert n == f || n == f + 1;
    }
  }

  lemma RoundMonotone(x: real, y: real)
    requires x <= y
    ensures Round(x) <= Round(y)
  {
    RoundIsNearestEven(x, Round(x));
    RoundIsNearestEven(y, Round(y));
  }

  lemma RoundOdd(x: real)
    ensures Round(-x) == -Round(x)
  {
    RoundIsNearestEven(x, Round(x));
    RoundIsNearestEven(-x, -Round(x));
  }

  lemma RoundExact(n: int)
    ensures Round(n as real) == n
  {
    RoundIsNearestEven(n as real, n);
  }

  /** Rounding to four decimal places. */
  function Round4(x: real): real {
    Round(x * 10000.0) as real / 10000.0
  }

  lemma Round4IsClose(x: real)
    ensures Abs(Round4(x) - x) <= 0.00005
  {
    RoundIsNearestEven(x * 10000.0, Round(x * 10000.0));
  }

  lemma Round4Idempotent(x: real)
    ensures Round4(Round4(x)) == Round4(x)
  {
    var n := Round(x * 10000.0);
    assert n as real / 10000.0 * 10000.0 == n as real;
    RoundExact(n);
  }
}
