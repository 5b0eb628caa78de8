/** Small arithmetic, and decimal rounding as in `round(x, 4)`: to the nearest
    ten-thousandth, ties to the even one.  Floats are modelled as exact reals. */
module Arithmetic {
  function Min(a: real, b: real): real { if a <= b then a else b }

  function Max(a: real, b: real): real { if a >= b then a else b }

  function MinInt(a: int, b: int): int { if a <= b then a else b }

  function MaxInt(a: int, b: int): int { if a >= b then a else b }

  function Pow2(k: nat): (p: nat)
    ensures p >= 1
  {
    if k == 0 then 1 else 2 * Pow2(k - 1)
  }

  function RoundHalfEven(x: real): int {
    var low := x.Floor;
    var rest := x - low as real;
    if rest < 0.5 then low
    else if rest > 0.5 then low + 1
    else if low % 2 == 0 then low
    else low + 1
  }

  function Round4(x: real): real {
    RoundHalfEven(x * 10000.0) as real / 10000.0
  }

  ghost predicate OnGrid(x: real) {
    x == Round4(x)
  }

  lemma RoundWithin(x: real)
    ensures RoundHalfEven(x) as real - x <= 0.5 && x - RoundHalfEven(x) as real <= 0.5
  {
  }

  lemma RoundMonotone(x: real, y: real)
    requires x <= y
    ensures RoundHalfEven(x) <= RoundHalfEven(y)
  {
    assert x.Floor <= y.Floor;
    if x.Floor == y.Floor {
      assert x - x.Floor as real <= y - y.Floor as real;
    }
  }

  lemma RoundWhole(n: int)
    ensures RoundHalfEven(n as real) == n
  {
    assert (n as real).Floor == n;
  }

  lemma Round4Monotone(x: real, y: real)
    requires x <= y
    ensures Round4(x) <= Round4(y)
  {
    RoundMonotone(x * 10000.0, y * 10000.0);
  }

  lemma Round4Within(x: real)
    ensures Round4(x) - x <= 0.00005 && x - Round4(x) <= 0.00005
  {
    RoundWithin(x * 10000.0);
  }

  lemma Ten000ths(n: int)
    ensures OnGrid(n as real / 10000.0)
  {
    assert n as real / 10000.0 * 10000.0 == n as real;
    RoundWhole(n);
  }

  lemma Round4OnGrid(x: real)
    ensures OnGrid(Round4(x))
  {
    Ten000ths(RoundHalfEven(x * 10000.0));
  }
}
