/** The JavaScript number operations the client uses, on the integers and
    reals that stand for IEEE doubles here. */
module JsMath {

  /** `Math.floor(Math.random() * n)`: the index a draw `rnd` from `[0, 1)`
      picks among `n` choices. */
  function RandomIndex(rnd: real, n: nat): (i: nat)
    requires 0.0 <= rnd < 1.0
    requires n > 0
    ensures i < n
  {
    var x := rnd * n as real;
    assert 0.0 <= x < n as real;
    x.Floor
  }

  /** Every one of the `n` choices is picked by some draw: the draw `i / n`
      picks index `i`. */
  lemma RandomIndexReaches(i: nat, n: nat)
    requires i < n
    ensures 0.0 <= i as real / n as real < 1.0
    ensures RandomIndex(i as real / n as real, n) == i
  {
    var rnd := i as real / n as real;
    assert rnd * n as real == i as real;
  }

  /** `Math.floor(a / b)` for a positive divisor: the quotient rounded
      towards negative infinity. */
  function FloorDiv(a: int, b: int): (q: int)
    requires b > 0
    ensures q * b <= a < (q + 1) * b
  {
    a / b
  }

  /** JavaScript's `a % b` for a positive divisor: the remainder of the
      quotient truncated towards zero, so it takes the sign of `a`. */
  function TruncRem(a: int, b: int): (r: int)
    requires b > 0
    ensures a >= 0 ==> 0 <= r < b && FloorDiv(a, b) * b + r == a
    ensures a < 0 ==> -b < r <= 0 && FloorDiv(-a, b) * b - r == -a
  {
    if a >= 0 then a % b else -((-a) % b)
  }
}
