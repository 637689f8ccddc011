/** Integer arithmetic the source does with `Math.ceil`. */
module Arithmetic {

  /** `Math.ceil(a / b)`, for any sign of `a`. */
  function CeilDiv(a: int, b: int): int
    requires b > 0
  {
    -((-a) / b)
  }

  /** It is the least integer whose product with `b` reaches `a`. */
  lemma CeilDivIsLeast(a: int, b: int, q: int)
    requires b > 0
    ensures a <= b * q <==> CeilDiv(a, b) <= q
  {
    var c := CeilDiv(a, b);
    assert b * (c - 1) < a <= b * c;
    if c <= q {
      assert b * c <= b * q;
    } else {
      assert b * q <= b * (c - 1);
    }
  }
}
