/** Bounded arithmetic and the facts about multiplication and division that the models need. */
module Arithmetic {
  const U64_MAX: nat := 0xFFFF_FFFF_FFFF_FFFF

  function Min(a: nat, b: nat): nat {
    if a <= b then a else b
  }

  function Max(a: nat, b: nat): nat {
    if a >= b then a else b
  }

  function SaturatingSub(a: nat, b: nat): nat {
    if a >= b then a - b else 0
  }

  lemma MulMonotone(w: nat, x: int, y: int)
    requires x <= y
    ensures w * x <= w * y
  {
  }

  lemma DivMonotone(a: nat, b: nat, w: nat)
    requires a <= b && w > 0
    ensures a / w <= b / w
  {
    if b / w + 1 <= a / w {
      MulMonotone(w, b / w + 1, a / w);
    }
  }

  /** A quotient is below `q` exactly when the dividend is below `q` times the divisor. */
  lemma DivBelow(n: nat, w: nat, q: nat)
    requires w > 0
    ensures n / w < q <==> n < w * q
  {
    var d, r := n / w, n % w;
    assert n == w * d + r && r < w;
    if d < q {
      MulMonotone(w, d + 1, q);
      assert w * (d + 1) == w * d + w;
    } else {
      MulMonotone(w, q, d);
    }
  }

  /** With `b` more in the divisor, a quotient stays unless that takes up more than the remainder. */
  lemma DivEnlarged(n: nat, w: nat, b: nat)
    requires w > 0
    ensures n < (w + b) * (n / w) <==> (n / w) * b > n % w
  {
    var q := n / w;
    assert n == w * q + n % w;
    assert (w + b) * q == w * q + q * b;
  }
}
