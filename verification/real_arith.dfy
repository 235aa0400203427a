/** Facts of ordered-field arithmetic over `real`, each stated on its own so
    that the solver proves it without other non-linear facts in view. */
module RealArith {

  lemma MulMonotone(a: real, b: real, c: real)
    requires 0.0 <= c && a <= b
    ensures a * c <= b * c && c * a <= c * b
  {
  }

  lemma MulStrictMonotone(a: real, b: real, c: real)
    requires 0.0 < c && a < b
    ensures a * c < b * c && c * a < c * b
  {
  }

  lemma SquareNonNegative(a: real)
    ensures a * a >= 0.0
  {
    if a < 0.0 {
      assert a * a == (-a) * (-a);
      MulMonotone(0.0, -a, -a);
    } else {
      MulMonotone(0.0, a, a);
    }
  }

  lemma SquareMonotone(a: real, b: real)
    requires 0.0 <= a <= b
    ensures a * a <= b * b
    ensures a < b ==> a * a < b * b
  {
    calc {
      a * a;
    <= { MulMonotone(a, b, a); }
      b * a;
    <= { MulMonotone(a, b, b); }
      b * b;
    }
    if a < b {
      calc {
        a * a;
      <= { MulMonotone(a, b, a); }
        b * a;
      < { MulStrictMonotone(a, b, b); }
        b * b;
      }
    }
  }

  lemma SquareMonotoneConverse(a: real, b: real)
    requires 0.0 <= a && 0.0 <= b && a * a <= b * b
    ensures a <= b
  {
    if b < a {
      SquareMonotone(b, a);
    }
  }

  lemma DivSelf(q: real)
    requires q != 0.0
    ensures q / q == 1.0
  {
  }

  lemma MulDivCancel(x: real, b: real)
    requires b != 0.0
    ensures x / b * b == x
    ensures b * (x / b) == x
    ensures (b * x) / b == x
  {
  }

  /** Dividing by m and then multiplying by s is multiplying by s / m. */
  lemma DivThenMul(c: real, m: real, s: real)
    requires m != 0.0
    ensures c / m * s == (s / m) * c
  {
  }

  lemma DivMonotone(p: real, q: real, c: real)
    requires 0.0 < c && p <= q
    ensures p / c <= q / c
  {
    if p / c > q / c {
      calc {
        q;
      == { MulDivCancel(q, c); }
        q / c * c;
      < { MulStrictMonotone(q / c, p / c, c); }
        p / c * c;
      == { MulDivCancel(p, c); }
        p;
      }
    }
  }

  lemma QuotientBounds(p: real, q: real)
    requires 0.0 < q
    ensures 0.0 <= p ==> 0.0 <= p / q
    ensures 0.0 < p ==> 0.0 < p / q
    ensures p <= q ==> p / q <= 1.0
  {
    MulDivCancel(p, q);
    if 0.0 <= p {
      DivMonotone(0.0, p, q);
    }
    if p <= q {
      DivMonotone(p, q, q);
      DivSelf(q);
    }
  }

  /** Scaling both coordinates of (x, y) by k scales the sum of squares by k * k
      and the dot product with (x, y) by k. */
  lemma ScaleSquares(x: real, y: real, k: real)
    ensures (k * x) * (k * x) + (k * y) * (k * y) == (k * k) * (x * x + y * y)
    ensures (k * x) * x + (k * y) * y == k * (x * x + y * y)
    ensures (k * x) * y == (k * y) * x
  {
  }

  lemma ProductSquare(k: real, m: real)
    ensures (k * m) * (k * m) == (k * k) * (m * m)
  {
  }
}
