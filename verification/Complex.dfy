/**
  Exact complex numbers, standing in for the (re, im) float pairs the C code
  carries side by side. Rounding is not modelled.
 */
module Complex {
  datatype Cx = Cx(re: real, im: real)

  const ZERO := Cx(0.0, 0.0)
  const ONE := Cx(1.0, 0.0)
  const MINUS_ONE := Cx(-1.0, 0.0)

  function Add(a: Cx, b: Cx): Cx {
    Cx(a.re + b.re, a.im + b.im)
  }

  function Sub(a: Cx, b: Cx): Cx {
    Cx(a.re - b.re, a.im - b.im)
  }

  function Mul(a: Cx, b: Cx): Cx {
    Cx(a.re * b.re - a.im * b.im, a.re * b.im + a.im * b.re)
  }

  function Pow(w: Cx, k: nat): Cx {
    if k == 0 then ONE else Mul(Pow(w, k - 1), w)
  }

  lemma MulAssoc(a: Cx, b: Cx, c: Cx)
    ensures Mul(Mul(a, b), c) == Mul(a, Mul(b, c))
  {}

  lemma MulDistribute(w: Cx, a: Cx, b: Cx)
    ensures Mul(w, Add(a, b)) == Add(Mul(w, a), Mul(w, b))
  {}

  lemma MulUnits(a: Cx)
    ensures Mul(a, ONE) == a && Mul(ONE, a) == a
    ensures Mul(a, MINUS_ONE) == Sub(ZERO, a)
  {}

  lemma PowStep(w: Cx, k: nat)
    ensures Pow(w, 0) == ONE && Pow(w, 1) == w
    ensures Pow(w, k + 1) == Mul(Pow(w, k), w)
  {
    assert Pow(w, 1) == Mul(Pow(w, 0), w);
  }

  lemma {:induction false} PowAdd(w: Cx, i: nat, j: nat)
    ensures Pow(w, i + j) == Mul(Pow(w, i), Pow(w, j))
  {
    if j != 0 {
      PowAdd(w, i, j - 1);
      MulAssoc(Pow(w, i), Pow(w, j - 1), w);
    }
  }

  /** Squaring the base doubles the exponent. */
  lemma {:induction false} PowSquare(w: Cx, k: nat)
    ensures Pow(Mul(w, w), k) == Pow(w, 2 * k)
  {
    if k != 0 {
      PowSquare(w, k - 1);
      var p := Pow(w, 2 * k - 2);
      assert Pow(w, 2 * k) == Mul(Mul(p, w), w);
      MulAssoc(p, w, w);
    }
  }

  /** Powers of w are unchanged when a multiple of w's order joins the exponent. */
  lemma {:induction false} PowPeriod(w: Cx, l: nat, e: nat, t: nat)
    requires Pow(w, l) == ONE
    ensures Pow(w, e + l * t) == Pow(w, e)
  {
    hide Mul, Pow;
    if t != 0 {
      PowPeriod(w, l, e, t - 1);
      var before: nat := e + l * (t - 1);
      assert e + l * t == before + l;
      PowAdd(w, before, l);
      MulUnits(Pow(w, before));
    }
  }
}
