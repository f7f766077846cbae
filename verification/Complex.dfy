/** Exact complex arithmetic: pairs of reals. */
module Complex {

  datatype Complex = Complex(re: real, im: real)

  const ZERO := Complex(0.0, 0.0)
  const ONE := Complex(1.0, 0.0)
  const MINUS_ONE := Complex(-1.0, 0.0)

  function Add(a: Complex, b: Complex): Complex { Complex(a.re + b.re, a.im + b.im) }
  function Sub(a: Complex, b: Complex): Complex { Complex(a.re - b.re, a.im - b.im) }
  function Mul(a: Complex, b: Complex): Complex { Complex(a.re * b.re - a.im * b.im, a.re * b.im + a.im * b.re) }

  function Pow(w: Complex, n: nat): Complex
  {
    if n == 0 then ONE else Mul(Pow(w, n - 1), w)
  }

  lemma MulComm(a: Complex, b: Complex)
    ensures Mul(a, b) == Mul(b, a)
  {
  }

  lemma MulAssoc(a: Complex, b: Complex, c: Complex)
    ensures Mul(Mul(a, b), c) == Mul(a, Mul(b, c))
  {
  }

  lemma MulOne(a: Complex)
    ensures Mul(a, ONE) == a && Mul(ONE, a) == a
    ensures Sub(ZERO, a) == Mul(a, MINUS_ONE)
  {
  }

  lemma MulAdd(a: Complex, b: Complex, c: Complex)
    ensures Mul(a, Add(b, c)) == Add(Mul(a, b), Mul(a, c))
  {
  }

  /** Regrouping a sum of four. */
  lemma AddFour(a: Complex, b: Complex, c: Complex, d: Complex)
    ensures Add(Add(Add(a, b), c), d) == Add(Add(a, c), Add(b, d))
  {
  }

  lemma {:induction false} PowAdd(w: Complex, m: nat, n: nat)
    ensures Pow(w, m + n) == Mul(Pow(w, m), Pow(w, n))
  {
    hide Mul;
    if n == 0 {
      MulOne(Pow(w, m));
    } else {
      PowAdd(w, m, n - 1);
      MulAssoc(Pow(w, m), Pow(w, n - 1), w);
    }
  }

  lemma {:induction false} PowPow(w: Complex, m: nat, n: nat)
    ensures m * n >= 0 && Pow(Pow(w, m), n) == Pow(w, m * n)
  {
    hide Mul;
    assert m * n >= 0;
    if n > 0 {
      PowPow(w, m, n - 1);
      assert m * n == m * (n - 1) + m;
      PowAdd(w, m * (n - 1), m);
    }
  }

  lemma {:induction false} PowOne(n: nat)
    ensures Pow(ONE, n) == ONE
  {
    hide Mul;
    if n > 0 {
      PowOne(n - 1);
      MulOne(ONE);
    }
  }
}
