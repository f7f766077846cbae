/**
  Why the stages compute the spectrum: after the stage for a length, the block
  that a position lies in holds the transform of an evenly spaced part of the
  input, and a butterfly joins two such parts into the one they came from.
 */
module FourierStages {
  import opened Complex
  import opened Division
  import opened FourierTransform

  function Sample(x: seq<Complex>, i: int): Complex
  {
    if 0 <= i < |x| then x[i] else ZERO
  }

  /** One term of a partial transform. */
  function Term(x: seq<Complex>, from: nat, stride: nat, w: Complex, k: nat, n: nat): Complex
  {
    assert n * k >= 0;
    Mul(Sample(x, from + n * stride), Pow(w, n * k))
  }

  /** Output k of the transform of `length` samples of x, `stride` apart. */
  function Part(x: seq<Complex>, from: nat, stride: nat, length: nat, w: Complex, k: nat): Complex
  {
    if length == 0 then ZERO
    else Add(Part(x, from, stride, length - 1, w, k), Term(x, from, stride, w, k, length - 1))
  }

  lemma {:induction false} WholeIsDft(x: seq<Complex>, w: Complex, k: nat, n: nat)
    requires n <= |x|
    ensures Part(x, 0, 1, n, w, k) == DftSum(x, w, k, n)
  {
    if n > 0 { WholeIsDft(x, w, k, n - 1); }
  }

  // ----- Splitting into even and odd terms -----

  lemma EvenTerm(x: seq<Complex>, from: nat, stride: nat, w: Complex, k: nat, n: nat)
    ensures Term(x, from, stride, w, k, 2 * n) == Term(x, from, 2 * stride, Pow(w, 2), k, n)
  {
    hide Mul, Pow;
    assert (2 * n) * stride == n * (2 * stride);
    assert n * k >= 0 && (2 * n) * k == 2 * (n * k);
    PowPow(w, 2, n * k);
  }

  lemma OddTerm(x: seq<Complex>, from: nat, stride: nat, w: Complex, k: nat, n: nat)
    ensures Term(x, from, stride, w, k, 2 * n + 1)
         == Mul(Pow(w, k), Term(x, from + stride, 2 * stride, Pow(w, 2), k, n))
  {
    hide Mul, Pow, Sample;
    OddPlace(stride, n);
    OddPlace(k, n);
    assert n * k >= 0;
    PowPow(w, 2, n * k);
    PowAdd(w, 2 * (n * k), k);
    var sample, p, q := Sample(x, from + (2 * n + 1) * stride), Pow(w, 2 * (n * k)), Pow(w, k);
    MulAssoc(sample, p, q);
    MulComm(Mul(sample, p), q);
  }

  lemma OddPlace(d: nat, n: nat)
    ensures (2 * n + 1) * d == 2 * (n * d) + d == d + n * (2 * d)
  {
  }

  lemma {:induction false} EvenAndOdd(x: seq<Complex>, from: nat, stride: nat, m: nat, w: Complex, k: nat)
    ensures Part(x, from, stride, 2 * m, w, k)
         == Add(Part(x, from, 2 * stride, m, Pow(w, 2), k),
                Mul(Pow(w, k), Part(x, from + stride, 2 * stride, m, Pow(w, 2), k)))
  {
    hide Mul, Pow, Add, Term;
    if m == 0 {
      Nothing(Pow(w, k));
    } else {
      EvenAndOdd(x, from, stride, m - 1, w, k);
      EvenTerm(x, from, stride, w, k, m - 1);
      OddTerm(x, from, stride, w, k, m - 1);
      var evens := Part(x, from, 2 * stride, m - 1, Pow(w, 2), k);
      var odds := Part(x, from + stride, 2 * stride, m - 1, Pow(w, 2), k);
      var even := Term(x, from, 2 * stride, Pow(w, 2), k, m - 1);
      var odd := Term(x, from + stride, 2 * stride, Pow(w, 2), k, m - 1);
      MulAdd(Pow(w, k), odds, odd);
      AddFour(evens, Mul(Pow(w, k), odds), even, Mul(Pow(w, k), odd));
    }
  }

  lemma Nothing(a: Complex)
    ensures Add(ZERO, Mul(a, ZERO)) == ZERO
  {
  }

  /** A partial transform repeats after as many outputs as its root has powers. */
  lemma {:induction false} Periodic(x: seq<Complex>, from: nat, stride: nat, length: nat, w: Complex, k: nat, period: nat)
    requires Pow(w, period) == ONE
    ensures Part(x, from, stride, length, w, k + period) == Part(x, from, stride, length, w, k)
  {
    hide Mul, Pow, Add;
    if length > 0 {
      var n := length - 1;
      Periodic(x, from, stride, n, w, k, period);
      assert n * k >= 0 && n * period >= 0 && n * (k + period) == n * k + period * n;
      PowAdd(w, n * k, period * n);
      PowPow(w, period, n);
      PowOne(n);
      MulOne(Pow(w, n * k));
    }
  }

  // ----- The roots -----

  lemma SquareIsPower(w: Complex)
    ensures Pow(w, 2) == Mul(w, w) && Pow(w, 1) == w && Pow(w, 0) == ONE
  {
    assert Pow(w, 1) == Mul(ONE, w);
    MulOne(w);
  }

  lemma {:induction false} HalfTurn(w: nat -> Complex, length: nat)
    requires Doubling(length) && length > 1 && Roots(w, length)
    ensures Pow(w(length), length / 2) == MINUS_ONE
  {
    hide Mul, Pow;
    SquareIsPower(w(length));
    if length > 2 {
      HalfTurn(w, length / 2);
      PowPow(w(length), 2, length / 4);
      assert 2 * (length / 4) == length / 2;
    }
  }

  lemma FullTurn(w: nat -> Complex, length: nat)
    requires Doubling(length) && Roots(w, length)
    ensures Pow(Root(w, length), length) == ONE
  {
    if length == 1 {
      PowOne(1);
    } else {
      HalfTurn(w, length);
      PowAdd(w(length), length / 2, length / 2);
      assert Mul(MINUS_ONE, MINUS_ONE) == ONE;
    }
  }

  lemma RootSquares(w: nat -> Complex, half: nat)
    requires half > 0 && Roots(w, 2 * half)
    ensures Pow(w(2 * half), 2) == Root(w, half)
  {
    SquareIsPower(w(2 * half));
    assert 2 * half / 2 == half;
    assert Mul(MINUS_ONE, MINUS_ONE) == ONE;
  }

  lemma {:induction false} RootsBelow(w: nat -> Complex, count: nat, length: nat)
    requires Doubling(count) && Doubling(length) && length <= count && Roots(w, count)
    ensures Roots(w, length)
    ensures count % length == 0
    decreases count
  {
    if length < count {
      HalfAtLeast(count, length);
      RootsBelow(w, count / 2, length);
      var q := count / 2 / length;
      assert count == 2 * (q * length);
      Multiple(count, 2 * q, length);
    }
  }

  lemma {:induction false} HalfAtLeast(count: nat, length: nat)
    requires Doubling(count) && Doubling(length) && length < count
    ensures length <= count / 2
  {
    if length > 1 { HalfAtLeast(count / 2, length / 2); }
  }

  // ----- What each position holds -----

  /** Position p after the stage for `length`, of which there are `stride` blocks. */
  function Held(x: seq<Complex>, w: nat -> Complex, length: nat, stride: nat, p: nat): Complex
    requires length > 0
  {
    Part(x, Reversed(stride, p / length), stride, length, Root(w, length), p % length)
  }

  lemma Twice(s: nat, half: nat)
    ensures 0 <= s * (2 * half) == (2 * s) * half
    ensures (2 * s + 1) * half == (2 * s) * half + half
  {
  }

  /** Where the two inputs and outputs of a butterfly lie. */
  lemma Places(half: nat, s: nat, offset: nat)
    requires offset < half
    ensures s * (2 * half) >= 0
    ensures var even := s * (2 * half) + offset; var odd := even + half;
            && even / half == 2 * s && even % half == offset
            && odd / half == 2 * s + 1 && odd % half == offset
            && even / (2 * half) == s && even % (2 * half) == offset
            && odd / (2 * half) == s && odd % (2 * half) == offset + half
  {
    var even := s * (2 * half) + offset;
    Twice(s, half);
    Quotient(even, half, 2 * s, offset);
    Quotient(even + half, half, 2 * s + 1, offset);
    Quotient(even, 2 * half, s, offset);
    Quotient(even + half, 2 * half, s, offset + half);
  }

  /** One butterfly: from the transforms of the two halves to that of the whole. */
  lemma Butterfly(x: seq<Complex>, w: nat -> Complex, half: nat, stride: nat, s: nat, offset: nat)
    requires offset < half && stride > 0 && Doubling(2 * half) && Roots(w, 2 * half)
    ensures s * (2 * half) >= 0
    ensures var even := s * (2 * half) + offset; var odd := even + half;
            var e := Held(x, w, half, 2 * stride, even);
            var t := Mul(Held(x, w, half, 2 * stride, odd), Pow(w(2 * half), offset));
            && Held(x, w, 2 * half, stride, even) == Add(e, t)
            && Held(x, w, 2 * half, stride, odd) == Sub(e, t)
  {
    hide Mul, Pow, Add, Sub, Part;
    var from := Reversed(stride, s);
    var root := w(2 * half);
    Places(half, s, offset);
    ReversedPair(stride, s);
    RootSquares(w, half);
    EvenAndOdd(x, from, stride, half, root, offset);
    EvenAndOdd(x, from, stride, half, root, offset + half);
    var evens := Part(x, from, 2 * stride, half, Root(w, half), offset);
    var odds := Part(x, from + stride, 2 * stride, half, Root(w, half), offset);
    assert 2 * half / 2 == half;
    FullTurn(w, half);
    Periodic(x, from, 2 * stride, half, Root(w, half), offset, half);
    Periodic(x, from + stride, 2 * stride, half, Root(w, half), offset, half);
    HalfTurn(w, 2 * half);
    PowAdd(root, offset, half);
    MulComm(Pow(root, offset), odds);
    Turned(evens, odds, Pow(root, offset));
  }

  lemma Turned(e: Complex, o: Complex, p: Complex)
    ensures Add(e, Mul(Mul(p, MINUS_ONE), o)) == Sub(e, Mul(o, p))
  {
  }

  lemma ReversedPair(stride: nat, s: nat)
    requires stride > 0
    ensures Reversed(2 * stride, 2 * s) == Reversed(stride, s)
    ensures Reversed(2 * stride, 2 * s + 1) == Reversed(stride, s) + stride
  {
    assert 2 * stride / 2 == stride && 2 * s / 2 == s && (2 * s + 1) / 2 == s;
  }

  /** Before the first stage: the permuted input. */
  lemma HeldFirst(x: seq<Complex>, w: nat -> Complex, p: nat)
    requires Doubling(|x|) && p < |x|
    ensures Reversed(|x|, p) < |x| && Held(x, w, 1, |x|, p) == x[Reversed(|x|, p)]
  {
    ReversedBelow(|x|, p);
    var from := Reversed(|x|, p);
    assert Part(x, from, |x|, 0, ONE, 0) == ZERO;
    assert Term(x, from, |x|, ONE, 0, 0) == Mul(x[from], ONE);
    MulOne(x[from]);
  }

  /** After the last one: the spectrum. */
  lemma HeldLast(x: seq<Complex>, w: nat -> Complex, p: nat)
    requires |x| > 1 && p < |x|
    ensures Held(x, w, |x|, 1, p) == Dft(x, w(|x|), p)
  {
    Quotient(p, |x|, 0, p);
    WholeIsDft(x, w(|x|), p, |x|);
  }
}
