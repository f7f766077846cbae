/**
  The radix-2 transform, in place, against the sum that defines the spectrum.

  Arithmetic is exact.  The sines and cosines enter as one root of unity for each
  stage, with the two facts about them that matter: the root for length 2 is -1,
  and the root for a length squares to the root for half of it.
 */
module FourierTransform {
  import opened Complex

  // ----- Powers of two -----

  /** a & b */
  function And(a: nat, b: nat): nat
  {
    if a == 0 || b == 0 then 0 else 2 * And(a / 2, b / 2) + (a % 2) * (b % 2)
  }

  function IsPowerOfTwo(value: nat): bool
  {
    value != 0 && And(value, value - 1) == 0
  }

  predicate Doubling(n: nat)
  {
    n == 1 || (n > 1 && n % 2 == 0 && Doubling(n / 2))
  }

  lemma {:induction false} AndSelf(a: nat)
    ensures And(a, a) == a
  {
    if a > 0 { AndSelf(a / 2); }
  }

  lemma {:induction false} PowersOfTwo(value: nat)
    ensures IsPowerOfTwo(value) <==> Doubling(value)
  {
    if value > 1 {
      if value % 2 == 0 {
        assert (value - 1) / 2 == value / 2 - 1;
        PowersOfTwo(value / 2);
      } else {
        AndSelf(value / 2);
        assert (value - 1) / 2 == value / 2;
      }
    }
  }

  // ----- What the transform is to compute -----

  /** The first n terms of sum x[n] * w^(n k). */
  function DftSum(x: seq<Complex>, w: Complex, k: nat, n: nat): Complex
    requires n <= |x|
  {
    if n == 0 then ZERO else
      assert (n - 1) * k >= 0;
      Add(DftSum(x, w, k, n - 1), Mul(x[n - 1], Pow(w, (n - 1) * k)))
  }

  /** X[k] = sum over n of x[n] * w^(n k) */
  function Dft(x: seq<Complex>, w: Complex, k: nat): Complex
  {
    DftSum(x, w, k, |x|)
  }

  /** The root of each stage, halfway down to length 2. */
  predicate Roots(w: nat -> Complex, length: nat)
  {
    if length <= 1 then true
    else if length == 2 then w(2) == MINUS_ONE
    else length % 2 == 0 && Mul(w(length), w(length)) == w(length / 2) && Roots(w, length / 2)
  }

  function Root(w: nat -> Complex, length: nat): Complex
  {
    if length <= 1 then ONE else w(length)
  }

  /** Roots can be met: by the values a cosine and a sine have where these are
      rational, a half turn for length 2 and a quarter turn for length 4. */
  lemma ExactRoots(w: nat -> Complex)
    requires w(2) == MINUS_ONE && w(4) == Complex(0.0, -1.0)
    ensures Roots(w, 4)
  {
    assert Mul(w(4), w(4)) == MINUS_ONE;
  }

  function Signal(re: seq<real>, im: seq<real>): (s: seq<Complex>)
    requires |re| == |im|
    ensures |s| == |re|
    ensures forall i :: 0 <= i < |s| ==> s[i] == Complex(re[i], im[i])
  {
    if re == [] then [] else Signal(re[..|re| - 1], im[..|re| - 1]) + [Complex(re[|re| - 1], im[|re| - 1])]
  }

  // ----- Bit reversal -----

  /** i with its bits reversed, as an index below count. */
  function Reversed(count: nat, i: nat): nat
  {
    if count <= 1 then 0 else Reversed(count / 2, i / 2) + (if i % 2 == 1 then count / 2 else 0)
  }

  lemma {:induction false} ReversedBelow(count: nat, i: nat)
    requires Doubling(count)
    ensures Reversed(count, i) < count
  {
    if count > 1 { ReversedBelow(count / 2, i / 2); }
  }

  lemma {:induction false} ReversedZero(count: nat)
    ensures Reversed(count, 0) == 0
  {
    if count > 1 { ReversedZero(count / 2); }
  }

  /** The same permutation with the top bit taken off first. */
  lemma {:induction false} ReversedTop(count: nat, i: nat)
    requires Doubling(count) && count > 1 && i < count
    ensures var half := count / 2;
            Reversed(count, i) == if i < half then 2 * Reversed(half, i) else 2 * Reversed(half, i - half) + 1
  {
    var half := count / 2;
    if half > 1 {
      ReversedTop(half, i / 2);
      if i >= half { assert (i - half) / 2 == i / 2 - half / 2 && (i - half) % 2 == i % 2; }
    }
  }

  lemma {:induction false} ReversedTwice(count: nat, i: nat)
    requires Doubling(count) && i < count
    ensures Reversed(count, Reversed(count, i)) == i
  {
    if count > 1 {
      var half := count / 2;
      ReversedBelow(half, i / 2);
      ReversedBelow(count, i);
      ReversedTwice(half, i / 2);
      ReversedTop(count, Reversed(count, i));
    }
  }

  /** j & bit and j ^ bit, for a bit that is a power of two. */
  predicate HasBit(j: nat, bit: nat) requires bit > 0 { j / bit % 2 != 0 }

  function Toggle(j: nat, bit: nat): nat
    requires bit > 0
  {
    if HasBit(j, bit) then BitFits(j, bit); j - bit else j + bit
  }

  lemma BitFits(j: nat, bit: nat)
    requires bit > 0
    ensures j < bit ==> !HasBit(j, bit)
    ensures bit <= j < 2 * bit ==> HasBit(j, bit)
  {
    if j < bit { assert j / bit == 0; }
    if bit <= j < 2 * bit { assert j == bit * 1 + (j - bit); assert j / bit == 1; }
  }

  /** The carry loop, seen from the bit it has come to: j is the reversal of s in
      the bits from there down, and clearing the bit or setting it is the step to s + 1. */
  lemma CarryStep(bit: nat, s: nat)
    requires bit > 0 && Doubling(2 * bit) && s + 1 < 2 * bit
    ensures var j := Reversed(2 * bit, s);
            if HasBit(j, bit) then
              && j >= bit && bit > 1 && j - bit == Reversed(bit, s / 2)
              && s / 2 + 1 < bit && Reversed(2 * bit, s + 1) == Reversed(bit, s / 2 + 1)
            else
              Reversed(2 * bit, s + 1) == j + bit
  {
    hide HasBit;
    var j := Reversed(2 * bit, s);
    assert 2 * bit / 2 == bit;
    ReversedBelow(bit, s / 2);
    BitFits(j, bit);
    if s % 2 == 1 {
      assert (s + 1) / 2 == s / 2 + 1 && (s + 1) % 2 == 0;
    } else {
      assert (s + 1) / 2 == s / 2 && (s + 1) % 2 == 1;
    }
  }

  /** The reversed counter, stepped from the reversal of i to that of i + 1. */
  method NextReversed(count: nat, j: nat, ghost i: nat) returns (next: nat)
    requires Doubling(count) && count > 1 && i + 1 < count && j == Reversed(count, i)
    ensures next == Reversed(count, i + 1)
  {
    hide Reversed, HasBit;
    assert 2 * (count / 2) == count;
    next := j;
    var bit: nat := count / 2;
    ghost var s: nat := i;
    CarryStep(bit, s);
    while HasBit(next, bit)
      invariant bit > 0 && Doubling(2 * bit) && s + 1 < 2 * bit
      invariant next == Reversed(2 * bit, s)
      invariant Reversed(2 * bit, s + 1) == Reversed(count, i + 1)
      decreases bit
    {
      CarryStep(bit, s);
      next := Toggle(next, bit);
      bit := bit / 2;
      s := s / 2;
    }
    CarryStep(bit, s);
    next := Toggle(next, bit);
  }
}
