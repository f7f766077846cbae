/** ForwardTransform: the two arrays permuted and overwritten in place. */
module FourierInPlace {
  import opened Complex
  import opened Division
  import opened FourierTransform
  import opened FourierStages

  /** The signal with its samples in bit-reversed order. */
  ghost predicate Permuted(x: seq<Complex>, a: seq<Complex>)
  {
    |a| == |x| && forall p :: 0 <= p < |a| ==> a[p] == Sample(x, Reversed(|x|, p))
  }

  /** Positions whose index or reversed index is below i are already in place. */
  ghost predicate PermutedBelow(x: seq<Complex>, a: seq<Complex>, i: nat)
  {
    && |a| == |x|
    && forall p :: 0 <= p < |a| ==>
         a[p] == if p < i || Reversed(|x|, p) < i then Sample(x, Reversed(|x|, p)) else x[p]
  }

  lemma SwapInPlace(x: seq<Complex>, a: seq<Complex>, i: nat, j: nat)
    requires Doubling(|x|) && i < |x| && j == Reversed(|x|, i) && j < |x| && PermutedBelow(x, a, i)
    ensures PermutedBelow(x, if i < j then a[i := a[j]][j := a[i]] else a, i + 1)
  {
    var b := if i < j then a[i := a[j]][j := a[i]] else a;
    ReversedTwice(|x|, i);
    forall p | 0 <= p < |x|
      ensures b[p] == if p < i + 1 || Reversed(|x|, p) < i + 1 then Sample(x, Reversed(|x|, p)) else x[p]
    {
      ReversedTwice(|x|, p);
    }
  }

  method Permute(re: array<real>, im: array<real>)
    requires re != im && re.Length == im.Length && Doubling(re.Length) && re.Length > 1
    modifies re, im
    ensures Permuted(Signal(old(re[..]), old(im[..])), Signal(re[..], im[..]))
  {
    hide Reversed;
    var count := re.Length;
    ghost var x := Signal(re[..], im[..]);
    ReversedZero(count);
    var i, j := 1, 0;
    Start(x);
    while i < count
      invariant 1 <= i <= count && j == Reversed(count, i - 1)
      invariant PermutedBelow(x, Signal(re[..], im[..]), i)
    {
      j := NextReversed(count, j, i - 1);
      ReversedBelow(count, i);
      SwapInPlace(x, Signal(re[..], im[..]), i, j);
      if i < j {
        Swap(re, im, i, j);
      }
      i := i + 1;
    }
  }

  lemma Start(x: seq<Complex>)
    requires Doubling(|x|)
    ensures PermutedBelow(x, x, 1)
  {
    forall p | 0 <= p < |x| ensures x[p] == if p < 1 || Reversed(|x|, p) < 1 then Sample(x, Reversed(|x|, p)) else x[p] {
      ReversedTwice(|x|, p);
      ReversedZero(|x|);
    }
  }

  method Swap(re: array<real>, im: array<real>, i: nat, j: nat)
    requires re != im && re.Length == im.Length && i < j < re.Length
    modifies re, im
    ensures var a := Signal(old(re[..]), old(im[..])); Signal(re[..], im[..]) == a[i := a[j]][j := a[i]]
  {
    re[i], re[j] := re[j], re[i];
    im[i], im[j] := im[j], im[i];
  }

  // ----- Stages -----

  /** In the middle of a stage: everything before `start` is done, and the first
      `offset` butterflies of the block that begins there. */
  ghost predicate Joining(x: seq<Complex>, w: nat -> Complex, a: seq<Complex>,
                          half: nat, stride: nat, start: nat, offset: nat)
    requires half > 0
  {
    && |a| == |x|
    && forall p :: 0 <= p < |a| ==>
         a[p] == if p < start + offset || start + half <= p < start + half + offset
                 then Held(x, w, 2 * half, stride, p) else Held(x, w, half, 2 * stride, p)
  }

  ghost predicate Staged(x: seq<Complex>, w: nat -> Complex, a: seq<Complex>, length: nat, stride: nat)
    requires length > 0
  {
    |a| == |x| && forall p :: 0 <= p < |a| ==> a[p] == Held(x, w, length, stride, p)
  }

  /** The two outputs of a butterfly, put where its inputs were. */
  function Joined(a: seq<Complex>, even: nat, odd: nat, twiddle: Complex): (b: seq<Complex>)
    requires even < odd < |a|
    ensures |b| == |a|
  {
    var t := Mul(a[odd], twiddle);
    a[odd := Sub(a[even], t)][even := Add(a[even], t)]
  }

  lemma JoinOne(x: seq<Complex>, w: nat -> Complex, a: seq<Complex>, half: nat, stride: nat, s: nat, offset: nat)
    requires offset < half && stride > 0 && Doubling(2 * half) && Roots(w, 2 * half)
    requires s * (2 * half) >= 0 && s * (2 * half) + 2 * half <= |a|
    requires Joining(x, w, a, half, stride, s * (2 * half), offset)
    ensures var even := s * (2 * half) + offset;
            Joining(x, w, Joined(a, even, even + half, Pow(w(2 * half), offset)), half, stride, s * (2 * half), offset + 1)
  {
    hide Held, Mul, Add, Sub, Pow;
    Butterfly(x, w, half, stride, s, offset);
  }

  method Join(re: array<real>, im: array<real>, even: nat, odd: nat, twiddle: Complex)
    requires re != im && re.Length == im.Length && even < odd < re.Length
    modifies re, im
    ensures Signal(re[..], im[..]) == Joined(Signal(old(re[..]), old(im[..])), even, odd, twiddle)
  {
    ghost var a := Signal(re[..], im[..]);
    ghost var t := Mul(a[odd], twiddle);
    var oddRe := re[odd] * twiddle.re - im[odd] * twiddle.im;
    var oddIm := re[odd] * twiddle.im + im[odd] * twiddle.re;
    re[odd] := re[even] - oddRe;
    im[odd] := im[even] - oddIm;
    re[even] := re[even] + oddRe;
    im[even] := im[even] + oddIm;
    ghost var b := Signal(re[..], im[..]);
    assert b[even] == Add(a[even], t) && b[odd] == Sub(a[even], t);
    assert b == Joined(a, even, odd, twiddle);
  }

  /** The butterflies of the s-th block. */
  method JoinBlock(re: array<real>, im: array<real>, w: nat -> Complex, half: nat, start: nat,
                   ghost x: seq<Complex>, ghost stride: nat, ghost s: nat)
    requires re != im && re.Length == im.Length
    requires half > 0 && stride > 0 && Doubling(2 * half) && Roots(w, 2 * half)
    requires start == s * (2 * half) && start + 2 * half <= re.Length
    requires Joining(x, w, Signal(re[..], im[..]), half, stride, start, 0)
    modifies re, im
    ensures Joining(x, w, Signal(re[..], im[..]), half, stride, start + 2 * half, 0)
  {
    hide Joined, Mul, Held, Roots, Joining;
    var step := w(2 * half);
    var twiddle := ONE;
    var offset := 0;
    while offset < half
      invariant offset <= half && twiddle == Pow(step, offset)
      invariant Joining(x, w, Signal(re[..], im[..]), half, stride, start, offset)
    {
      JoinOne(x, w, Signal(re[..], im[..]), half, stride, s, offset);
      Join(re, im, start + offset, start + offset + half, twiddle);
      twiddle := Mul(twiddle, step);
      offset := offset + 1;
    }
    NextBlock(x, w, Signal(re[..], im[..]), half, stride, start);
  }

  lemma NextBlock(x: seq<Complex>, w: nat -> Complex, a: seq<Complex>, half: nat, stride: nat, start: nat)
    requires half > 0 && Joining(x, w, a, half, stride, start, half)
    ensures Joining(x, w, a, half, stride, start + 2 * half, 0)
  {
  }

  /** One stage: from transforms of half the length to transforms of the length. */
  method Stage(re: array<real>, im: array<real>, w: nat -> Complex, length: nat,
               ghost x: seq<Complex>, ghost stride: nat)
    requires re != im && re.Length == im.Length == |x|
    requires length > 1 && Doubling(length) && Roots(w, length) && stride > 0 && stride * length == |x|
    requires Staged(x, w, Signal(re[..], im[..]), length / 2, 2 * stride)
    modifies re, im
    ensures Staged(x, w, Signal(re[..], im[..]), length, stride)
  {
    hide Held, Roots, Doubling, Signal;
    ghost var half := length / 2;
    assert 2 * half == length by { Even(length); }
    var start := 0;
    ghost var s := 0;
    while start < re.Length
      invariant 0 <= s <= stride && start == s * length
      invariant Joining(x, w, Signal(re[..], im[..]), half, stride, start, 0)
      decreases stride - s
    {
      OneMoreBlock(s, stride, length);
      JoinBlock(re, im, w, length / 2, start, x, stride, s);
      start := start + length;
      s := s + 1;
    }
  }

  lemma Even(length: nat)
    requires length > 1 && Doubling(length)
    ensures 2 * (length / 2) == length
  {
  }

  lemma OneMoreBlock(s: nat, stride: nat, length: nat)
    requires s <= stride && s * length < stride * length
    ensures s < stride && s * length + length == (s + 1) * length <= stride * length
  {
    assert s != stride;
    Apart(s, stride, length);
  }

  /** The transform: false, and nothing touched, unless both arrays have the same
      power-of-two length; otherwise the spectrum of what they held. */
  method ForwardTransform(re: array<real>, im: array<real>, w: nat -> Complex) returns (ok: bool)
    requires re != im
    requires IsPowerOfTwo(re.Length) ==> Roots(w, re.Length)
    modifies re, im
    ensures ok <==> re.Length == im.Length && IsPowerOfTwo(re.Length)
    ensures !ok ==> re[..] == old(re[..]) && im[..] == old(im[..])
    ensures ok ==> IsSpectrum(Signal(old(re[..]), old(im[..])), w(re.Length), Signal(re[..], im[..]))
  {
    var count := re.Length;
    if count != im.Length || !IsPowerOfTwo(count) {
      return false;
    }
    ghost var x := Signal(re[..], im[..]);
    if count == 1 {
      SingleSample(x, w(1));
      return true;
    }
    PowersOfTwo(count);
    Permute(re, im);
    PermutedIsStaged(x, w, Signal(re[..], im[..]));
    Stages(re, im, w, x);
    ok := true;
  }

  method Stages(re: array<real>, im: array<real>, w: nat -> Complex, ghost x: seq<Complex>)
    requires re != im && re.Length == im.Length == |x|
    requires |x| > 1 && Doubling(|x|) && Roots(w, |x|)
    requires Staged(x, w, Signal(re[..], im[..]), 1, |x|)
    modifies re, im
    ensures IsSpectrum(x, w(|x|), Signal(re[..], im[..]))
  {
    hide Staged, Signal;
    var count := re.Length;
    var length := 2;
    ghost var stride: nat := count / 2;
    while length <= count
      invariant length > 1 && Doubling(length)
      invariant if length <= count then Doubling(stride) && stride * length == count else length == 2 * count
      invariant Staged(x, w, Signal(re[..], im[..]), length / 2, if length <= count then 2 * stride else 1)
      decreases 2 * count - length
    {
      RootsBelow(w, count, length);
      Stage(re, im, w, length, x, stride);
      NextStride(count, length, stride);
      length := length * 2;
      stride := stride / 2;
    }
    StagedIsSpectrum(x, w, Signal(re[..], im[..]));
  }

  lemma NextStride(count: nat, length: nat, stride: nat)
    requires length > 1 && Doubling(length) && Doubling(stride) && stride * length == count
    ensures Doubling(length * 2) && length * 2 / 2 == length && length <= count
    ensures if stride == 1 then length == count
            else length * 2 <= count && Doubling(stride / 2) && stride / 2 * (length * 2) == count && 2 * (stride / 2) == stride
  {
    if stride > 1 {
      hide Doubling;
      Halved(stride / 2, length);
      assert stride == 2 * (stride / 2);
      Apart(0, stride / 2, length * 2);
    }
  }

  lemma Halved(half: nat, length: nat)
    ensures (2 * half) * length == half * (length * 2)
  {
  }

  ghost predicate IsSpectrum(x: seq<Complex>, w: Complex, y: seq<Complex>)
  {
    |y| == |x| && forall k :: 0 <= k < |x| ==> y[k] == Dft(x, w, k)
  }

  lemma SingleSample(x: seq<Complex>, w: Complex)
    requires |x| == 1
    ensures IsSpectrum(x, w, x)
  {
    assert DftSum(x, w, 0, 0) == ZERO;
    MulOne(x[0]);
  }

  lemma PermutedIsStaged(x: seq<Complex>, w: nat -> Complex, a: seq<Complex>)
    requires Doubling(|x|) && Permuted(x, a)
    ensures Staged(x, w, a, 1, |x|)
  {
    forall p | 0 <= p < |a| ensures a[p] == Held(x, w, 1, |x|, p) { HeldFirst(x, w, p); }
  }

  lemma StagedIsSpectrum(x: seq<Complex>, w: nat -> Complex, a: seq<Complex>)
    requires |x| > 1 && Staged(x, w, a, |x|, 1)
    ensures IsSpectrum(x, w(|x|), a)
  {
    forall k | 0 <= k < |x| ensures a[k] == Dft(x, w(|x|), k) { HeldLast(x, w, k); }
  }
}
