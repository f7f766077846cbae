/**
  Runs of bits: packed as the cable takes them, least significant bit of byte
  zero first, and written as one hexadecimal number, as the file has them.
 */
module JtagBits {
  import Division

  function BytesForBits(bits: nat): nat { (bits + 7) / 8 }

  /** 1 << (index % 8) */
  function Mask(index: nat): bv8
  {
    match index % 8
    case 0 => 1
    case 1 => 2
    case 2 => 4
    case 3 => 8
    case 4 => 16
    case 5 => 32
    case 6 => 64
    case _ => 128
  }

  predicate Test(byte: bv8, index: nat) { byte & Mask(index) != 0 }

  function Put(byte: bv8, index: nat, value: bool): bv8
  {
    if value then byte | Mask(index) else byte & !Mask(index)
  }

  predicate BitAt(bits: seq<bv8>, index: nat)
    requires index / 8 < |bits|
  {
    Test(bits[index / 8], index)
  }

  function SetBitAt(bits: seq<bv8>, index: nat, value: bool): (r: seq<bv8>)
    requires index / 8 < |bits|
    ensures |r| == |bits|
  {
    bits[index / 8 := Put(bits[index / 8], index, value)]
  }

  lemma PutThenTest(byte: bv8, i: nat, value: bool, j: nat)
    ensures Test(Put(byte, i, value), j) == if i % 8 == j % 8 then value else Test(byte, j)
  {
    MasksApart(i, j);
    hide Mask;
    PutMask(byte, Mask(i), Mask(j), value);
  }

  lemma PutMask(byte: bv8, a: bv8, b: bv8, value: bool)
    requires a != 0 && (a == b || a & b == 0)
    ensures ((if value then byte | a else byte & !a) & b != 0) <==> if a == b then value else byte & b != 0
  {
    if a != b { Disjoint(byte, a, b); }
  }

  lemma MasksApart(i: nat, j: nat)
    ensures Mask(i) != 0
    ensures i % 8 == j % 8 ==> Mask(i) == Mask(j)
    ensures i % 8 != j % 8 ==> Mask(i) != Mask(j) && Mask(i) & Mask(j) == 0
  {
  }

  lemma Disjoint(byte: bv8, a: bv8, b: bv8)
    requires a & b == 0
    ensures (byte | a) & b == byte & b
    ensures (byte & !a) & b == byte & b
  {
  }

  /** Setting a bit sets that bit and no other. */
  lemma SetThenGet(bits: seq<bv8>, i: nat, value: bool, j: nat)
    requires i / 8 < |bits| && j / 8 < |bits|
    ensures BitAt(SetBitAt(bits, i, value), j) == if i == j then value else BitAt(bits, j)
  {
    hide Test, Put;
    Whole(i);
    Whole(j);
    PutThenTest(bits[i / 8], i, value, j);
  }

  lemma Whole(i: nat)
    ensures i == i / 8 * 8 + i % 8
  {
  }

  lemma InBytes(index: nat, count: nat)
    requires index < count
    ensures index / 8 < BytesForBits(count)
  {
  }

  function ZeroBytes(n: nat): (r: seq<bv8>)
    ensures |r| == n && forall i :: 0 <= i < n ==> r[i] == 0
  {
    if n == 0 then [] else ZeroBytes(n - 1) + [0]
  }

  lemma ZeroBits(n: nat, index: nat)
    requires index / 8 < n
    ensures !BitAt(ZeroBytes(n), index)
  {
  }

  /** The first `count` bits of a packed run. */
  function Unpacked(bits: seq<bv8>, count: nat): (r: seq<bool>)
    requires BytesForBits(count) <= |bits|
    ensures |r| == count
    ensures forall i :: 0 <= i < count ==> (InBytes(i, count); r[i] == BitAt(bits, i))
  {
    if count == 0 then [] else InBytes(count - 1, count); Unpacked(bits, count - 1) + [BitAt(bits, count - 1)]
  }

  // ----- Hexadecimal -----

  /** The digit's value, or -1. */
  function HexDigit(c: char): (n: int)
    ensures -1 <= n < 16
  {
    if '0' <= c <= '9' then c as int - '0' as int
    else if 'A' <= c <= 'F' then c as int - 'A' as int + 10
    else if 'a' <= c <= 'f' then c as int - 'a' as int + 10
    else -1
  }

  /** (digit >> offset) & 1 */
  predicate DigitBit(digit: nat, offset: nat)
    requires digit < 16 && offset < 4
  {
    digit / [1, 2, 4, 8][offset] % 2 == 1
  }

  predicate AllHex(hex: string)
  {
    forall i :: 0 <= i < |hex| ==> HexDigit(hex[i]) >= 0
  }

  /** Bit `index` of the number, counting from the right-hand end of the text. */
  predicate NumberBit(hex: string, index: nat)
  {
    && index / 4 < |hex|
    && var digit := HexDigit(hex[|hex| - 1 - index / 4]);
       digit >= 0 && DigitBit(digit, index % 4)
  }

  /** The number has no bit beyond the scan it belongs to. */
  predicate Fits(hex: string, count: nat)
  {
    forall i :: count <= i < 4 * |hex| ==> !NumberBit(hex, i)
  }

  /** The first `upTo` bits have been dealt with. */
  predicate ReadTo(hex: string, upTo: nat, count: nat, bits: seq<bv8>)
    requires |bits| == BytesForBits(count)
  {
    && (forall i :: count <= i < upTo ==> !NumberBit(hex, i))
    && (forall i :: 0 <= i < count ==> (InBytes(i, count); BitAt(bits, i) <==> i < upTo && NumberBit(hex, i)))
  }

  lemma NothingRead(hex: string, count: nat)
    ensures ReadTo(hex, 0, count, ZeroBytes(BytesForBits(count)))
  {
    forall i | 0 <= i < count ensures i / 8 < BytesForBits(count) && !BitAt(ZeroBytes(BytesForBits(count)), i) {
      InBytes(i, count);
      ZeroBits(BytesForBits(count), i);
    }
  }

  lemma OneMoreBit(hex: string, index: nat, count: nat, bits: seq<bv8>)
    requires |bits| == BytesForBits(count) && ReadTo(hex, index, count, bits)
    ensures index < count ==> (InBytes(index, count); ReadTo(hex, index + 1, count, SetBitAt(bits, index, NumberBit(hex, index))))
    ensures index >= count && !NumberBit(hex, index) ==> ReadTo(hex, index + 1, count, bits)
  {
    if index < count {
      InBytes(index, count);
      var isSet := NumberBit(hex, index);
      forall i | 0 <= i < count
        ensures i / 8 < |bits| && (BitAt(SetBitAt(bits, index, isSet), i) <==> i < index + 1 && NumberBit(hex, i))
      {
        InBytes(i, count);
        SetThenGet(bits, index, isSet, i);
      }
    }
  }

  /** Exactly the low bits of the number, or a refusal: false exactly when a digit
      is not one or the number has a isSet bit beyond the width. */
  method HexToBits(hex: string, count: nat) returns (ok: bool, bits: seq<bv8>)
    ensures ok <==> AllHex(hex) && Fits(hex, count)
    ensures |bits| == BytesForBits(count)
    ensures ok ==> forall i :: 0 <= i < count ==> (InBytes(i, count); BitAt(bits, i) == NumberBit(hex, i))
  {
    hide ReadTo, NumberBit, SetBitAt, BitAt;
    bits := ZeroBytes(BytesForBits(count));
    NothingRead(hex, count);
    var nibble := 0;
    var position := |hex|;
    while position > 0
      invariant 0 <= position <= |hex| && nibble == |hex| - position
      invariant |bits| == BytesForBits(count) && ReadTo(hex, 4 * nibble, count, bits)
      invariant forall i :: position <= i < |hex| ==> HexDigit(hex[i]) >= 0
    {
      var digit := HexDigit(hex[position - 1]);
      if digit < 0 { return false, bits; }
      var offset := 0;
      while offset < 4
        invariant 0 <= offset <= 4
        invariant |bits| == BytesForBits(count) && ReadTo(hex, 4 * nibble + offset, count, bits)
      {
        var isSet := DigitBit(digit, offset);
        var index := nibble * 4 + offset;
        OneMoreBit(hex, index, count, bits);
        BitOfDigit(hex, nibble, offset);
        if index < count {
          InBytes(index, count);
          bits := SetBitAt(bits, index, isSet);
        } else if isSet {
          return false, bits;
        }
        offset := offset + 1;
      }
      nibble := nibble + 1;
      position := position - 1;
    }
    ReadWhole(hex, count, bits);
    ok := true;
  }

  lemma BitOfDigit(hex: string, nibble: nat, offset: nat)
    requires nibble < |hex| && offset < 4 && HexDigit(hex[|hex| - 1 - nibble]) >= 0
    ensures NumberBit(hex, nibble * 4 + offset) <==> DigitBit(HexDigit(hex[|hex| - 1 - nibble]), offset)
  {
    Division.Quotient(nibble * 4 + offset, 4, nibble, offset);
  }

  lemma ReadWhole(hex: string, count: nat, bits: seq<bv8>)
    requires |bits| == BytesForBits(count) && ReadTo(hex, 4 * |hex|, count, bits)
    ensures Fits(hex, count)
    ensures forall i :: 0 <= i < count ==> (InBytes(i, count); BitAt(bits, i) == NumberBit(hex, i))
  {
  }

  // ----- Bits as a number -----

  /** The number the text stands for. */
  function Number(hex: string): nat
    requires AllHex(hex)
  {
    if hex == "" then 0 else 16 * Number(hex[..|hex| - 1]) + HexDigit(hex[|hex| - 1])
  }

  function Pow2(n: nat): (p: nat)
    ensures p > 0
  {
    if n == 0 then 1 else 2 * Pow2(n - 1)
  }

  /** NumberBit is the binary digit of the number. */
  lemma {:induction false} BitOfNumber(hex: string, index: nat)
    requires AllHex(hex)
    ensures NumberBit(hex, index) <==> Number(hex) / Pow2(index) % 2 == 1
    decreases |hex|
  {
    if hex == "" {
      Division.Quotient(0, Pow2(index), 0, 0);
    } else {
      var rest, digit := hex[..|hex| - 1], HexDigit(hex[|hex| - 1]);
      if index < 4 {
        LowBits(Number(rest), digit, index);
        Division.Quotient(index, 4, 0, index);
      } else {
        BitOfNumber(rest, index - 4);
        HighBits(Number(rest), digit, index);
        Division.AddBlocks(index - 4, 4, 1);
        assert index / 4 < |hex| ==> rest[|rest| - 1 - (index - 4) / 4] == hex[|hex| - 1 - index / 4];
      }
    }
  }

  lemma LowBits(n: nat, digit: nat, index: nat)
    requires digit < 16 && index < 4
    ensures (16 * n + digit) / Pow2(index) % 2 == digit / [1, 2, 4, 8][index] % 2
  {
    assert Pow2(0) == 1 && Pow2(1) == 2 && Pow2(2) == 4 && Pow2(3) == 8;
    hide Pow2;
    match index
    case 0 => Division.AddBlocks(digit, 2, 8 * n);
    case 1 => Division.AddBlocks(digit, 2, 8 * n); Division.AddBlocks(digit / 2, 2, 4 * n);
    case 2 => Division.AddBlocks(digit, 4, 4 * n); Division.AddBlocks(digit / 4, 2, 2 * n);
    case _ => Division.AddBlocks(digit, 8, 2 * n); Division.AddBlocks(digit / 8, 2, n);
  }

  lemma HighBits(n: nat, digit: nat, index: nat)
    requires digit < 16 && index >= 4
    ensures (16 * n + digit) / Pow2(index) == n / Pow2(index - 4)
  {
    var p := Pow2(index - 4);
    assert Pow2(index) == 16 * p by { assert Pow2(index - 1) == 2 * Pow2(index - 2) && Pow2(index - 2) == 2 * Pow2(index - 3); }
    var q, r := n / p, n % p;
    assert n == q * p + r;
    assert 16 * n + digit == q * (16 * p) + (16 * r + digit);
    Division.Quotient(16 * n + digit, 16 * p, q, 16 * r + digit);
  }

  /** Having no bit beyond the width is being below two to the width. */
  lemma FitsMeansBelow(hex: string, count: nat)
    requires AllHex(hex)
    ensures Fits(hex, count) <==> Number(hex) < Pow2(count)
  {
    var n := Number(hex);
    NumberBelow(hex);
    if Fits(hex, count) {
      DropTopBits(hex, count, 4 * |hex|);
    }
    if n < Pow2(count) {
      forall i | count <= i < 4 * |hex| ensures !NumberBit(hex, i) {
        Pow2Monotone(count, i);
        BitOfNumber(hex, i);
        Division.Quotient(n, Pow2(i), 0, n);
      }
    }
  }

  lemma {:induction false} DropTopBits(hex: string, count: nat, m: nat)
    requires AllHex(hex) && Fits(hex, count) && m <= 4 * |hex| && Number(hex) < Pow2(m)
    ensures Number(hex) < Pow2(count)
    decreases m
  {
    if m <= count {
      Pow2Monotone(m, count);
    } else {
      BitOfNumber(hex, m - 1);
      assert !NumberBit(hex, m - 1);
      var n, p := Number(hex), Pow2(m - 1);
      assert Pow2(m) == 2 * p;
      if p <= n { Division.Quotient(n, p, 1, n - p); }
      DropTopBits(hex, count, m - 1);
    }
  }

  lemma {:induction false} NumberBelow(hex: string)
    requires AllHex(hex)
    ensures Number(hex) < Pow2(4 * |hex|)
  {
    if hex != "" {
      NumberBelow(hex[..|hex| - 1]);
      var m := 4 * (|hex| - 1);
      assert Pow2(m + 4) == 2 * Pow2(m + 3) && Pow2(m + 3) == 2 * Pow2(m + 2) && Pow2(m + 2) == 2 * Pow2(m + 1);
    }
  }

  lemma {:induction false} Pow2Monotone(a: nat, b: nat)
    requires a <= b
    ensures Pow2(a) <= Pow2(b)
    decreases b
  {
    if a < b { Pow2Monotone(a, b - 1); }
  }

  // ----- Showing a run -----

  function DigitChar(n: nat): (c: char)
    requires n < 16
    ensures HexDigit(c) == n
  {
    "0123456789ABCDEF"[n]
  }

  /** Bit `index` of the run, and nothing beyond its end. */
  predicate ShownBit(bits: seq<bv8>, count: nat, index: nat)
    requires BytesForBits(count) <= |bits|
  {
    index < count && (InBytes(index, count); BitAt(bits, index))
  }

  function Weigh(b: bool, weight: nat): nat { if b then weight else 0 }

  /** The digit for four bits of the run. */
  function NibbleAt(bits: seq<bv8>, count: nat, nibble: nat): (n: nat)
    requires BytesForBits(count) <= |bits|
    ensures n < 16
    ensures forall offset :: 0 <= offset < 4 ==> (DigitBit(n, offset) <==> ShownBit(bits, count, nibble * 4 + offset))
  {
    var i := nibble * 4;
    var n := Weigh(ShownBit(bits, count, i), 1) + Weigh(ShownBit(bits, count, i + 1), 2)
           + Weigh(ShownBit(bits, count, i + 2), 4) + Weigh(ShownBit(bits, count, i + 3), 8);
    FourBits(ShownBit(bits, count, i), ShownBit(bits, count, i + 1), ShownBit(bits, count, i + 2), ShownBit(bits, count, i + 3));
    n
  }

  lemma FourBits(a: bool, b: bool, c: bool, d: bool)
    ensures var n := Weigh(a, 1) + Weigh(b, 2) + Weigh(c, 4) + Weigh(d, 8);
            && n < 16 && (DigitBit(n, 0) <==> a) && (DigitBit(n, 1) <==> b)
            && (DigitBit(n, 2) <==> c) && (DigitBit(n, 3) <==> d)
  {
  }

  /** The digits of nibbles top - 1 down to bottom. */
  function Digits(bits: seq<bv8>, count: nat, top: nat, bottom: nat): (text: string)
    requires BytesForBits(count) <= |bits| && bottom <= top
    ensures |text| == top - bottom
    ensures forall k :: bottom <= k < top ==> text[top - 1 - k] == DigitChar(NibbleAt(bits, count, k))
    decreases top - bottom
  {
    if top == bottom then "" else [DigitChar(NibbleAt(bits, count, top - 1))] + Digits(bits, count, top - 1, bottom)
  }

  datatype HexWindow = HexWindow(text: string, lowestBit: nat, highestBit: nat)

  const ELLIPSIS := "\U{2026}"

  function Min(a: nat, b: nat): nat { if a < b then a else b }
  function Max(a: nat, b: nat): nat { if a > b then a else b }

  /** The window's ends in nibbles, from the sizes alone. */
  function WindowTop(count: nat, around: nat, maximum: nat): nat
  {
    var digits := (count + 3) / 4;
    if digits > maximum then Max(Min(digits, around / 4 + (maximum + 1) / 2), maximum) else digits
  }

  function WindowBottom(count: nat, around: nat, maximum: nat): nat
  {
    var top := WindowTop(count, around, maximum);
    if top > maximum then top - maximum else 0
  }

  /** The window has the bit it was placed around in it, is no wider than asked
      for, and is the whole run when that is narrow enough. */
  lemma WindowHoldsTheBit(count: nat, around: nat, maximum: nat)
    requires around < count && maximum >= 1
    ensures var top, bottom := WindowTop(count, around, maximum), WindowBottom(count, around, maximum);
            && bottom * 4 <= around <= Min(top * 4, count) - 1
            && bottom < top <= (count + 3) / 4 && top - bottom <= maximum
            && ((count + 3) / 4 <= maximum ==> bottom == 0 && top == (count + 3) / 4)
  {
    var digits := (count + 3) / 4;
    assert around / 4 < digits;
  }

  method BitsToHexAround(bits: seq<bv8>, count: nat, around: nat, maximum: nat) returns (w: HexWindow)
    requires BytesForBits(count) <= |bits| && maximum >= 1
    ensures count == 0 ==> w == HexWindow("", 0, 0)
    ensures count > 0 ==> Shows(w, bits, count, around, maximum)
    ensures around < count ==> w.lowestBit <= around <= w.highestBit
  {
    hide Digits, NibbleAt;
    if count == 0 { return HexWindow("", 0, 0); }
    if around < count { WindowHoldsTheBit(count, around, maximum); }
    var digits := (count + 3) / 4;
    var top := digits;
    if digits > maximum {
      var centre := around / 4;
      top := Min(digits, centre + (maximum + 1) / 2);
      top := Max(top, maximum);
    }
    var bottom := if top > maximum then top - maximum else 0;
    assert top == WindowTop(count, around, maximum) && bottom == WindowBottom(count, around, maximum);
    var shown := ShowDigits(bits, count, top, bottom);
    var text := (if top < digits then ELLIPSIS else "") + shown + (if bottom > 0 then ELLIPSIS else "");
    w := HexWindow(text, bottom * 4, Min(top * 4, count) - 1);
  }

  /** The window's ends come from the sizes alone, so two runs shown around the
      same bit line up; its text is the digits between them. */
  predicate Shows(w: HexWindow, bits: seq<bv8>, count: nat, around: nat, maximum: nat)
    requires BytesForBits(count) <= |bits|
  {
    var top, bottom := WindowTop(count, around, maximum), WindowBottom(count, around, maximum);
    && w.lowestBit == bottom * 4 && w.highestBit == Min(top * 4, count) - 1
    && bottom <= top
    && w.text == (if top < (count + 3) / 4 then ELLIPSIS else "") + Digits(bits, count, top, bottom)
                 + (if bottom > 0 then ELLIPSIS else "")
  }

  method ShowDigits(bits: seq<bv8>, count: nat, top: nat, bottom: nat) returns (text: string)
    requires BytesForBits(count) <= |bits| && bottom <= top
    ensures text == Digits(bits, count, top, bottom)
  {
    hide NibbleAt, DigitChar, BytesForBits;
    text := "";
    var nibble := top;
    while nibble > bottom
      invariant bottom <= nibble <= top
      invariant text + Digits(bits, count, nibble, bottom) == Digits(bits, count, top, bottom)
    {
      var digit := DigitChar(NibbleAt(bits, count, nibble - 1));
      Appended(text, digit, Digits(bits, count, nibble - 1, bottom));
      text := text + [digit];
      nibble := nibble - 1;
    }
    assert text + "" == text;
  }

  lemma Appended(a: string, c: char, b: string)
    ensures a + ([c] + b) == (a + [c]) + b
  {
  }

  /** Printing a run whole and reading it back is exact. */
  lemma PrintThenRead(bits: seq<bv8>, count: nat)
    requires BytesForBits(count) <= |bits|
    ensures var hex := Digits(bits, count, (count + 3) / 4, 0);
            && AllHex(hex) && Fits(hex, count)
            && forall i :: 0 <= i < count ==> (InBytes(i, count); NumberBit(hex, i) == BitAt(bits, i))
  {
    hide Digits, DigitBit, NumberBit, BitAt;
    var digits := (count + 3) / 4;
    var hex := Digits(bits, count, digits, 0);
    forall i | 0 <= i < |hex| ensures HexDigit(hex[i]) >= 0 {
      assert hex[digits - 1 - (digits - 1 - i)] == DigitChar(NibbleAt(bits, count, digits - 1 - i));
    }
    forall i: nat | i < 4 * digits ensures NumberBit(hex, i) <==> ShownBit(bits, count, i) {
      PrintedBit(bits, count, digits, i);
    }
  }

  lemma PrintedBit(bits: seq<bv8>, count: nat, digits: nat, index: nat)
    requires BytesForBits(count) <= |bits| && index < 4 * digits
    ensures NumberBit(Digits(bits, count, digits, 0), index) <==> ShownBit(bits, count, index)
  {
    hide Digits, DigitBit, ShownBit, NibbleAt;
    var k := index / 4;
    assert Digits(bits, count, digits, 0)[digits - 1 - k] == DigitChar(NibbleAt(bits, count, k));
    assert index == k * 4 + index % 4;
    assert DigitBit(NibbleAt(bits, count, k), index % 4) <==> ShownBit(bits, count, k * 4 + index % 4);
  }
}
