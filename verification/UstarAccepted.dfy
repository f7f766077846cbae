/**
  Exactly which archives the reader accepts, and as what.

  The predicates say what a field, a header and an archive are; they do not say how
  any of them is read.
 */
module UstarAccepted {
  import opened Ustar

  predicate IsOctalDigit(b: byte) { 48 <= b <= 55 }

  /** The number that the octal digits from i to j make. */
  function Value(f: seq<byte>, i: nat, j: nat): nat
    requires i <= j <= |f| && forall k :: i <= k < j ==> IsOctalDigit(f[k])
  {
    if i == j then 0
    else
      assert IsOctalDigit(f[j - 1]);
      8 * Value(f, i, j - 1) + (f[j - 1] as int - 48)
  }

  /** Blanks, at least one octal digit, and blanks: f spells v. */
  predicate Digits(f: seq<byte>, i: nat, j: nat, v: nat)
  {
    && i < j <= |f|
    && (forall k :: 0 <= k < i ==> IsBlank(f[k]))
    && (forall k :: i <= k < j ==> IsOctalDigit(f[k]))
    && (forall k :: j <= k < |f| ==> IsBlank(f[k]))
    && v == Value(f, i, j)
  }

  ghost predicate Octal(f: seq<byte>, v: nat)
  {
    exists i, j :: Digits(f, i, j, v)
  }

  lemma {:induction false} ValueFits(f: seq<byte>, i: nat, j: nat)
    requires i <= j <= |f| && j - i <= 12 && forall k :: i <= k < j ==> IsOctalDigit(f[k])
    ensures Value(f, i, j) < Pow8(j - i) <= 68719476736
    decreases j - i
  {
    if i < j { ValueFits(f, i, j - 1); }
    PowersOfEight(j - i);
  }

  lemma {:induction false} PowersOfEight(n: nat)
    requires n <= 12
    ensures Pow8(n) <= 68719476736
  {
    assert Pow8(6) == 262144;
    if n <= 6 { SmallPowers(n); } else { SmallPowers(n - 6); SixMore(n - 6); }
  }

  lemma SmallPowers(n: nat)
    requires n <= 6
    ensures Pow8(n) <= 262144
  {
    assert Pow8(0) == 1 && Pow8(1) == 8 && Pow8(2) == 64 && Pow8(3) == 512 && Pow8(4) == 4096 && Pow8(5) == 32768 && Pow8(6) == 262144;
  }

  lemma SixMore(n: nat)
    ensures Pow8(n + 6) == 262144 * Pow8(n)
  {
    assert Pow8(n + 6) == 8 * Pow8(n + 5) && Pow8(n + 5) == 8 * Pow8(n + 4) && Pow8(n + 4) == 8 * Pow8(n + 3);
    assert Pow8(n + 3) == 8 * Pow8(n + 2) && Pow8(n + 2) == 8 * Pow8(n + 1) && Pow8(n + 1) == 8 * Pow8(n);
  }

  lemma {:induction false} BlanksSkipped(f: seq<byte>, from: nat, i: nat)
    requires from <= i <= |f| && (forall k :: from <= k < i ==> IsBlank(f[k])) && (i < |f| ==> !IsBlank(f[i]))
    ensures SkipBlank(f, from) == i
    decreases i - from
  {
    if from < i { BlanksSkipped(f, from + 1, i); }
  }

  lemma {:induction false} SkippedAreBlank(f: seq<byte>, from: nat)
    requires from <= |f|
    ensures forall k :: from <= k < SkipBlank(f, from) ==> IsBlank(f[k])
    decreases |f| - from
  {
    if from < |f| && IsBlank(f[from]) { SkippedAreBlank(f, from + 1); }
  }

  lemma {:induction false} DigitsTaken(f: seq<byte>, i: nat, k: nat, j: nat)
    requires i <= k <= j <= |f| <= 12 && (forall n :: i <= n < j ==> IsOctalDigit(f[n])) && (j < |f| ==> IsBlank(f[j]))
    ensures ReadDigits(f, k, Value(f, i, k)) == Some((j, Value(f, i, j)))
    decreases j - k
  {
    ValueFits(f, i, k);
    if k < j { DigitsTaken(f, i, k + 1, j); }
  }

  lemma {:induction false} TakenAreDigits(f: seq<byte>, i: nat, k: nat)
    requires i <= k <= |f| && (forall n :: i <= n < k ==> IsOctalDigit(f[n])) && ReadDigits(f, k, Value(f, i, k)).Some?
    ensures var (j, v) := ReadDigits(f, k, Value(f, i, k)).value;
            && k <= j <= |f| && (j < |f| ==> IsBlank(f[j])) && (forall n :: i <= n < j ==> IsOctalDigit(f[n])) && v == Value(f, i, j)
    decreases |f| - k
  {
    if k < |f| && !IsBlank(f[k]) { TakenAreDigits(f, i, k + 1); }
  }

  /** The reader takes exactly the fields that spell a number, as that number. */
  lemma ReadOctalExactly(f: seq<byte>, v: nat)
    requires |f| <= 12
    ensures ReadOctal(f) == Some(v) <==> Octal(f, v)
  {
    if Octal(f, v) {
      var i, j :| Digits(f, i, j, v);
      BlanksSkipped(f, 0, i);
      DigitsTaken(f, i, i, j);
    }
    if ReadOctal(f) == Some(v) {
      var i := SkipBlank(f, 0);
      SkippedAreBlank(f, 0);
      TakenAreDigits(f, i, i);
      assert Digits(f, i, ReadDigits(f, i, 0).value.0, v);
    }
  }

  /** A name in its field: all of it before the first NUL. */
  predicate NameIs(f: seq<byte>, name: seq<byte>)
  {
    name <= f && 0 !in name && (|name| < |f| ==> f[|name|] == 0)
  }

  lemma {:induction false} ReadFieldExactly(f: seq<byte>, name: seq<byte>)
    ensures ReadField(f) == name <==> NameIs(f, name)
  {
    if f != [] && f[0] != 0 {
      if NameIs(f, name) {
        assert name != [];
        assert name == [f[0]] + name[1..] && NameIs(f[1..], name[1..]);
        ReadFieldExactly(f[1..], name[1..]);
      }
      if ReadField(f) == name {
        ReadFieldExactly(f[1..], name[1..]);
        assert f == [f[0]] + f[1..];
      }
    }
  }

  /** A ustar header for a regular file with a bare name, its checksum right. */
  ghost predicate IsHeader(block: seq<byte>, name: seq<byte>, size: nat)
  {
    && |block| == BLOCK
    && Octal(block[148..156], HeaderChecksum(block))
    && block[257..262] == [117, 115, 116, 97, 114]
    && block[156] in {48, 0} && block[345] == 0
    && NameIs(block[..100], name) && name != [] && 47 !in name
    && Octal(block[124..136], size) && size <= 67108864
  }

  lemma HeaderExactly(block: seq<byte>, entries: seq<Entry>, name: seq<byte>, size: nat)
    requires |block| == BLOCK
    ensures ReadHeader(block, entries).0 == Some((name, size)) <==> IsHeader(block, name, size) && !Named(entries, name)
  {
    hide Octal, ReadOctal, NameIs, ReadField, HeaderChecksum, Named;
    ReadOctalExactly(block[148..156], HeaderChecksum(block));
    ReadFieldExactly(block[..100], name);
    ReadFieldExactly(block[..100], ReadField(block[..100]));
    ReadOctalExactly(block[124..136], size);
    assert block[0..100] == block[..100];
  }

  /** From a block boundary on the archive is these entries, one after another, each a
      header, its bytes and filling to the block; then a zero block, or its end. */
  ghost predicate Holds(archive: seq<byte>, offset: nat, before: seq<Entry>, entries: seq<Entry>)
    decreases |entries|
  {
    if entries == [] then
      offset + BLOCK > |archive| || forall k :: offset <= k < offset + BLOCK ==> archive[k] == 0
    else
      var e := entries[0];
      && offset + BLOCK <= |archive| && (exists k :: offset <= k < offset + BLOCK && archive[k] != 0)
      && IsHeader(archive[offset..offset + BLOCK], e.name, e.length) && !Named(before, e.name)
      && e.from == offset + BLOCK && e.from + Padded(e.length) <= |archive|
      && Holds(archive, e.from + Padded(e.length), before + [e], entries[1..])
  }

  lemma ZeroBlockIs(archive: seq<byte>, offset: nat)
    requires offset + BLOCK <= |archive|
    ensures IsZeroBlock(Field(archive, offset, BLOCK)) <==> forall k :: offset <= k < offset + BLOCK ==> archive[k] == 0
  {
    var block := Field(archive, offset, BLOCK);
    assert forall k :: offset <= k < offset + BLOCK ==> archive[k] == block[k - offset];
    assert forall k :: 0 <= k < BLOCK ==> block[k] == archive[offset + k];
  }

  lemma {:induction false} HeldIsRead(archive: seq<byte>, offset: nat, before: seq<Entry>, entries: seq<Entry>)
    requires offset <= |archive| && Holds(archive, offset, before, entries) && before + entries != []
    ensures ReadFrom(archive, offset, before) == Entries(before + entries)
    decreases |entries|
  {
    hide IsHeader, ReadHeader, IsZeroBlock, Padded, Named;
    if offset + BLOCK <= |archive| { ZeroBlockIs(archive, offset); }
    if entries == [] {
      assert before + entries == before;
    } else {
      var e := entries[0];
      HeaderExactly(Field(archive, offset, BLOCK), before, e.name, e.length);
      HeldIsRead(archive, e.from + Padded(e.length), before + [e], entries[1..]);
      assert before + [e] + entries[1..] == before + entries;
    }
  }

  lemma {:induction false} ReadIsHeld(archive: seq<byte>, offset: nat, before: seq<Entry>)
    requires offset <= |archive| && ReadFrom(archive, offset, before).Entries?
    ensures var all := ReadFrom(archive, offset, before).entries;
            before <= all && Holds(archive, offset, before, all[|before|..])
    decreases |archive| - offset
  {
    hide IsHeader, ReadHeader, IsZeroBlock, Padded, Named;
    if offset + BLOCK <= |archive| { ZeroBlockIs(archive, offset); }
    if offset + BLOCK <= |archive| && !IsZeroBlock(Field(archive, offset, BLOCK)) {
      var (name, size) := ReadHeader(Field(archive, offset, BLOCK), before).0.value;
      HeaderExactly(Field(archive, offset, BLOCK), before, name, size);
      var at := offset + BLOCK;
      var e := Entry(name, at, size);
      ReadIsHeld(archive, at + Padded(size), before + [e]);
      var all := ReadFrom(archive, offset, before).entries;
      assert all[|before|..][1..] == all[|before + [e]|..];
      assert all[|before|..][0] == (before + [e])[|before|];
    }
  }

  /** An archive is accepted, as these entries, if and only if it is whole blocks that
      hold them, at least one, no name twice. */
  lemma AcceptsExactly(archive: seq<byte>, entries: seq<Entry>)
    ensures ReadUstarArchive(archive) == Entries(entries)
       <==> archive != [] && |archive| % 512 == 0 && entries != [] && Holds(archive, 0, [], entries)
  {
    hide Holds, ReadFrom;
    var none: seq<Entry> := [];
    assert none + entries == entries;
    if archive != [] && |archive| % 512 == 0 {
      if entries != [] && Holds(archive, 0, none, entries) { HeldIsRead(archive, 0, none, entries); }
      if ReadFrom(archive, 0, []) == Entries(entries) {
        ReadIsHeld(archive, 0, []);
        assert entries[|none|..] == entries;
        ReadIsSome(archive, 0, []);
      }
    }
  }

  lemma {:induction false} ReadIsSome(archive: seq<byte>, offset: nat, before: seq<Entry>)
    requires offset <= |archive| && ReadFrom(archive, offset, before).Entries?
    ensures ReadFrom(archive, offset, before).entries != []
    decreases |archive| - offset
  {
    hide ReadHeader, IsZeroBlock, Padded;
    if offset + BLOCK <= |archive| && !IsZeroBlock(Field(archive, offset, BLOCK)) {
      var (name, size) := ReadHeader(Field(archive, offset, BLOCK), before).0.value;
      ReadIsSome(archive, offset + BLOCK + Padded(size), before + [Entry(name, offset + BLOCK, size)]);
    }
  }
}
