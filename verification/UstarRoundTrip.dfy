/** What the writer writes, the reader reads; and what any accepted archive is like. */
module UstarRoundTrip {
  import opened Ustar

  // ----- Octal fields -----

  lemma {:induction false} DigitsRead(f: seq<byte>, i: nat, k: nat, value: nat)
    requires i + k <= |f| && f[i..i + k] == Digits(value, k) && value < Pow8(k) && k <= 20
    ensures ReadDigits(f, i, 0) == ReadDigits(f, i + k, value)
    decreases k
  {
    hide ReadDigits;
    if k > 0 {
      var d := Digits(value / 8, k - 1);
      assert f[i..i + k - 1] == f[i..i + k][..k - 1] == d;
      assert f[i + k - 1] == f[i..i + k][k - 1] == ZERO + value % 8;
      DigitsRead(f, i, k - 1, value / 8);
      Pow8Small(k - 1);
      DigitRead(f, i + k - 1, value);
    }
  }

  lemma DigitRead(f: seq<byte>, i: nat, value: nat)
    requires i < |f| && f[i] == ZERO + value % 8 && value / 8 <= UINT64_MAX / 8
    ensures ReadDigits(f, i, value / 8) == ReadDigits(f, i + 1, value)
  {
  }

  lemma {:induction false} Pow8Small(k: nat)
    requires k <= 19
    ensures Pow8(k) <= 0x200_0000_0000_0000
    decreases 19 - k
  {
    if k == 19 {
      assert Pow8(4) == 4096 by { assert Pow8(3) == 512 by { assert Pow8(2) == 64 by { assert Pow8(1) == 8; } } }
      assert Pow8(8) == 16777216 by { assert Pow8(7) == 2097152 by { assert Pow8(6) == 262144 by { assert Pow8(5) == 32768; } } }
      assert Pow8(12) == 68719476736 by { assert Pow8(11) == 8589934592 by { assert Pow8(10) == 1073741824 by { assert Pow8(9) == 134217728; } } }
      assert Pow8(16) == 281474976710656 by { assert Pow8(15) == 35184372088832 by { assert Pow8(14) == 4398046511104 by { assert Pow8(13) == 549755813888; } } }
      assert Pow8(19) == 144115188075855872 by { assert Pow8(18) == 18014398509481984 by { assert Pow8(17) == 2251799813685248; } }
    } else {
      Pow8Small(k + 1);
    }
  }

  /** A number that fits its digits is read back, whatever padding follows. */
  lemma OctalRead(value: nat, k: nat, tail: seq<byte>)
    requires 1 <= k <= 20 && value < Pow8(k) && AllBlank(tail, 0)
    ensures ReadOctal(Digits(value, k) + tail) == Some(value)
  {
    var f := Digits(value, k) + tail;
    assert f[0..k] == Digits(value, k);
    assert f[0] == Digits(value, k)[0];
    DigitsRead(f, 0, k, value);
    assert forall j :: k <= j < |f| ==> f[j] == tail[j - k];
    assert k < |f| ==> IsBlank(f[k]);
    assert AllBlank(f, k);
  }

  lemma Pow8Values()
    ensures Pow8(6) == 262144 && Pow8(11) == 8589934592
  {
    assert Pow8(3) == 512 by { assert Pow8(2) == 64 by { assert Pow8(1) == 8; } }
    assert Pow8(6) == 262144 by { assert Pow8(5) == 32768 by { assert Pow8(4) == 4096; } }
    assert Pow8(9) == 134217728 by { assert Pow8(8) == 16777216 by { assert Pow8(7) == 2097152; } }
    assert Pow8(11) == 8589934592 by { assert Pow8(10) == 1073741824; }
  }

  /** A checksum always fits its six digits. */
  lemma ChecksumRead(block: seq<byte>)
    requires |block| == BLOCK
    ensures ReadOctal(ChecksumField(HeaderChecksum(block))) == Some(HeaderChecksum(block))
  {
    Pow8Values();
    var sum := HeaderChecksum(block);
    assert ChecksumField(sum) == Digits(sum, 6) + [0, SPACE];
    OctalRead(sum, 6, [0, SPACE]);
  }

  lemma SizeRead(size: nat)
    requires size <= MAXIMUM_ENTRY_BYTES
    ensures ReadOctal(OctalField(size, SIZE_SIZE)) == Some(size)
  {
    Pow8Values();
    OctalRead(size, 11, [0]);
  }

  // ----- Headers -----

  lemma PatchedField(block: seq<byte>, at: nat, field: seq<byte>, other: nat, size: nat)
    requires at + |field| <= |block| && other + size <= |block|
    ensures other == at && size == |field| ==> Field(Patched(block, at, field), other, size) == field
    ensures other + size <= at || at + |field| <= other ==> Field(Patched(block, at, field), other, size) == Field(block, other, size)
  {
  }

  lemma {:induction false} SumIgnoresField(a: seq<byte>, b: seq<byte>, n: nat)
    requires n <= |a| == |b| && forall i :: 0 <= i < |a| && !InChecksum(i) ==> a[i] == b[i]
    ensures SumTo(a, n) == SumTo(b, n)
  {
    if n > 0 { SumIgnoresField(a, b, n - 1); }
  }

  /** Writing the checksum does not change the checksum. */
  lemma ChecksumStays(h: seq<byte>, field: seq<byte>)
    requires |h| == BLOCK && |field| == CHECKSUM_SIZE
    ensures HeaderChecksum(Patched(h, CHECKSUM_OFFSET, field)) == HeaderChecksum(h)
  {
    var p := Patched(h, CHECKSUM_OFFSET, field);
    forall i | 0 <= i < BLOCK && !InChecksum(i) ensures p[i] == h[i] {
    }
    SumIgnoresField(p, h, BLOCK);
  }

  /** A name the bundle can store as it is. */
  predicate GoodName(name: seq<byte>)
  {
    0 < |name| <= NAME_SIZE && 0 !in name && SLASH !in name
  }

  /** What stands in each field of a header before the checksum is written. */
  lemma UnsummedFields(name: seq<byte>, size: nat)
    requires 0 < |name| <= NAME_SIZE
    ensures var h := Unsummed(name, size);
            && Field(h, SIZE_OFFSET, SIZE_SIZE) == OctalField(size, SIZE_SIZE)
            && Field(h, MAGIC_OFFSET, 5) == USTAR
            && Field(h, TYPE_FLAG_OFFSET, 1) == [ZERO] && Field(h, PREFIX_OFFSET, 1) == [0]
            && Field(h, 0, NAME_SIZE) == name + Zeros(NAME_SIZE - |name|)
  {
    hide Patched, Field, OctalField, Zeros, Spaces;
    assert name[..Min(|name|, NAME_SIZE)] == name;
    var h0 := Zeros(BLOCK);
    var h1 := Patched(h0, 0, name);
    var h2 := Patched(h1, MODE_OFFSET, OctalField(420, 8));
    var h3 := Patched(h2, UID_OFFSET, OctalField(0, 8));
    var h4 := Patched(h3, GID_OFFSET, OctalField(0, 8));
    NameField(h0, name, NAME_SIZE - |name|);
    Kept(h0, h1, 0, name, PREFIX_OFFSET, 1);
    Through(h1, h2, MODE_OFFSET, OctalField(420, 8));
    Through(h2, h3, UID_OFFSET, OctalField(0, 8));
    Through(h3, h4, GID_OFFSET, OctalField(0, 8));
    LaterFields(h4, size);
    ZeroField(PREFIX_OFFSET);
  }

  /** The writes from the size field on. */
  lemma LaterFields(h4: seq<byte>, size: nat)
    requires |h4| == BLOCK
    ensures var h5 := Patched(h4, SIZE_OFFSET, OctalField(size, SIZE_SIZE));
            var h6 := Patched(h5, MTIME_OFFSET, OctalField(0, 12));
            var h7 := Patched(h6, TYPE_FLAG_OFFSET, [ZERO]);
            var h8 := Patched(h7, MAGIC_OFFSET, USTAR);
            var h9 := Patched(h8, VERSION_OFFSET, [ZERO, ZERO]);
            var h := Patched(h9, CHECKSUM_OFFSET, Spaces(CHECKSUM_SIZE));
            && Field(h, SIZE_OFFSET, SIZE_SIZE) == OctalField(size, SIZE_SIZE)
            && Field(h, MAGIC_OFFSET, 5) == USTAR && Field(h, TYPE_FLAG_OFFSET, 1) == [ZERO]
            && Field(h, PREFIX_OFFSET, 1) == Field(h4, PREFIX_OFFSET, 1) && Field(h, 0, NAME_SIZE) == Field(h4, 0, NAME_SIZE)
  {
    hide Patched, Field, OctalField, Zeros, Spaces;
    var h5 := Patched(h4, SIZE_OFFSET, OctalField(size, SIZE_SIZE));
    var h6 := Patched(h5, MTIME_OFFSET, OctalField(0, 12));
    var h7 := Patched(h6, TYPE_FLAG_OFFSET, [ZERO]);
    var h8 := Patched(h7, MAGIC_OFFSET, USTAR);
    var h9 := Patched(h8, VERSION_OFFSET, [ZERO, ZERO]);
    Through(h4, h5, SIZE_OFFSET, OctalField(size, SIZE_SIZE));
    Through(h5, h6, MTIME_OFFSET, OctalField(0, 12));
    Through(h6, h7, TYPE_FLAG_OFFSET, [ZERO]);
    Through(h7, h8, MAGIC_OFFSET, USTAR);
    Through(h8, h9, VERSION_OFFSET, [ZERO, ZERO]);
    Through(h9, Patched(h9, CHECKSUM_OFFSET, Spaces(CHECKSUM_SIZE)), CHECKSUM_OFFSET, Spaces(CHECKSUM_SIZE));
  }

  lemma ZeroField(at: nat)
    requires at < BLOCK
    ensures Field(Zeros(BLOCK), at, 1) == [0]
  {
  }

  lemma NameField(block: seq<byte>, name: seq<byte>, pad: nat)
    requires |name| + pad <= |block| && forall i :: 0 <= i < |block| ==> block[i] == 0
    ensures Field(Patched(block, 0, name), 0, |name| + pad) == name + Zeros(pad)
  {
    var f, g := Field(Patched(block, 0, name), 0, |name| + pad), name + Zeros(pad);
    forall i | 0 <= i < |f| ensures f[i] == g[i] {
      if |name| <= i { assert Patched(block, 0, name)[i] == block[i]; }
    }
  }

  lemma Kept(before: seq<byte>, after: seq<byte>, at: nat, field: seq<byte>, other: nat, size: nat)
    requires at + |field| <= |before| && after == Patched(before, at, field) && other + size <= |before|
    requires other + size <= at || at + |field| <= other
    ensures |after| == |before| && Field(after, other, size) == Field(before, other, size)
  {
    PatchedField(before, at, field, other, size);
  }

  /** The five fields the reader looks at, across one more write past the name. */
  lemma Through(before: seq<byte>, after: seq<byte>, at: nat, field: seq<byte>)
    requires |before| == BLOCK && NAME_SIZE <= at && at + |field| <= PREFIX_OFFSET && after == Patched(before, at, field)
    ensures |after| == BLOCK
    ensures Field(after, 0, NAME_SIZE) == Field(before, 0, NAME_SIZE)
    ensures Field(after, PREFIX_OFFSET, 1) == Field(before, PREFIX_OFFSET, 1)
    ensures at + |field| <= SIZE_OFFSET || at >= SIZE_OFFSET + SIZE_SIZE ==>
              Field(after, SIZE_OFFSET, SIZE_SIZE) == Field(before, SIZE_OFFSET, SIZE_SIZE)
    ensures at + |field| <= TYPE_FLAG_OFFSET || at > TYPE_FLAG_OFFSET ==>
              Field(after, TYPE_FLAG_OFFSET, 1) == Field(before, TYPE_FLAG_OFFSET, 1)
    ensures at + |field| <= MAGIC_OFFSET || at >= MAGIC_OFFSET + 5 ==>
              Field(after, MAGIC_OFFSET, 5) == Field(before, MAGIC_OFFSET, 5)
    ensures Field(after, at, |field|) == field
  {
    hide Patched, Field;
    PatchedField(before, at, field, 0, NAME_SIZE);
    PatchedField(before, at, field, PREFIX_OFFSET, 1);
    PatchedField(before, at, field, SIZE_OFFSET, SIZE_SIZE);
    PatchedField(before, at, field, TYPE_FLAG_OFFSET, 1);
    PatchedField(before, at, field, MAGIC_OFFSET, 5);
    PatchedField(before, at, field, at, |field|);
    SameLength(before, at, field);
  }

  lemma SameLength(block: seq<byte>, at: nat, field: seq<byte>)
    requires at + |field| <= |block|
    ensures |Patched(block, at, field)| == |block|
  {
  }

  lemma {:induction false} NameRead(name: seq<byte>, pad: nat)
    requires 0 !in name
    ensures ReadField(name + Zeros(pad)) == name
  {
    var f := name + Zeros(pad);
    if name != [] {
      assert f[1..] == name[1..] + Zeros(pad);
      NameRead(name[1..], pad);
    }
  }

  /** A header is read back as what it was written for. */
  lemma HeaderRead(name: seq<byte>, size: nat, entries: seq<Entry>)
    requires GoodName(name) && size <= MAXIMUM_ENTRY_BYTES && !Named(entries, name)
    ensures ReadHeader(Header(name, size), entries) == (Some((name, size)), NoEntries)
    ensures !IsZeroBlock(Header(name, size))
  {
    hide Patched, Unsummed, HeaderChecksum, ReadOctal, OctalField, ChecksumField;
    var u := Unsummed(name, size);
    var field := ChecksumField(HeaderChecksum(u));
    var h := Header(name, size);
    UnsummedFields(name, size);
    Through(u, h, CHECKSUM_OFFSET, field);
    ChecksumStays(u, field);
    ChecksumRead(u);
    SizeRead(size);
    NameRead(name, NAME_SIZE - |name|);
    var zeros := Zeros(NAME_SIZE - |name|);
    assert Field(h, 0, NAME_SIZE)[0] == name[0] && h[0] == Field(h, 0, NAME_SIZE)[0];
    assert Field(h, TYPE_FLAG_OFFSET, 1)[0] == h[TYPE_FLAG_OFFSET] && Field(h, PREFIX_OFFSET, 1)[0] == h[PREFIX_OFFSET];
  }

  // ----- Archives -----

  /** What the writer can store so that the reader gives it back. */
  predicate Storable(files: seq<File>)
  {
    && files != []
    && (forall i :: 0 <= i < |files| ==> GoodName(files[i].name) && |files[i].data| <= MAXIMUM_ENTRY_BYTES)
    && forall i, j :: 0 <= i < j < |files| ==> files[i].name != files[j].name
  }

  /** An entry as the file it stands for. */
  function FileOf(archive: seq<byte>, e: Entry): File
    requires e.from + e.length <= |archive|
  {
    File(e.name, archive[e.from..e.from + e.length])
  }

  predicate InBounds(archive: seq<byte>, entries: seq<Entry>)
  {
    forall i :: 0 <= i < |entries| ==> entries[i].from + entries[i].length <= |archive|
  }

  /** The entries are these files. */
  predicate Hold(archive: seq<byte>, entries: seq<Entry>, files: seq<File>)
  {
    && InBounds(archive, entries) && |entries| == |files|
    && forall i :: 0 <= i < |entries| ==> FileOf(archive, entries[i]) == files[i]
  }

  lemma {:induction false} BlocksAligned(files: seq<File>)
    ensures |Blocks(files)| % BLOCK == 0
  {
    hide Stored, Blocks;
    BlocksSplit(files);
    if files != [] {
      var last := |files| - 1;
      BlocksAligned(files[..last]);
      StoredAligned(files[last]);
      AddAligned(|Blocks(files[..last])|, |Stored(files[last])|);
    }
  }

  lemma BlocksSplit(files: seq<File>)
    ensures Blocks([]) == []
    ensures files != [] ==> Blocks(files) == Blocks(files[..|files| - 1]) + Stored(files[|files| - 1])
  {
    hide Stored;
  }

  lemma StoredAligned(file: File)
    ensures |Stored(file)| % BLOCK == 0
  {
    hide Padded, Header, Zeros;
    AddAligned(BLOCK, Padded(|file.data|));
  }

  lemma AddAligned(a: nat, b: nat)
    requires a % BLOCK == 0 && b % BLOCK == 0
    ensures (a + b) % BLOCK == 0
  {
  }

  lemma {:induction false} BlocksConcat(a: seq<File>, b: seq<File>)
    ensures Blocks(a + b) == Blocks(a) + Blocks(b)
  {
    hide Stored;
    if b == [] {
      assert a + b == a;
    } else {
      var last := |b| - 1;
      assert (a + b)[..|a + b| - 1] == a + b[..last];
      BlocksConcat(a, b[..last]);
      Joins(Blocks(a), Blocks(b[..last]), Stored(b[last]));
    }
  }

  lemma Joins(a: seq<byte>, b: seq<byte>, c: seq<byte>)
    ensures a + b + c == a + (b + c)
  {
  }

  /** One file's blocks somewhere in an archive. */
  lemma StoredAt(archive: seq<byte>, offset: nat, file: File, after: seq<byte>)
    requires offset <= |archive| && archive[offset..] == Stored(file) + after
    ensures var at, n := offset + BLOCK, |file.data|;
            && at + Padded(n) <= |archive| && archive[at + Padded(n)..] == after
            && Field(archive, offset, BLOCK) == Header(file.name, n)
            && archive[at..at + n] == file.data
  {
    hide Header, Zeros, Padded;
    var n := |file.data|;
    FourPieces(archive, offset, Header(file.name, n), file.data, Zeros(Padded(n) - n), after);
  }

  lemma FourPieces(s: seq<byte>, offset: nat, a: seq<byte>, b: seq<byte>, c: seq<byte>, d: seq<byte>)
    requires offset <= |s| && s[offset..] == a + (b + c) + d
    ensures offset + |a| + |b| + |c| <= |s| && s[offset..offset + |a|] == a
    ensures s[offset + |a|..offset + |a| + |b|] == b && s[offset + |a| + |b| + |c|..] == d
  {
    Pieces(s, offset, a, b + c + d);
    assert a + (b + c) + d == a + (b + c + d);
    Pieces(s, offset + |a|, b, c + d);
    assert b + c + d == b + (c + d);
    Pieces(s, offset + |a| + |b|, c, d);
  }

  lemma Pieces(s: seq<byte>, offset: nat, a: seq<byte>, rest: seq<byte>)
    requires offset <= |s|
    ensures s[offset..] == a + rest ==> offset + |a| <= |s| && s[offset..offset + |a|] == a && s[offset + |a|..] == rest
  {
    if s[offset..] == a + rest {
      assert s[offset..][..|a|] == a && s[offset..][|a|..] == rest;
    }
  }

  /** The reader, part of the way through what the writer wrote. */
  lemma {:induction false} RestRead(archive: seq<byte>, offset: nat, entries: seq<Entry>, done: seq<File>, rest: seq<File>)
    requires offset <= |archive| && archive[offset..] == Blocks(rest) + Zeros(2 * BLOCK)
    requires Storable(done + rest) && Hold(archive, entries, done)
    ensures ReadFrom(archive, offset, entries).Entries?
    ensures Hold(archive, ReadFrom(archive, offset, entries).entries, done + rest)
    decreases |rest|
  {
    hide Zeros, Stored, Header, ReadHeader, Padded, ReadFrom;
    if rest == [] {
      assert done + rest == done;
      assert Blocks(rest) + Zeros(2 * BLOCK) == Zeros(2 * BLOCK);
      EndRead(archive, offset, entries, 2 * BLOCK);
    } else {
      var file, n := rest[0], |rest[0].data|;
      var after := Blocks(rest[1..]) + Zeros(2 * BLOCK);
      assert rest == [file] + rest[1..];
      BlocksConcat([file], rest[1..]);
      OneBlocks(file);
      Joins(Stored(file), Blocks(rest[1..]), Zeros(2 * BLOCK));
      StoredAt(archive, offset, file, after);
      NotNamed(archive, entries, done, rest);
      HeaderRead(file.name, n, entries);
      var entry := Entry(file.name, offset + BLOCK, n);
      assert done + rest == done + [file] + rest[1..];
      HoldsMore(archive, entries, done, entry, file);
      RestRead(archive, offset + BLOCK + Padded(n), entries + [entry], done + [file], rest[1..]);
      ReadsOn(archive, offset, entries, file);
    }
  }

  lemma HoldsMore(archive: seq<byte>, entries: seq<Entry>, done: seq<File>, entry: Entry, file: File)
    requires Hold(archive, entries, done) && entry.from + entry.length <= |archive| && FileOf(archive, entry) == file
    ensures Hold(archive, entries + [entry], done + [file])
  {
    hide FileOf;
  }

  /** A zero block ends the archive. */
  lemma EndRead(archive: seq<byte>, offset: nat, entries: seq<Entry>, n: nat)
    requires offset <= |archive| && archive[offset..] == Zeros(n) && n >= BLOCK && entries != []
    ensures ReadFrom(archive, offset, entries) == Entries(entries)
  {
    assert Field(archive, offset, BLOCK) == archive[offset..][..BLOCK];
  }

  lemma OneBlocks(file: File)
    ensures Blocks([file]) == Stored(file)
  {
    assert Blocks([]) == [];
    assert [file][..0] == [];
  }

  lemma NotNamed(archive: seq<byte>, entries: seq<Entry>, done: seq<File>, rest: seq<File>)
    requires Hold(archive, entries, done) && rest != [] && Storable(done + rest)
    ensures !Named(entries, rest[0].name) && GoodName(rest[0].name) && |rest[0].data| <= MAXIMUM_ENTRY_BYTES
  {
    assert (done + rest)[|done|] == rest[0];
    forall i | 0 <= i < |entries| ensures entries[i].name != rest[0].name {
      assert FileOf(archive, entries[i]) == done[i] == (done + rest)[i];
    }
  }

  /** One turn of the reader's loop. */
  lemma ReadsOn(archive: seq<byte>, offset: nat, entries: seq<Entry>, file: File)
    requires offset + BLOCK + Padded(|file.data|) <= |archive|
    requires Field(archive, offset, BLOCK) == Header(file.name, |file.data|)
    requires ReadHeader(Header(file.name, |file.data|), entries) == (Some((file.name, |file.data|)), NoEntries)
    requires !IsZeroBlock(Header(file.name, |file.data|))
    ensures ReadFrom(archive, offset, entries)
         == ReadFrom(archive, offset + BLOCK + Padded(|file.data|), entries + [Entry(file.name, offset + BLOCK, |file.data|)])
  {
    hide ReadHeader, Header, Padded;
  }

  // ----- What any accepted archive is like -----

  /** Bare, distinct names; slices of bounded size, in order, apart from each other
      and inside the archive. */
  predicate WellFormed(archive: seq<byte>, entries: seq<Entry>, upTo: nat)
  {
    && upTo <= |archive|
    && (forall i :: 0 <= i < |entries| ==>
          GoodName(entries[i].name) && entries[i].length <= MAXIMUM_ENTRY_BYTES && BLOCK <= entries[i].from
          && entries[i].from + entries[i].length <= upTo)
    && (forall i, j :: 0 <= i < j < |entries| ==>
          entries[i].name != entries[j].name && entries[i].from + entries[i].length + BLOCK <= entries[j].from)
  }

  lemma {:induction false} ReadIsWellFormed(archive: seq<byte>, offset: nat, entries: seq<Entry>)
    requires offset <= |archive| && WellFormed(archive, entries, offset)
    requires ReadFrom(archive, offset, entries).Entries?
    ensures WellFormed(archive, ReadFrom(archive, offset, entries).entries, |archive|)
    ensures ReadFrom(archive, offset, entries).entries != []
    decreases |archive| - offset
  {
    hide ReadHeader, Padded, IsZeroBlock;
    if !(offset + BLOCK > |archive| || IsZeroBlock(Field(archive, offset, BLOCK))) {
      var (name, size) := ReadHeader(Field(archive, offset, BLOCK), entries).0.value;
      var more := entries + [Entry(name, offset + BLOCK, size)];
      EntryJoins(archive, offset, entries, name, size);
      ReadIsWellFormed(archive, offset + BLOCK + Padded(size), more);
    }
  }

  lemma EntryJoins(archive: seq<byte>, offset: nat, entries: seq<Entry>, name: seq<byte>, size: nat)
    requires WellFormed(archive, entries, offset) && !Named(entries, name) && GoodName(name) && size <= MAXIMUM_ENTRY_BYTES
    requires offset + BLOCK + Padded(size) <= |archive|
    ensures WellFormed(archive, entries + [Entry(name, offset + BLOCK, size)], offset + BLOCK + Padded(size))
  {
    hide Padded;
  }

  lemma AcceptedIsWellFormed(archive: seq<byte>)
    requires ReadUstarArchive(archive).Entries?
    ensures WellFormed(archive, ReadUstarArchive(archive).entries, |archive|)
    ensures ReadUstarArchive(archive).entries != []
  {
    ReadIsWellFormed(archive, 0, []);
  }

  /** Reading what was written gives the files back, names and bytes and order, for
      exactly the lists of files a bundle may hold. */
  lemma RoundTrip(files: seq<File>)
    ensures Storable(files) <==>
              var read := ReadUstarArchive(Archive(files)); read.Entries? && Hold(Archive(files), read.entries, files)
  {
    hide Zeros, Blocks, ReadFrom, Storable, Hold, WellFormed;
    var archive := Archive(files);
    BlocksAligned(files);
    AddAligned(|Blocks(files)|, 2 * BLOCK);
    if Storable(files) {
      assert archive[0..] == archive;
      assert [] + files == files;
      NoneHeld(archive);
      RestRead(archive, 0, [], [], files);
    }
    var read := ReadUstarArchive(archive);
    if read.Entries? && Hold(archive, read.entries, files) {
      AcceptedIsWellFormed(archive);
      StorableIfRead(archive, read.entries, files);
    }
  }

  lemma NoneHeld(archive: seq<byte>)
    ensures Hold(archive, [], [])
  {
  }

  lemma StorableIfRead(archive: seq<byte>, entries: seq<Entry>, files: seq<File>)
    requires WellFormed(archive, entries, |archive|) && entries != [] && Hold(archive, entries, files)
    ensures Storable(files)
  {
    forall i | 0 <= i < |files| ensures GoodName(files[i].name) && |files[i].data| <= MAXIMUM_ENTRY_BYTES {
      assert FileOf(archive, entries[i]) == files[i];
    }
    forall i, j | 0 <= i < j < |files| ensures files[i].name != files[j].name {
      assert FileOf(archive, entries[i]) == files[i] && FileOf(archive, entries[j]) == files[j];
    }
  }
}
