/** The writer and the reader as the program runs them: bytes written into a
    header in place, and loops over fields and blocks. */
module UstarArchive {
  import opened Ustar

  /** size - 1 digits from the right, then a NUL. */
  method WriteOctal(value: nat, field: array<byte>, at: nat, size: nat)
    requires size > 0 && at + size <= field.Length
    modifies field
    ensures field[..] == Patched(old(field[..]), at, OctalField(value, size))
  {
    hide Digits, Patched;
    var left := value;
    ghost var before, written := field[..], [];
    NothingPatched(before, at + size - 1);
    assert Digits(value, size - 1) + [] == Digits(value, size - 1);
    for index := size - 1 downto 0
      invariant |written| == size - 1 - index && Digits(left, index) + written == Digits(value, size - 1)
      invariant field[..] == Patched(before, at + index, written)
    {
      ghost var seen := field[..];
      DigitsMore(left, index + 1);
      var digit: byte := ZERO + left % 8;
      field[at + index] := digit;
      PatchedMore(before, at + index, written, digit);
      assert field[..] == seen[at + index := digit];
      assert Digits(left / 8, index) + [digit] + written == Digits(left / 8, index) + ([digit] + written);
      written := [digit] + written;
      left := left / 8;
    }
    assert Digits(left, 0) == [] by { NoDigits(left); }
    assert [] + written == written;
    field[at + size - 1] := 0;
    PatchedLast(before, at, written);
  }

  lemma NoDigits(value: nat)
    ensures Digits(value, 0) == []
  {
  }

  lemma DigitsMore(value: nat, k: nat)
    requires k > 0
    ensures Digits(value, k) == Digits(value / 8, k - 1) + [ZERO + value % 8]
  {
  }

  lemma NothingPatched(block: seq<byte>, at: nat)
    requires at <= |block|
    ensures Patched(block, at, []) == block
  {
  }

  lemma PatchedMore(block: seq<byte>, at: nat, written: seq<byte>, digit: byte)
    requires at + 1 + |written| <= |block|
    ensures Patched(block, at + 1, written)[at := digit] == Patched(block, at, [digit] + written)
  {
  }

  lemma PatchedLast(block: seq<byte>, at: nat, written: seq<byte>)
    requires at + |written| < |block|
    ensures Patched(block, at, written)[at + |written| := 0] == Patched(block, at, written + [0])
  {
  }

  method WriteField(text: seq<byte>, field: array<byte>, at: nat, size: nat)
    requires at + size <= field.Length
    modifies field
    ensures field[..] == Patched(old(field[..]), at, text[..Min(|text|, size)])
  {
    var length := Min(|text|, size);
    ghost var before := field[..];
    for i := 0 to length
      invariant field[..] == Patched(before, at, text[..i])
    {
      field[at + i] := text[i];
      assert text[..i + 1] == text[..i] + [text[i]];
    }
  }

  class UstarWriter {
    var blocks: seq<byte>
    ghost var files: seq<File>

    ghost predicate Valid()
      reads this
    {
      blocks == Blocks(files)
    }

    constructor ()
      ensures Valid() && files == []
    {
      blocks, files := [], [];
    }

    method AddFile(name: seq<byte>, data: seq<byte>)
      requires Valid()
      modifies this
      ensures Valid() && files == old(files) + [File(name, data)]
    {
      hide Stored, Header, Zeros, Padded;
      var header := MakeHeader(name, |data|);
      var padded := data;
      var remainder := |data| % BLOCK;
      if remainder != 0 { padded := padded + Zeros(BLOCK - remainder); }
      Padding(data);
      blocks := blocks + header + padded;
      ghost var file := File(name, data);
      StoredIs(file);
      assert (files + [file])[..|files|] == files;
      files := files + [file];
    }

    method MakeHeader(name: seq<byte>, size: nat) returns (h: seq<byte>)
      ensures h == Header(name, size)
    {
      hide Patched, OctalField, HeaderChecksum, Spaces;
      var header := new byte[BLOCK](_ => 0);
      assert header[..] == Zeros(BLOCK);
      WriteField(name, header, 0, NAME_SIZE);
      WriteOctal(420, header, MODE_OFFSET, 8);
      WriteOctal(0, header, UID_OFFSET, 8);
      WriteOctal(0, header, GID_OFFSET, 8);
      WriteOctal(size, header, SIZE_OFFSET, SIZE_SIZE);
      WriteOctal(0, header, MTIME_OFFSET, 12);
      WriteField([ZERO], header, TYPE_FLAG_OFFSET, 1);
      WriteField(USTAR, header, MAGIC_OFFSET, 6);
      WriteField([ZERO, ZERO], header, VERSION_OFFSET, 2);
      WriteField(Spaces(CHECKSUM_SIZE), header, CHECKSUM_OFFSET, CHECKSUM_SIZE);
      Whole([ZERO], 1);
      Whole(USTAR, 6);
      Whole([ZERO, ZERO], 2);
      Whole(Spaces(CHECKSUM_SIZE), CHECKSUM_SIZE);
      ghost var unsummed := header[..];
      var sum := SumHeader(header[..]);
      WriteOctal(sum, header, CHECKSUM_OFFSET, 7);
      WriteField([SPACE], header, CHECKSUM_OFFSET + 7, 1);
      Whole([SPACE], 1);
      TwoPatches(unsummed, CHECKSUM_OFFSET, OctalField(sum, 7), [SPACE]);
      h := header[..];
    }

    method Finish() returns (archive: seq<byte>)
      requires Valid()
      ensures archive == Archive(files)
    {
      archive := blocks + Zeros(2 * BLOCK);
    }
  }

  lemma Whole(text: seq<byte>, size: nat)
    requires |text| <= size
    ensures text[..Min(|text|, size)] == text
  {
  }

  /** Writing a field and then what follows it is writing both. */
  lemma TwoPatches(block: seq<byte>, at: nat, a: seq<byte>, b: seq<byte>)
    requires at + |a| + |b| <= |block|
    ensures |a| <= |Patched(block, at, a)| && Patched(Patched(block, at, a), at + |a|, b) == Patched(block, at, a + b)
  {
  }

  lemma Padding(data: seq<byte>)
    ensures Padded(|data|) - |data| == if |data| % BLOCK == 0 then 0 else BLOCK - |data| % BLOCK
    ensures data + Zeros(0) == data
  {
  }

  lemma StoredIs(file: File)
    ensures Stored(file) == Header(file.name, |file.data|) + (file.data + Zeros(Padded(|file.data|) - |file.data|))
  {
  }

  // ----- Reading -----

  method ReadOctalField(block: seq<byte>, at: nat, size: nat) returns (r: Option<nat>)
    requires at + size <= |block|
    ensures r == ReadOctal(Field(block, at, size))
  {
    ghost var f := Field(block, at, size);
    var index := 0;
    while index < size && IsBlank(block[at + index])
      invariant index <= size && SkipBlank(f, index) == SkipBlank(f, 0)
    {
      index := index + 1;
    }
    ghost var start := index;
    var anyDigits := false;
    var value: nat := 0;
    while index < size && !IsBlank(block[at + index])
      invariant start <= index <= size && (anyDigits <==> index > start)
      invariant ReadDigits(f, index, value) == ReadDigits(f, start, 0)
    {
      var character := block[at + index];
      assert f[index] == character;
      if character < ZERO || character > ZERO + 7 || value > UINT64_MAX / 8 {
        assert ReadDigits(f, index, value) == None;
        return None;
      }
      value := value * 8 + (character - ZERO);
      anyDigits := true;
      index := index + 1;
    }
    ghost var end := index;
    assert ReadDigits(f, end, value) == Some((end, value));
    while index < size
      invariant end <= index <= size && forall j :: end <= j < index ==> IsBlank(f[j])
    {
      if !IsBlank(block[at + index]) {
        assert !IsBlank(f[index]) && !AllBlank(f, end);
        return None;
      }
      index := index + 1;
    }
    r := if anyDigits then Some(value) else None;
  }

  method ReadName(block: seq<byte>, at: nat, size: nat) returns (name: seq<byte>)
    requires at + size <= |block|
    ensures name == ReadField(Field(block, at, size))
  {
    ghost var f := Field(block, at, size);
    var length := 0;
    while length < size && block[at + length] != 0
      invariant length <= size && ReadField(f) == f[..length] + ReadField(f[length..])
    {
      assert f[length..][1..] == f[length + 1..];
      assert f[..length + 1] == f[..length] + [f[length]];
      length := length + 1;
    }
    assert ReadField(f[length..]) == [];
    name := block[at..at + length];
    assert f[..length] == name;
  }

  method HasOnlyZeros(block: seq<byte>) returns (yes: bool)
    ensures yes == IsZeroBlock(block)
  {
    for index := 0 to |block|
      invariant forall i :: 0 <= i < index ==> block[i] == 0
    {
      if block[index] != 0 { return false; }
    }
    yes := true;
  }

  method SumHeader(block: seq<byte>) returns (sum: nat)
    requires |block| == BLOCK
    ensures sum == HeaderChecksum(block)
  {
    sum := 0;
    for index := 0 to BLOCK
      invariant sum == SumTo(block, index)
    {
      sum := sum + (if InChecksum(index) then SPACE else block[index]);
    }
  }

  method FindEntry(entries: seq<Entry>, name: seq<byte>) returns (found: bool)
    ensures found == Named(entries, name)
  {
    for index := 0 to |entries|
      invariant forall i :: 0 <= i < index ==> entries[i].name != name
    {
      if entries[index].name == name { return true; }
    }
    found := false;
  }

  method CheckHeader(block: seq<byte>, entries: seq<Entry>) returns (header: Option<(seq<byte>, nat)>, error: Error)
    requires |block| == BLOCK
    ensures (header, error) == ReadHeader(block, entries)
  {
    hide ReadOctal, HeaderChecksum, ReadField, Named;
    var stored := ReadOctalField(block, CHECKSUM_OFFSET, CHECKSUM_SIZE);
    var sum := SumHeader(block);
    if stored == None || stored.value != sum { return None, BadChecksum; }
    if block[MAGIC_OFFSET..MAGIC_OFFSET + 5] != USTAR { return None, NotUstar; }
    if block[TYPE_FLAG_OFFSET] != ZERO && block[TYPE_FLAG_OFFSET] != 0 { return None, NotRegularFile; }
    if block[PREFIX_OFFSET] != 0 { return None, HasPrefix; }
    var name := ReadName(block, 0, NAME_SIZE);
    if name == [] || SLASH in name { return None, NotBareName; }
    var found := FindEntry(entries, name);
    if found { return None, SameName; }
    var size := ReadOctalField(block, SIZE_OFFSET, SIZE_SIZE);
    if size == None { return None, BadSize; }
    if size.value > MAXIMUM_ENTRY_BYTES { return None, TooLarge; }
    return Some((name, size.value)), NoEntries;
  }

  method ReadArchive(archive: seq<byte>) returns (r: Outcome)
    ensures r == ReadUstarArchive(archive)
  {
    hide ReadHeader, IsZeroBlock;
    if archive == [] || |archive| % BLOCK != 0 { return Failure(NotBlocks); }
    var entries: seq<Entry> := [];
    var offset := 0;
    while offset + BLOCK <= |archive|
      invariant offset <= |archive| && ReadFrom(archive, offset, entries) == ReadFrom(archive, 0, [])
      decreases |archive| - offset
    {
      var block := archive[offset..offset + BLOCK];
      var zeros := HasOnlyZeros(block);
      if zeros { break; }
      var header, error := CheckHeader(block, entries);
      if header == None { return Failure(error); }
      var (name, size) := header.value;
      var at := offset + BLOCK;
      var padded := (size + BLOCK - 1) / BLOCK * BLOCK;
      if at + padded > |archive| { return Failure(PastEnd); }
      entries := entries + [Entry(name, at, size)];
      offset := at + padded;
    }
    if entries == [] { return Failure(NoEntries); }
    r := Entries(entries);
  }
}
