/**
  The ustar format as the update bundle uses it: what the writer puts in an
  archive, and what the reader makes of one.
 */
module Ustar {
  import SampleFormat

  type byte = SampleFormat.byte

  const BLOCK := 512
  const NAME_SIZE := 100
  const MODE_OFFSET := 100
  const UID_OFFSET := 108
  const GID_OFFSET := 116
  const SIZE_OFFSET := 124
  const SIZE_SIZE := 12
  const MTIME_OFFSET := 136
  const CHECKSUM_OFFSET := 148
  const CHECKSUM_SIZE := 8
  const TYPE_FLAG_OFFSET := 156
  const MAGIC_OFFSET := 257
  const VERSION_OFFSET := 263
  const PREFIX_OFFSET := 345

  const MAXIMUM_ENTRY_BYTES := 64 * 1024 * 1024

  const SPACE: byte := 32
  const ZERO: byte := 48
  const SLASH: byte := 47
  const USTAR: seq<byte> := [117, 115, 116, 97, 114]

  datatype Option<T> = None | Some(value: T)

  /** A name and the bytes stored under it. */
  datatype File = File(name: seq<byte>, data: seq<byte>)

  /** What the reader hands out: a name, and where in the archive its bytes are. */
  datatype Entry = Entry(name: seq<byte>, from: nat, length: nat)

  function Zeros(n: nat): (z: seq<byte>)
    ensures |z| == n && forall i :: 0 <= i < n ==> z[i] == 0
  {
    if n == 0 then [] else Zeros(n - 1) + [0]
  }

  function Spaces(n: nat): (z: seq<byte>)
    ensures |z| == n && forall i :: 0 <= i < n ==> z[i] == SPACE
  {
    if n == 0 then [] else Spaces(n - 1) + [SPACE]
  }

  // ----- Octal numbers -----

  /** The last k octal digits of a number, most significant first. */
  function Digits(value: nat, k: nat): (d: seq<byte>)
    ensures |d| == k && forall i :: 0 <= i < k ==> ZERO <= d[i] <= ZERO + 7
  {
    if k == 0 then [] else Digits(value / 8, k - 1) + [ZERO + value % 8]
  }

  /** As tar writes one: digits, zero-padded, then a NUL. */
  function OctalField(value: nat, size: nat): (f: seq<byte>)
    requires size > 0
    ensures |f| == size
  {
    Digits(value, size - 1) + [0]
  }

  predicate IsBlank(b: byte) { b == SPACE || b == 0 }

  function SkipBlank(f: seq<byte>, i: nat): (j: nat)
    requires i <= |f|
    ensures i <= j <= |f|
    decreases |f| - i
  {
    if i < |f| && IsBlank(f[i]) then SkipBlank(f, i + 1) else i
  }

  predicate AllBlank(f: seq<byte>, i: nat)
  {
    forall j :: i <= j < |f| ==> IsBlank(f[j])
  }

  const UINT64_MAX := 0xFFFF_FFFF_FFFF_FFFF

  /** Digits up to the terminator: where they end and what they make. */
  function ReadDigits(f: seq<byte>, i: nat, value: nat): (r: Option<(nat, nat)>)
    requires i <= |f|
    ensures r.Some? ==> i <= r.value.0 <= |f|
    decreases |f| - i
  {
    if i == |f| || IsBlank(f[i]) then Some((i, value))
    else if f[i] < ZERO || f[i] > ZERO + 7 then None
    else if value > UINT64_MAX / 8 then None
    else ReadDigits(f, i + 1, value * 8 + (f[i] - ZERO))
  }

  /** An octal field: padding, at least one digit, padding, and nothing else. */
  function ReadOctal(f: seq<byte>): Option<nat>
  {
    var start := SkipBlank(f, 0);
    match ReadDigits(f, start, 0)
    case None => None
    case Some((end, value)) => if end == start || !AllBlank(f, end) then None else Some(value)
  }

  function Pow8(k: nat): (p: nat)
    ensures p > 0
  {
    if k == 0 then 1 else 8 * Pow8(k - 1)
  }

  // ----- Headers -----

  /** What is left after writing a field into a block. */
  function Patched(block: seq<byte>, at: nat, field: seq<byte>): (r: seq<byte>)
    requires at + |field| <= |block|
    ensures |r| == |block|
  {
    block[..at] + field + block[at + |field|..]
  }

  function Min(a: nat, b: nat): nat { if a < b then a else b }

  /** A header with spaces where its checksum will be. */
  function Unsummed(name: seq<byte>, size: nat): (h: seq<byte>)
    ensures |h| == BLOCK
  {
    var h := Patched(Zeros(BLOCK), 0, name[..Min(|name|, NAME_SIZE)]);
    var h := Patched(h, MODE_OFFSET, OctalField(420, 8));
    var h := Patched(h, UID_OFFSET, OctalField(0, 8));
    var h := Patched(h, GID_OFFSET, OctalField(0, 8));
    var h := Patched(h, SIZE_OFFSET, OctalField(size, SIZE_SIZE));
    var h := Patched(h, MTIME_OFFSET, OctalField(0, 12));
    var h := Patched(h, TYPE_FLAG_OFFSET, [ZERO]);
    var h := Patched(h, MAGIC_OFFSET, USTAR);
    var h := Patched(h, VERSION_OFFSET, [ZERO, ZERO]);
    Patched(h, CHECKSUM_OFFSET, Spaces(CHECKSUM_SIZE))
  }

  predicate InChecksum(i: nat) { CHECKSUM_OFFSET <= i < CHECKSUM_OFFSET + CHECKSUM_SIZE }

  /** The sum of the first n bytes, the checksum's own field read as spaces. */
  function SumTo(block: seq<byte>, n: nat): (sum: nat)
    requires n <= |block|
    ensures sum <= 255 * n
  {
    if n == 0 then 0 else SumTo(block, n - 1) + (if InChecksum(n - 1) then SPACE else block[n - 1])
  }

  function HeaderChecksum(block: seq<byte>): (sum: nat)
    requires |block| == BLOCK
    ensures sum < 262144
  {
    SumTo(block, BLOCK)
  }

  /** Six octal digits, a NUL and a space. */
  function ChecksumField(sum: nat): (f: seq<byte>)
    ensures |f| == CHECKSUM_SIZE
  {
    OctalField(sum, 7) + [SPACE]
  }

  function Header(name: seq<byte>, size: nat): (h: seq<byte>)
    ensures |h| == BLOCK
  {
    var h := Unsummed(name, size);
    Patched(h, CHECKSUM_OFFSET, ChecksumField(HeaderChecksum(h)))
  }

  // ----- Archives -----

  function Padded(n: nat): (p: nat)
    ensures n <= p < n + BLOCK && p % BLOCK == 0
  {
    (n + BLOCK - 1) / BLOCK * BLOCK
  }

  function Blocks(files: seq<File>): seq<byte>
  {
    if files == [] then []
    else Blocks(files[..|files| - 1]) + Stored(files[|files| - 1])
  }

  /** One file: its header, its bytes, and zeros to the end of the block. */
  function Stored(file: File): seq<byte>
  {
    Header(file.name, |file.data|) + (file.data + Zeros(Padded(|file.data|) - |file.data|))
  }

  function Archive(files: seq<File>): seq<byte>
  {
    Blocks(files) + Zeros(2 * BLOCK)
  }

  // ----- Reading -----

  datatype Error =
    | NotBlocks | BadChecksum | NotUstar | NotRegularFile | HasPrefix | NotBareName | SameName
    | BadSize | TooLarge | PastEnd | NoEntries

  datatype Outcome = Entries(entries: seq<Entry>) | Failure(error: Error)

  /** Up to the first NUL, or all of the field. */
  function ReadField(f: seq<byte>): (name: seq<byte>)
    ensures |name| <= |f| && 0 !in name
  {
    if f == [] || f[0] == 0 then [] else [f[0]] + ReadField(f[1..])
  }

  predicate IsZeroBlock(block: seq<byte>)
  {
    forall i :: 0 <= i < |block| ==> block[i] == 0
  }

  predicate Named(entries: seq<Entry>, name: seq<byte>)
  {
    exists i :: 0 <= i < |entries| && entries[i].name == name
  }

  function Field(block: seq<byte>, at: nat, size: nat): (f: seq<byte>)
    requires at + size <= |block|
    ensures |f| == size
  {
    block[at..at + size]
  }

  /** The name and size a header gives, if it is one the reader takes. */
  function ReadHeader(block: seq<byte>, entries: seq<Entry>): (r: (Option<(seq<byte>, nat)>, Error))
    requires |block| == BLOCK
    ensures r.0.Some? ==>
              var (name, size) := r.0.value;
              && 0 < |name| <= NAME_SIZE && 0 !in name && SLASH !in name && !Named(entries, name) && size <= MAXIMUM_ENTRY_BYTES
  {
    var stored := ReadOctal(Field(block, CHECKSUM_OFFSET, CHECKSUM_SIZE));
    if stored == None || stored.value != HeaderChecksum(block) then (None, BadChecksum)
    else if Field(block, MAGIC_OFFSET, 5) != USTAR then (None, NotUstar)
    else if block[TYPE_FLAG_OFFSET] != ZERO && block[TYPE_FLAG_OFFSET] != 0 then (None, NotRegularFile)
    else if block[PREFIX_OFFSET] != 0 then (None, HasPrefix)
    else
      var name := ReadField(Field(block, 0, NAME_SIZE));
      if name == [] || SLASH in name then (None, NotBareName)
      else if Named(entries, name) then (None, SameName)
      else
        var size := ReadOctal(Field(block, SIZE_OFFSET, SIZE_SIZE));
        if size == None then (None, BadSize)
        else if size.value > MAXIMUM_ENTRY_BYTES then (None, TooLarge)
        else (Some((name, size.value)), NoEntries)
  }

  /** The entries from a block boundary on, after those already found. */
  function ReadFrom(archive: seq<byte>, offset: nat, entries: seq<Entry>): Outcome
    requires offset <= |archive|
    decreases |archive| - offset
  {
    if offset + BLOCK > |archive| || IsZeroBlock(Field(archive, offset, BLOCK)) then
      if entries == [] then Failure(NoEntries) else Entries(entries)
    else
      var (header, error) := ReadHeader(Field(archive, offset, BLOCK), entries);
      if header == None then Failure(error)
      else
        var (name, size) := header.value;
        var at := offset + BLOCK;
        if at + Padded(size) > |archive| then Failure(PastEnd)
        else ReadFrom(archive, at + Padded(size), entries + [Entry(name, at, size)])
  }

  function ReadUstarArchive(archive: seq<byte>): Outcome
  {
    if archive == [] || |archive| % BLOCK != 0 then Failure(NotBlocks) else ReadFrom(archive, 0, [])
  }
}
