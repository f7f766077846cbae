/**
  The FX3 boot image (section 4.4 of AN76405): what the parser takes, and the
  encoder whose outputs those are.
 */
module BootImage {
  import SampleFormat

  type byte = SampleFormat.byte

  const HEADER_BYTES := 4
  const SECTION_HEADER_BYTES := 8
  const CHECKSUM_BYTES := 4
  const SIGNATURE_FIRST: byte := 67
  const SIGNATURE_SECOND: byte := 89
  const NORMAL_FIRMWARE: byte := 0xB0
  const MAXIMUM_SECTIONS := 1024
  const TWO32 := 0x1_0000_0000

  type word = w: int | 0 <= w < 0x1_0000_0000

  datatype Section = Section(address: word, offset: nat, length: nat)

  datatype Image = Image(sections: seq<Section>, entry: word, payloadBytes: nat)

  datatype Problem =
    | TooShort | NotFirmware | NotExecutable | WrongType | EndsPartWay | BadLayout | BadChecksum | NothingToLoad

  datatype Result<T> = Ok(value: T) | Err(problem: Problem)

  function Read32(image: seq<byte>, at: nat): word
    requires at + 4 <= |image|
  {
    image[at] as int + 256 * image[at + 1] as int + 65536 * image[at + 2] as int + 16777216 * image[at + 3] as int
  }

  function Word(w: word): (bytes: seq<byte>)
    ensures |bytes| == 4
  {
    var n := w as int;
    [n % 256, n / 256 % 256, n / 65536 % 256, n / 16777216]
  }

  /** The running checksum over n words from `at` on. */
  function Summed(image: seq<byte>, at: nat, n: nat, sum: word): word
    requires at + 4 * n <= |image|
    decreases n
  {
    if n == 0 then sum else (Summed(image, at, n - 1, sum) + Read32(image, at + 4 * (n - 1))) % TWO32
  }

  // ----- Parsing -----

  /** Where the section records end, and what they said. */
  datatype Records = Records(sections: seq<Section>, entry: word, payloadBytes: nat, checksum: word, end: nat)

  function RecordsFrom(image: seq<byte>, p: nat, sections: seq<Section>, payloadBytes: nat, checksum: word): (r: Result<Records>)
    requires p <= |image|
    ensures r.Ok? ==> p + 8 <= r.value.end <= |image|
    decreases |image| - p
  {
    if |image| - p < SECTION_HEADER_BYTES then Err(EndsPartWay)
    else
      var words, address, at := Read32(image, p), Read32(image, p + 4), p + SECTION_HEADER_BYTES;
      if words == 0 then Ok(Records(sections, address, payloadBytes, checksum, at))
      else if |sections| >= MAXIMUM_SECTIONS then Err(BadLayout)
      else if words * 4 > |image| - at then Err(EndsPartWay)
      else RecordsFrom(image, at + words * 4, sections + [Section(address, at, words * 4)],
                       payloadBytes + words * 4, Summed(image, at, words, checksum))
  }

  function Parse(image: seq<byte>): Result<Image>
  {
    if |image| < HEADER_BYTES + SECTION_HEADER_BYTES + CHECKSUM_BYTES then Err(TooShort)
    else if image[0] != SIGNATURE_FIRST || image[1] != SIGNATURE_SECOND then Err(NotFirmware)
    else if image[2] % 2 != 0 then Err(NotExecutable)
    else if image[3] != NORMAL_FIRMWARE then Err(WrongType)
    else
      match RecordsFrom(image, HEADER_BYTES, [], 0, 0)
      case Err(p) => Err(p)
      case Ok(r) =>
        if |image| - r.end != CHECKSUM_BYTES then Err(BadLayout)
        else if Read32(image, r.end) != r.checksum then Err(BadChecksum)
        else if r.sections == [] then Err(NothingToLoad)
        else Ok(Image(r.sections, r.entry, r.payloadBytes))
  }

  method SumWords(image: seq<byte>, at: nat, n: nat, sum: word) returns (r: word)
    requires at + 4 * n <= |image|
    ensures r == Summed(image, at, n, sum)
  {
    r := sum;
    var offset := 0;
    ghost var done := 0;
    while offset < 4 * n
      invariant 0 <= done <= n && offset == 4 * done && r == Summed(image, at, done, sum)
      decreases n - done
    {
      r := (r + Read32(image, at + offset)) % TWO32;
      offset := offset + 4;
      done := done + 1;
    }
  }

  method ParseBootImage(image: seq<byte>) returns (r: Result<Image>)
    ensures r == Parse(image)
  {
    hide Read32, Summed;
    if |image| < HEADER_BYTES + SECTION_HEADER_BYTES + CHECKSUM_BYTES { return Err(TooShort); }
    if image[0] != SIGNATURE_FIRST || image[1] != SIGNATURE_SECOND { return Err(NotFirmware); }
    if image[2] % 2 != 0 { return Err(NotExecutable); }
    if image[3] != NORMAL_FIRMWARE { return Err(WrongType); }
    var sections: seq<Section> := [];
    var payloadBytes: nat, checksum: word, position: nat := 0, 0, HEADER_BYTES;
    var entry: word := 0;
    while true
      invariant position <= |image|
      invariant RecordsFrom(image, position, sections, payloadBytes, checksum) == RecordsFrom(image, HEADER_BYTES, [], 0, 0)
      decreases |image| - position
    {
      if |image| - position < SECTION_HEADER_BYTES { return Err(EndsPartWay); }
      var words, address := Read32(image, position), Read32(image, position + 4);
      ghost var p := position;
      position := position + SECTION_HEADER_BYTES;
      if words == 0 {
        entry := address;
        assert RecordsFrom(image, p, sections, payloadBytes, checksum)
            == Ok(Records(sections, entry, payloadBytes, checksum, position));
        break;
      }
      if |sections| >= MAXIMUM_SECTIONS { return Err(BadLayout); }
      var payload: nat := words as int * 4;
      if payload > |image| - position { return Err(EndsPartWay); }
      checksum := SumWords(image, position, words, checksum);
      sections := sections + [Section(address, position, payload)];
      payloadBytes := payloadBytes + payload;
      position := position + payload;
    }
    if |image| - position != CHECKSUM_BYTES { return Err(BadLayout); }
    if Read32(image, position) != checksum { return Err(BadChecksum); }
    if sections == [] { return Err(NothingToLoad); }
    r := Ok(Image(sections, entry, payloadBytes));
  }

  // ----- The encoder -----

  /** A section as it is to lie in memory. */
  datatype Segment = Segment(address: word, payload: seq<byte>)

  predicate AllEncodable(segments: seq<Segment>)
  {
    forall i :: 0 <= i < |segments| ==> EncodableSegment(segments[i])
  }

  predicate Encodable(segments: seq<Segment>)
  {
    0 < |segments| <= MAXIMUM_SECTIONS && AllEncodable(segments)
  }

  predicate EncodableSegment(s: Segment)
  {
    s.payload != [] && |s.payload| % 4 == 0 && |s.payload| / 4 < TWO32
  }

  function Record(s: Segment): (bytes: seq<byte>)
    requires EncodableSegment(s)
    ensures |bytes| == SECTION_HEADER_BYTES + |s.payload|
  {
    Word(|s.payload| / 4) + Word(s.address) + s.payload
  }

  function RecordsOf(segments: seq<Segment>): seq<byte>
    requires AllEncodable(segments)
  {
    if segments == [] then [] else Record(segments[0]) + RecordsOf(segments[1..])
  }

  /** The sum of all the words, as a number. */
  function WordTotal(payload: seq<byte>, n: nat): nat
    requires 4 * n <= |payload|
  {
    if n == 0 then 0 else WordTotal(payload, n - 1) + Read32(payload, 4 * (n - 1))
  }

  function Total(segments: seq<Segment>): nat
  {
    if segments == [] then 0 else WordTotal(segments[0].payload, |segments[0].payload| / 4) + Total(segments[1..])
  }

  function Encode(control: byte, segments: seq<Segment>, entry: word): seq<byte>
    requires Encodable(segments)
  {
    [SIGNATURE_FIRST, SIGNATURE_SECOND, control, NORMAL_FIRMWARE] + RecordsOf(segments)
    + (Word(0) + Word(entry) + Word(Total(segments) % TWO32))
  }

  /** The segments a parsed image names. */
  function SegmentOf(image: seq<byte>, s: Section): Segment
    requires s.offset + s.length <= |image|
  {
    Segment(s.address, image[s.offset..s.offset + s.length])
  }

  predicate InBounds(image: seq<byte>, sections: seq<Section>)
  {
    forall i :: 0 <= i < |sections| ==> sections[i].offset + sections[i].length <= |image|
  }

  function SegmentsOf(image: seq<byte>, sections: seq<Section>): (r: seq<Segment>)
    requires InBounds(image, sections)
    ensures |r| == |sections| && forall i :: 0 <= i < |r| ==> r[i] == SegmentOf(image, sections[i])
  {
    if sections == [] then [] else [SegmentOf(image, sections[0])] + SegmentsOf(image, sections[1..])
  }

  function Lengths(segments: seq<Segment>): nat
  {
    if segments == [] then 0 else |segments[0].payload| + Lengths(segments[1..])
  }

  // ----- The parser against the encoder -----

  lemma WordRead(image: seq<byte>, at: nat, w: word)
    requires at + 4 <= |image| && image[at..at + 4] == Word(w)
    ensures Read32(image, at) == w
  {
    var b := image[at..at + 4];
    assert b[0] == image[at] && b[1] == image[at + 1] && b[2] == image[at + 2] && b[3] == image[at + 3];
    Places(w);
  }

  lemma Places(n: nat)
    ensures n == n % 256 + 256 * (n / 256 % 256) + 65536 * (n / 65536 % 256) + 16777216 * (n / 16777216)
  {
    assert n / 65536 == n / 256 / 256 && n / 16777216 == n / 65536 / 256;
  }

  /** The four bytes at a place are the word read there, written. */
  lemma WordWritten(image: seq<byte>, at: nat)
    requires at + 4 <= |image|
    ensures image[at..at + 4] == Word(Read32(image, at))
  {
    BytesBack(image[at], image[at + 1], image[at + 2], image[at + 3]);
  }

  lemma BytesBack(a: byte, b: byte, c: byte, d: byte)
    ensures Word(a as int + 256 * b as int + 65536 * c as int + 16777216 * d as int) == [a, b, c, d]
  {
    var n := a as int + 256 * b as int + 65536 * c as int + 16777216 * d as int;
    assert n / 256 == b as int + 256 * c as int + 65536 * d as int;
    assert n / 65536 == c as int + 256 * d as int;
    assert n / 16777216 == d as int;
  }

  /** The running checksum is the sum of the words, modulo 2 to the 32. */
  lemma {:induction false} SummedIs(image: seq<byte>, at: nat, payload: seq<byte>, n: nat, sum: word, before: nat)
    requires at + 4 * n <= |image| && 4 * n <= |payload| && image[at..at + 4 * n] == payload[..4 * n]
    requires sum == before % TWO32
    ensures Summed(image, at, n, sum) == (before + WordTotal(payload, n)) % TWO32
    decreases n
  {
    hide Read32;
    if n > 0 {
      var m := 4 * (n - 1);
      assert image[at..at + m] == image[at..at + 4 * n][..m] && payload[..m] == payload[..4 * n][..m];
      SummedIs(image, at, payload, n - 1, sum, before);
      SameWord(image, at + m, payload, m, at, 4 * n);
      AddWraps(before + WordTotal(payload, n - 1), Read32(payload, m));
    }
  }

  lemma AddWraps(a: nat, b: nat)
    ensures (a % TWO32 + b) % TWO32 == (a + b) % TWO32
  {
  }

  lemma SameWord(image: seq<byte>, p: nat, payload: seq<byte>, m: nat, at: nat, n: nat)
    requires p == at + m && m + 4 <= n <= |payload| && at + n <= |image| && image[at..at + n] == payload[..n]
    ensures Read32(image, p) == Read32(payload, m)
  {
    var s := image[at..at + n];
    assert s[m] == image[p] && s[m + 1] == image[p + 1] && s[m + 2] == image[p + 2] && s[m + 3] == image[p + 3];
    assert s[m] == payload[m] && s[m + 1] == payload[m + 1] && s[m + 2] == payload[m + 2] && s[m + 3] == payload[m + 3];
  }

  /** One record somewhere in an image. */
  lemma RecordAt(image: seq<byte>, p: nat, s: Segment, after: seq<byte>)
    requires EncodableSegment(s) && p <= |image| && image[p..] == Record(s) + after
    ensures p + 8 + |s.payload| <= |image| && image[p + 8 + |s.payload|..] == after
    ensures Read32(image, p) == |s.payload| / 4 && Read32(image, p + 4) == s.address
    ensures image[p + 8..p + 8 + |s.payload|] == s.payload
  {
    hide Word, Read32;
    var a, b := Word(|s.payload| / 4), Word(s.address);
    assert Record(s) + after == a + (b + (s.payload + after));
    Piece(image, p, a, b + (s.payload + after));
    Piece(image, p + 4, b, s.payload + after);
    Piece(image, p + 8, s.payload, after);
    WordRead(image, p, |s.payload| / 4);
    WordRead(image, p + 4, s.address);
  }

  lemma Piece(s: seq<byte>, p: nat, a: seq<byte>, rest: seq<byte>)
    requires p <= |s| && s[p..] == a + rest
    ensures p + |a| <= |s| && s[p..p + |a|] == a && s[p + |a|..] == rest
  {
    assert s[p..][..|a|] == a && s[p..][|a|..] == rest;
  }

  /** The parser, part of the way through what the encoder wrote. */
  lemma {:induction false} RecordsRead(image: seq<byte>, p: nat, sections: seq<Section>, done: seq<Segment>, payloadBytes: nat,
                                       sum: nat, rest: seq<Segment>, entry: word, tail: seq<byte>)
    requires AllEncodable(rest) && |sections| + |rest| <= MAXIMUM_SECTIONS && p <= |image|
    requires image[p..] == RecordsOf(rest) + (Word(0) + Word(entry) + tail)
    requires InBounds(image, sections) && SegmentsOf(image, sections) == done
    ensures var r := RecordsFrom(image, p, sections, payloadBytes, sum % TWO32);
            && r.Ok? && r.value.entry == entry && r.value.payloadBytes == payloadBytes + Lengths(rest)
            && r.value.checksum == (sum + Total(rest)) % TWO32
            && image[r.value.end..] == tail
            && InBounds(image, r.value.sections) && SegmentsOf(image, r.value.sections) == done + rest
    decreases |rest|
  {
    hide Word, Read32, Record, Summed, WordTotal, SegmentsOf, InBounds;
    if rest == [] {
      var end := Word(entry) + tail;
      Three(Word(0), Word(entry), tail);
      assert RecordsOf(rest) + (Word(0) + Word(entry) + tail) == Word(0) + end;
      Piece(image, p, Word(0), end);
      Piece(image, p + 4, Word(entry), tail);
      WordRead(image, p, 0);
      WordRead(image, p + 4, entry);
      assert done + rest == done;
    } else {
      var s, words := rest[0], |rest[0].payload| / 4;
      var end := Word(0) + Word(entry) + tail;
      var after := RecordsOf(rest[1..]) + end;
      Three(Record(s), RecordsOf(rest[1..]), end);
      RecordAt(image, p, s, after);
      SummedIs(image, p + 8, s.payload, words, sum % TWO32, sum);
      var section := Section(s.address, p + 8, words * 4);
      SegmentsGrow(image, sections, section);
      assert done + [s] + rest[1..] == done + rest;
      RecordsRead(image, p + 8 + words * 4, sections + [section], done + [s], payloadBytes + words * 4,
                  sum + WordTotal(s.payload, words), rest[1..], entry, tail);
    }
  }

  lemma Three(a: seq<byte>, b: seq<byte>, c: seq<byte>)
    ensures a + b + c == a + (b + c)
  {
  }

  lemma {:induction false} SegmentsGrow(image: seq<byte>, sections: seq<Section>, section: Section)
    requires InBounds(image, sections) && section.offset + section.length <= |image|
    ensures InBounds(image, sections + [section])
    ensures SegmentsOf(image, sections + [section]) == SegmentsOf(image, sections) + [SegmentOf(image, section)]
  {
  }

  /** Parsing what the encoder wrote gives the segments back, at offsets that hold them. */
  lemma ParseEncoded(control: byte, segments: seq<Segment>, entry: word)
    requires Encodable(segments) && control % 2 == 0
    ensures var image := Encode(control, segments, entry); var r := Parse(image);
            && r.Ok? && r.value.entry == entry && r.value.payloadBytes == Lengths(segments)
            && InBounds(image, r.value.sections) && SegmentsOf(image, r.value.sections) == segments
  {
    hide RecordsFrom, RecordsOf, Word, Read32, SegmentsOf, InBounds, Total, Lengths;
    var image := Encode(control, segments, entry);
    var header := [SIGNATURE_FIRST, SIGNATURE_SECOND, control, NORMAL_FIRMWARE];
    var tail := Word(Total(segments) % TWO32);
    Three(header, RecordsOf(segments), Word(0) + Word(entry) + tail);
    Piece(image, 0, header, RecordsOf(segments) + (Word(0) + Word(entry) + tail));
    assert [] + segments == segments;
    NoSegments(image);
    RecordsRead(image, 4, [], [], 0, 0, segments, entry, tail);
    var r := RecordsFrom(image, 4, [], 0, 0).value;
    Piece(image, r.end, tail, []);
    WordRead(image, r.end, Total(segments) % TWO32);
    SegmentsNonempty(image, r.sections);
  }

  lemma NoSegments(image: seq<byte>)
    ensures InBounds(image, []) && SegmentsOf(image, []) == []
  {
  }

  lemma SegmentsNonempty(image: seq<byte>, sections: seq<Section>)
    requires InBounds(image, sections)
    ensures |SegmentsOf(image, sections)| == |sections|
  {
  }

  // ----- Nothing else is accepted -----

  /** What the parser took from p on is what the encoder writes for it. */
  lemma {:induction false} RecordsWere(image: seq<byte>, p: nat, sections: seq<Section>, payloadBytes: nat, sum: nat)
    requires p <= |image| && InBounds(image, sections) && |sections| <= MAXIMUM_SECTIONS
    requires RecordsFrom(image, p, sections, payloadBytes, sum % TWO32).Ok?
    ensures var r := RecordsFrom(image, p, sections, payloadBytes, sum % TWO32).value;
            && sections <= r.sections && |r.sections| <= MAXIMUM_SECTIONS && InBounds(image, r.sections)
            && var took := SegmentsOf(image, r.sections[|sections|..]);
               && AllEncodable(took)
               && image[p..r.end] == RecordsOf(took) + (Word(0) + Word(r.entry))
               && r.checksum == (sum + Total(took)) % TWO32
    decreases |image| - p
  {
    hide Word, Read32, Summed, Record, SegmentsOf, WordTotal, AllEncodable, RecordsOf, Total, InBounds;
    BoundsGrow(image, sections);
    var words, at: nat := Read32(image, p) as int, p + 8;
    var r := RecordsFrom(image, p, sections, payloadBytes, sum % TWO32).value;
    WordWritten(image, p);
    WordWritten(image, p + 4);
    Joined(image, p, p + 4, at);
    if words == 0 {
      NoSegments(image);
      NoRecords();
      assert r.sections[|sections|..] == [];
      assert [] + (Word(0) + Word(r.entry)) == Word(0) + Word(r.entry);
    } else {
      var section := Section(Read32(image, p + 4), at, words * 4);
      var s := SegmentOf(image, section);
      assert s.payload[..4 * words] == s.payload;
      SummedIs(image, at, s.payload, words, sum % TWO32, sum);
      RecordsWere(image, at + words * 4, sections + [section], payloadBytes + words * 4, sum + WordTotal(s.payload, words));
      var rest := r.sections[|sections| + 1..];
      BoundsTail(image, r.sections, |sections|);
      BoundsTail(image, r.sections, |sections| + 1);
      var took := SegmentsOf(image, rest);
      assert r.sections[|sections|] == (sections + [section])[|sections|] == section;
      assert r.sections[|sections|..] == [section] + rest;
      OneMoreSegment(image, section, rest, took);
      Joined(image, p, at, at + words * 4);
      Joined(image, p, at + words * 4, r.end);
      RecordIs(s);
      Three(Record(s), RecordsOf(took), Word(0) + Word(r.entry));
    }
  }

  lemma Joined(image: seq<byte>, a: nat, b: nat, c: nat)
    requires a <= b <= c <= |image|
    ensures image[a..c] == image[a..b] + image[b..c]
  {
  }

  lemma NoRecords()
    ensures AllEncodable([]) && RecordsOf([]) == [] && Total([]) == 0
  {
  }

  lemma BoundsGrow(image: seq<byte>, sections: seq<Section>)
    requires InBounds(image, sections)
    ensures forall s: Section :: s.offset + s.length <= |image| ==> InBounds(image, sections + [s])
  {
  }

  lemma BoundsTail(image: seq<byte>, sections: seq<Section>, k: nat)
    requires InBounds(image, sections) && k <= |sections|
    ensures InBounds(image, sections[k..])
  {
  }

  lemma RecordIs(s: Segment)
    requires EncodableSegment(s)
    ensures Record(s) == Word(|s.payload| / 4) + Word(s.address) + s.payload
  {
  }

  /** The lists of segments, one section longer. */
  lemma OneMoreSegment(image: seq<byte>, section: Section, rest: seq<Section>, took: seq<Segment>)
    requires section.offset + section.length <= |image|
    requires InBounds(image, [section] + rest) && InBounds(image, rest) && took == SegmentsOf(image, rest)
    requires AllEncodable(took) && EncodableSegment(SegmentOf(image, section))
    ensures var all := SegmentsOf(image, [section] + rest); var s := SegmentOf(image, section);
            && all == [s] + took && AllEncodable(all) && RecordsOf(all) == Record(s) + RecordsOf(took)
            && Total(all) == WordTotal(s.payload, |s.payload| / 4) + Total(took)
  {
    hide Record, WordTotal;
    assert ([section] + rest)[1..] == rest;
    var s := SegmentOf(image, section);
    assert ([s] + took)[1..] == took;
  }

  lemma ParseAccepts(image: seq<byte>)
    requires Parse(image).Ok?
    ensures var b := Parse(image).value;
            && InBounds(image, b.sections)
            && var segments := SegmentsOf(image, b.sections);
               && Encodable(segments) && image[2] % 2 == 0 && image == Encode(image[2], segments, b.entry)
  {
    hide RecordsFrom, RecordsOf, Word, Read32, SegmentsOf, Total;
    var r := RecordsFrom(image, 4, [], 0, 0).value;
    assert 0 % TWO32 == 0;
    RecordsWere(image, 4, [], 0, 0);
    assert r.sections[0..] == r.sections;
    var segments := SegmentsOf(image, r.sections);
    SegmentsNonempty(image, r.sections);
    WordWritten(image, r.end);
    Joined(image, 4, r.end, |image|);
    Joined(image, 0, 4, |image|);
    assert image[..4] == [SIGNATURE_FIRST, SIGNATURE_SECOND, image[2], NORMAL_FIRMWARE];
    assert image[0..|image|] == image && image[0..4] == image[..4];
    Three(image[..4], RecordsOf(segments), Word(0) + Word(r.entry) + Word(Total(segments) % TWO32));
    Three(RecordsOf(segments), Word(0) + Word(r.entry), Word(Total(segments) % TWO32));
  }

  /** The parser accepts exactly the encoder's outputs. */
  lemma AcceptsExactlyEncodings(image: seq<byte>)
    ensures Parse(image).Ok? <==> exists control: byte, segments, entry: word ::
              Encodable(segments) && control % 2 == 0 && image == Encode(control, segments, entry)
  {
    if Parse(image).Ok? { ParseAccepts(image); }
    forall control: byte, segments: seq<Segment>, entry: word |
      Encodable(segments) && control % 2 == 0 && image == Encode(control, segments, entry)
      ensures Parse(image).Ok?
    {
      ParseEncoded(control, segments, entry);
    }
  }
}
