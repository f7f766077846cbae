/**
  What a header is, byte for byte, and what its checksum sums.
 */
module UstarLayout {
  import opened Ustar

  function Sum(bytes: seq<byte>): nat
  {
    if bytes == [] then 0 else Sum(bytes[..|bytes| - 1]) + bytes[|bytes| - 1]
  }

  lemma {:induction false} SumJoins(a: seq<byte>, b: seq<byte>)
    ensures Sum(a + b) == Sum(a) + Sum(b)
  {
    if b == [] {
      assert a + b == a;
    } else {
      assert (a + b)[..|a + b| - 1] == a + b[..|b| - 1];
      SumJoins(a, b[..|b| - 1]);
    }
  }

  /** The checksum is the sum of the bytes outside its own field, and of eight spaces. */
  lemma ChecksumIs(block: seq<byte>)
    requires |block| == BLOCK
    ensures HeaderChecksum(block) == Sum(block[..148]) + Sum(block[156..]) + 8 * 32
  {
    SumsBefore(block, 148);
    SumsField(block, 8);
    SumsAfter(block, BLOCK);
    assert block[156..BLOCK] == block[156..];
  }

  lemma {:induction false} SumsBefore(block: seq<byte>, n: nat)
    requires n <= 148 <= |block|
    ensures SumTo(block, n) == Sum(block[..n])
  {
    if n > 0 {
      SumsBefore(block, n - 1);
      assert block[..n][..n - 1] == block[..n - 1];
    }
  }

  lemma {:induction false} SumsField(block: seq<byte>, n: nat)
    requires n <= 8 && |block| == BLOCK
    ensures SumTo(block, 148 + n) == SumTo(block, 148) + n * 32
  {
    if n > 0 { SumsField(block, n - 1); }
  }

  lemma {:induction false} SumsAfter(block: seq<byte>, n: nat)
    requires 156 <= n <= BLOCK == |block|
    ensures SumTo(block, n) == SumTo(block, 156) + Sum(block[156..n])
  {
    if n > 156 {
      SumsAfter(block, n - 1);
      assert block[156..n][..n - 157] == block[156..n - 1];
    }
  }

  /** A name cut or filled to its field. */
  function NameField(name: seq<byte>): (f: seq<byte>)
    ensures |f| == NAME_SIZE
  {
    var kept := name[..Min(|name|, NAME_SIZE)];
    kept + Zeros(NAME_SIZE - |kept|)
  }

  /** The name, mode 0644, owner and group 0, the size, time 0, the checksum, a regular
      file, no link; ustar, version 00; and nothing else. */
  function Layout(name: seq<byte>, size: nat, checksum: seq<byte>): seq<byte>
  {
    NameField(name) + OctalField(420, 8) + OctalField(0, 8) + OctalField(0, 8) + OctalField(size, 12) + OctalField(0, 12)
    + checksum + [48] + Zeros(100) + [117, 115, 116, 97, 114] + Zeros(1) + [48, 48] + Zeros(247)
  }

  /** Every header is this, with six octal digits, a NUL and a space for the sum. */
  lemma HeaderIs(name: seq<byte>, size: nat)
    ensures var sum := Sum(Layout(name, size, [])) + 8 * 32;
            sum < 262144 && Header(name, size) == Layout(name, size, Digits(sum, 6) + [0, 32])
  {
    hide Digits, OctalField, Sum, Layout, Zeros, Patched, HeaderChecksum;
    var u := Unsummed(name, size);
    UnsummedIs(name, size);
    ChecksumIs(u);
    OutsideIs(name, size, Spaces(8));
    var sum := HeaderChecksum(u);
    FieldIs(sum);
    Overwrites(name, size, Spaces(8), ChecksumField(sum));
  }

  lemma FieldIs(sum: nat)
    ensures ChecksumField(sum) == Digits(sum, 6) + [0, 32]
  {
  }

  /** Writing past what has been written. */
  lemma Appends(p: seq<byte>, n: nat, gap: nat, field: seq<byte>)
    requires gap + |field| <= n
    ensures Patched(p + Zeros(n), |p| + gap, field) == p + Zeros(gap) + field + Zeros(n - gap - |field|)
  {
  }

  lemma NoZeros(p: seq<byte>)
    ensures p + Zeros(0) == p
  {
  }

  lemma UnsummedIs(name: seq<byte>, size: nat)
    ensures Unsummed(name, size) == Layout(name, size, Spaces(8))
  {
    hide Patched, OctalField, Zeros, Spaces, NameField;
    var p1 := NameField(name);
    NameWritten(name);
    var p2 := p1 + OctalField(420, 8);
    var p3 := p2 + OctalField(0, 8);
    var p4 := p3 + OctalField(0, 8);
    var p5 := p4 + OctalField(size, 12);
    var p6 := p5 + OctalField(0, 12);
    var p7 := p6 + Zeros(8) + [48];
    var p8 := p7 + Zeros(100) + [117, 115, 116, 97, 114];
    NoZeros(p1); Appends(p1, 412, 0, OctalField(420, 8));
    NoZeros(p2); Appends(p2, 404, 0, OctalField(0, 8));
    NoZeros(p3); Appends(p3, 396, 0, OctalField(0, 8));
    NoZeros(p4); Appends(p4, 388, 0, OctalField(size, 12));
    NoZeros(p5); Appends(p5, 376, 0, OctalField(0, 12));
    Appends(p6, 364, 8, [48]);
    Appends(p7, 355, 100, USTAR);
    Appends(p8, 250, 1, [48, 48]);
    Replaces(p6, Zeros(8), [48] + Zeros(100) + [117, 115, 116, 97, 114] + Zeros(1) + [48, 48] + Zeros(247), Spaces(8));
    Regroup(p6, Zeros(8), [48], Zeros(100), [117, 115, 116, 97, 114], Zeros(1), [48, 48], Zeros(247));
    Regroup(p6, Spaces(8), [48], Zeros(100), [117, 115, 116, 97, 114], Zeros(1), [48, 48], Zeros(247));
  }

  lemma NameWritten(name: seq<byte>)
    ensures Patched(Zeros(BLOCK), 0, name[..Min(|name|, NAME_SIZE)]) == NameField(name) + Zeros(412)
  {
  }

  lemma Regroup(p: seq<byte>, a: seq<byte>, b: seq<byte>, c: seq<byte>, d: seq<byte>, e: seq<byte>, f: seq<byte>, g: seq<byte>)
    ensures p + a + b + c + d + e + f + g == p + a + (b + c + d + e + f + g)
  {
  }

  lemma Replaces(p: seq<byte>, old_: seq<byte>, rest: seq<byte>, new_: seq<byte>)
    requires |old_| == |new_|
    ensures Patched(p + old_ + rest, |p|, new_) == p + new_ + rest
  {
  }

  lemma Overwrites(name: seq<byte>, size: nat, before: seq<byte>, after: seq<byte>)
    requires |before| == |after| == 8
    ensures |Layout(name, size, before)| == BLOCK
    ensures Patched(Layout(name, size, before), CHECKSUM_OFFSET, after) == Layout(name, size, after)
  {
    hide Patched, OctalField, Zeros, NameField;
    var p := NameField(name) + OctalField(420, 8) + OctalField(0, 8) + OctalField(0, 8) + OctalField(size, 12) + OctalField(0, 12);
    var rest := [48] + Zeros(100) + [117, 115, 116, 97, 114] + Zeros(1) + [48, 48] + Zeros(247);
    Regroup(p, before, [48], Zeros(100), [117, 115, 116, 97, 114], Zeros(1), [48, 48], Zeros(247));
    Regroup(p, after, [48], Zeros(100), [117, 115, 116, 97, 114], Zeros(1), [48, 48], Zeros(247));
    Replaces(p, before, rest, after);
  }

  /** The bytes outside the checksum's field. */
  lemma OutsideIs(name: seq<byte>, size: nat, checksum: seq<byte>)
    requires |checksum| == 8
    ensures var h := Layout(name, size, checksum);
            |h| == BLOCK && Sum(h[..148]) + Sum(h[156..]) == Sum(Layout(name, size, []))
  {
    hide OctalField, Zeros, NameField, Sum;
    var p := NameField(name) + OctalField(420, 8) + OctalField(0, 8) + OctalField(0, 8) + OctalField(size, 12) + OctalField(0, 12);
    var rest := [48] + Zeros(100) + [117, 115, 116, 97, 114] + Zeros(1) + [48, 48] + Zeros(247);
    Regroup(p, checksum, [48], Zeros(100), [117, 115, 116, 97, 114], Zeros(1), [48, 48], Zeros(247));
    Regroup(p, [], [48], Zeros(100), [117, 115, 116, 97, 114], Zeros(1), [48, 48], Zeros(247));
    Cuts(p, checksum, rest);
    SumJoins(p, rest);
  }

  lemma Cuts(p: seq<byte>, a: seq<byte>, rest: seq<byte>)
    requires |p| == 148 && |a| == 8
    ensures (p + a + rest)[..148] == p && (p + a + rest)[156..] == rest && p + [] + rest == p + rest
  {
  }
}
