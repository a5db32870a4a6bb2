/**
  The 64-byte record of the snapshot and journal files: little-endian fields and a
  32-bit FNV-1a checksum (section 2 of draft-eastlake-fnv) over the first 60 bytes.
 */
module Codec {
  import opened Types
  import Bits

  const RECORD_SIZE: nat := 64
  const MAGIC: uint64 := 0x3141_5445_4d44_4e41
  const FNV_BASIS: uint32 := 2166136261
  const FNV_PRIME: uint32 := 16777619
  // The inverse of the FNV prime modulo 2^32.
  const FNV_INVERSE: uint32 := 899433627

  type Bytes = seq<byte>
  type Record = r: Bytes | |r| == RECORD_SIZE witness seq(RECORD_SIZE, _ => 0)

  function Pow256(k: nat): (r: nat)
    ensures r > 0
  {
    if k == 0 then 1 else 256 * Pow256(k - 1)
  }

  /** `value >> (8 * i)`. */
  function ShiftRight(value: nat, i: nat): nat {
    if i == 0 then value else ShiftRight(value / 256, i - 1)
  }

  /** The `size` low bytes of a value, least significant first. */
  function Little(value: nat, size: nat): (data: Bytes)
    ensures |data| == size
  {
    if size == 0 then [] else [value % 256] + Little(value / 256, size - 1)
  }

  /** The value of bytes written least significant first. */
  function Value(data: Bytes): nat {
    if data == [] then 0 else data[0] + 256 * Value(data[1..])
  }

  lemma {:induction false} LittleByte(value: nat, size: nat, i: nat)
    requires i < size
    ensures Little(value, size)[i] == ShiftRight(value, i) % 256
  {
    if i > 0 { LittleByte(value / 256, size - 1, i - 1); }
  }

  lemma {:induction false} ValueOfLittle(value: nat, size: nat)
    requires value < Pow256(size)
    ensures Value(Little(value, size)) == value
  {
    if size > 0 {
      ValueOfLittle(value / 256, size - 1);
      assert Little(value, size)[1..] == Little(value / 256, size - 1);
    }
  }

  lemma {:induction false} LittleOfValue(data: Bytes)
    ensures Little(Value(data), |data|) == data
    ensures Value(data) < Pow256(|data|)
  {
    if data != [] {
      LittleOfValue(data[1..]);
      assert Value(data) % 256 == data[0] && Value(data) / 256 == Value(data[1..]);
    }
  }

  lemma {:induction false} ValueOfSnoc(data: Bytes, b: byte)
    ensures Value(data + [b]) == Value(data) + b * Pow256(|data|)
  {
    var all := data + [b];
    if data == [] {
      assert all[1..] == [];
    } else {
      ValueOfSnoc(data[1..], b);
      assert all[1..] == data[1..] + [b];
    }
  }

  /** Known checksums: of no bytes, and of the letter a. */
  lemma KnownChecksums()
    ensures Checksum([]) == 0x811C_9DC5 && Checksum([0x61]) == 0xE40C_292C
  {
    assert Bits.Xor(16922939, 0) == 16922939;
    assert Bits.Xor(33845879, 1) == 33845878;
    assert Bits.Xor(67691758, 3) == 67691757;
    assert Bits.Xor(135383516, 6) == 135383514;
    assert Bits.Xor(270767032, 12) == 270767028;
    assert Bits.Xor(541534065, 24) == 541534057;
    assert Bits.Xor(1083068130, 48) == 1083068114;
    assert Bits.Xor(2166136261, 97) == 2166136228;
    hide Bits.Xor;
    OneByte(0x61);
  }

  lemma OneByte(b: byte)
    ensures Checksum([b]) == HashStep(FNV_BASIS, b)
  {
    hide HashStep;
    assert [b][..0] == [];
  }

  lemma Widths()
    ensures Pow256(4) == 0x1_0000_0000 && Pow256(8) == 0x1_0000_0000_0000_0000
  {
  }

  function HashStep(hash: uint32, b: byte): uint32 {
    Bits.WordPowers();
    Bits.XorBound(hash, b, 32);
    (Bits.Xor(hash, b) * FNV_PRIME) % 0x1_0000_0000
  }

  function Checksum(data: Bytes): uint32 {
    if data == [] then FNV_BASIS else HashStep(Checksum(data[..|data| - 1]), data[|data| - 1])
  }

  lemma TimesPrimeInjective(x: uint32, y: uint32)
    requires (x * FNV_PRIME) % 0x1_0000_0000 == (y * FNV_PRIME) % 0x1_0000_0000
    ensures x == y
  {
    var m := 0x1_0000_0000;
    var d, k := x - y, (x * FNV_PRIME) / m - (y * FNV_PRIME) / m;
    assert FNV_PRIME * FNV_INVERSE == 1 + 3513497 * m;
    assert d * FNV_PRIME == k * m;
    assert d + 3513497 * m * d == k * m * FNV_INVERSE;
    assert d == m * (k * FNV_INVERSE - 3513497 * d);
  }

  /** A step of the checksum is injective in the running hash and in the byte. */
  lemma StepInjective(h: uint32, a: byte, k: uint32, b: byte)
    requires HashStep(h, a) == HashStep(k, b) && (h == k || a == b)
    ensures h == k && a == b
  {
    Bits.WordPowers();
    Bits.XorBound(h, a, 32);
    Bits.XorBound(k, b, 32);
    TimesPrimeInjective(Bits.Xor(h, a), Bits.Xor(k, b));
    Bits.XorUndo(h, a);
    Bits.XorUndo(k, b);
    Bits.XorCommutes(h, a);
    Bits.XorCommutes(k, b);
    Bits.XorUndo(a, h);
    Bits.XorUndo(b, k);
  }

  /** Changing one byte changes the checksum. */
  lemma {:induction false} ChecksumDiffers(data: Bytes, i: nat, b: byte)
    requires i < |data| && data[i] != b
    ensures Checksum(data[i := b]) != Checksum(data)
  {
    var n, other := |data| - 1, data[i := b];
    if i < n {
      ChecksumDiffers(data[..n], i, b);
      assert other[..n] == data[..n][i := b];
    } else {
      assert other[..n] == data[..n];
    }
    if Checksum(other) == Checksum(data) {
      StepInjective(Checksum(other[..n]), other[n], Checksum(data[..n]), data[n]);
    }
  }

  function Identity(o: FileOwner, sequence: uint64): (r: Bytes)
    ensures |r| == 32
  {
    Little(MAGIC, 8) + Little(sequence, 8) + Little(o.device, 8) + Little(o.inode, 8)
  }

  /** The identity fields of a record, followed by the attributes of the owner. */
  function WithAttributes(identity: Bytes, o: FileOwner): (r: Bytes)
    ensures |r| == |identity| + 24
  {
    identity + Little(o.birthSeconds, 8) + Little(o.birthNanoseconds, 4) + Little(o.uid, 4)
    + Little(o.gid, 4) + Little(o.mode, 4)
  }

  function Body(o: FileOwner, sequence: uint64): (r: Bytes)
    ensures |r| == 60
  {
    WithAttributes(Identity(o, sequence), o) + [0, 0, 0, 0]
  }

  function Packed(o: FileOwner, sequence: uint64): Record {
    Body(o, sequence) + Little(Checksum(Body(o, sequence)), 4)
  }

  function Word64(r: Record, at: nat): uint64
    requires at + 8 <= RECORD_SIZE
  {
    LittleOfValue(r[at..at + 8]);
    Widths();
    Value(r[at..at + 8])
  }

  function Word32(r: Record, at: nat): uint32
    requires at + 4 <= RECORD_SIZE
  {
    LittleOfValue(r[at..at + 4]);
    Widths();
    Value(r[at..at + 4])
  }

  function Unpacked(r: Record): FileOwner {
    FileOwner(Word64(r, 16), Word64(r, 24), Word64(r, 32),
              Word32(r, 40), Word32(r, 44), Word32(r, 48), Word32(r, 52))
  }

  function SequenceOf(r: Record): uint64 { Word64(r, 8) }

  /** The test that recovery applies to every record it reads. */
  predicate Accepted(r: Record) {
    Word64(r, 0) == MAGIC && Word32(r, 60) == Checksum(r[..60])
  }

  lemma HeadFields(o: FileOwner, sequence: uint64)
    ensures var r := Packed(o, sequence);
            r[0..8] == Little(MAGIC, 8) && r[8..16] == Little(sequence, 8)
            && r[16..24] == Little(o.device, 8) && r[24..32] == Little(o.inode, 8)
  {
    hide Little, Checksum;
    var identity := Identity(o, sequence);
    assert Packed(o, sequence)[..32] == identity;
    assert identity[0..8] == Little(MAGIC, 8) && identity[8..16] == Little(sequence, 8);
    assert identity[16..24] == Little(o.device, 8) && identity[24..32] == Little(o.inode, 8);
  }

  lemma TailFields(o: FileOwner, sequence: uint64)
    ensures var r := Packed(o, sequence);
            r[32..40] == Little(o.birthSeconds, 8) && r[40..44] == Little(o.birthNanoseconds, 4)
            && r[44..48] == Little(o.uid, 4) && r[48..52] == Little(o.gid, 4)
            && r[52..56] == Little(o.mode, 4) && r[56..60] == [0, 0, 0, 0]
  {
    hide Little, Checksum, Identity;
    var identity := Identity(o, sequence);
    assert Packed(o, sequence)[..56] == WithAttributes(identity, o);
    assert WithAttributes(identity, o)[..40] == identity + Little(o.birthSeconds, 8);
  }

  lemma ChecksumField(o: FileOwner, sequence: uint64)
    ensures var r := Packed(o, sequence);
            r[..60] == Body(o, sequence) && r[60..64] == Little(Checksum(Body(o, sequence)), 4)
  {
  }

  /** A packed record is accepted, and gives back the owner and the sequence number it was made from. */
  lemma PackRoundTrip(o: FileOwner, sequence: uint64)
    ensures Accepted(Packed(o, sequence))
    ensures Unpacked(Packed(o, sequence)) == o && SequenceOf(Packed(o, sequence)) == sequence
  {
    HeadFields(o, sequence);
    TailFields(o, sequence);
    ChecksumField(o, sequence);
    Widths();
    ValueOfLittle(MAGIC, 8);
    ValueOfLittle(sequence, 8);
    ValueOfLittle(o.device, 8);
    ValueOfLittle(o.inode, 8);
    ValueOfLittle(o.birthSeconds, 8);
    ValueOfLittle(o.birthNanoseconds, 4);
    ValueOfLittle(o.uid, 4);
    ValueOfLittle(o.gid, 4);
    ValueOfLittle(o.mode, 4);
    ValueOfLittle(Checksum(Body(o, sequence)), 4);
  }

  /** No accepted record stays accepted when exactly one of its 64 bytes is altered. */
  lemma AlteredByteRejected(r: Record, i: nat, b: byte)
    requires Accepted(r) && i < RECORD_SIZE && r[i] != b
    ensures !Accepted(r[i := b])
  {
    var s := r[i := b];
    if i < 60 {
      ChecksumDiffers(r[..60], i, b);
      assert s[..60] == r[..60][i := b];
      assert s[60..64] == r[60..64];
    } else {
      assert s[..60] == r[..60];
      LittleOfValue(r[60..64]);
      LittleOfValue(s[60..64]);
      assert s[60..64][i - 60] == b && r[60..64][i - 60] == r[i];
    }
  }

  method Encode(data: array<byte>, at: nat, value: nat, size: nat)
    requires at + size <= data.Length
    modifies data
    ensures data[..at + size] == old(data[..at]) + Little(value, size)
    ensures forall j | at + size <= j < data.Length :: data[j] == old(data[j])
  {
    for i := 0 to size
      invariant data[..at] == old(data[..at]) && data[at + size..] == old(data[at + size..])
      invariant forall j | 0 <= j < i :: data[at + j] == Little(value, size)[j]
    {
      LittleByte(value, size, i);
      data[at + i] := ShiftRight(value, i) % 256;
    }
    assert data[at..at + size] == Little(value, size);
    assert data[..at + size] == data[..at] + data[at..at + size];
  }

  /** The bits or-ed together do not overlap, so that or is addition. */
  method Decode(data: Bytes) returns (result: nat)
    ensures result == Value(data)
  {
    result := 0;
    for i := 0 to |data|
      invariant result == Value(data[..i])
    {
      ValueOfSnoc(data[..i], data[i]);
      assert data[..i + 1] == data[..i] + [data[i]];
      result := result + data[i] * Pow256(i);
    }
    assert data[..|data|] == data;
  }

  method ComputeChecksum(data: Bytes) returns (value: uint32)
    ensures value == Checksum(data)
  {
    value := FNV_BASIS;
    for i := 0 to |data|
      invariant value == Checksum(data[..i])
    {
      assert data[..i + 1][..i] == data[..i];
      value := HashStep(value, data[i]);
    }
    assert data[..|data|] == data;
  }

  method EncodeIdentity(data: array<byte>, o: FileOwner, sequence: uint64)
    requires data.Length == RECORD_SIZE
    modifies data
    ensures data[..32] == Identity(o, sequence)
    ensures forall j | 32 <= j < RECORD_SIZE :: data[j] == old(data[j])
  {
    hide Little, ShiftRight;
    Encode(data, 0, MAGIC, 8);
    Encode(data, 8, sequence, 8);
    Encode(data, 16, o.device, 8);
    Encode(data, 24, o.inode, 8);
  }

  method EncodeAttributes(data: array<byte>, o: FileOwner)
    requires data.Length == RECORD_SIZE
    modifies data
    ensures data[..56] == WithAttributes(old(data[..32]), o)
    ensures forall j | 56 <= j < RECORD_SIZE :: data[j] == old(data[j])
  {
    hide Little, ShiftRight;
    Encode(data, 32, o.birthSeconds, 8);
    Encode(data, 40, o.birthNanoseconds, 4);
    Encode(data, 44, o.uid, 4);
    Encode(data, 48, o.gid, 4);
    Encode(data, 52, o.mode, 4);
  }

  method Pack(o: FileOwner, sequence: uint64) returns (r: Record)
    ensures r == Packed(o, sequence)
  {
    var data := new byte[RECORD_SIZE](_ => 0);
    EncodeIdentity(data, o, sequence);
    EncodeAttributes(data, o);
    assert data[56..60] == [0, 0, 0, 0];
    assert data[..60] == data[..56] + data[56..60];
    var sum := ComputeChecksum(data[..60]);
    Encode(data, 60, sum, 4);
    return data[..];
  }
}
