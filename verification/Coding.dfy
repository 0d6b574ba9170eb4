/**
Byte-level encodings shared by the log, the tables and the manifest
(util/leveldb/util/coding.cc, util/leveldb/util/crc32c.h).
 */
module Coding {
  import opened Common

  type Byte = n: nat | n < 256
  type Bytes = seq<Byte>
  type Word = bv32

  // ---------------------------------------------------------------- fixed-width integers

  /** The `k` low bytes of `v`, lowest first. */
  function LittleEndian(v: nat, k: nat): (b: Bytes)
    ensures |b| == k
    decreases k
  {
    if k == 0 then [] else [v % 256] + LittleEndian(v / 256, k - 1)
  }

  function FromLittleEndian(b: Bytes): (v: nat)
    ensures v < Base(|b|)
  {
    if b == [] then 0 else b[0] + 256 * FromLittleEndian(b[1..])
  }

  /** How many numbers `k` bytes can hold. */
  function Base(k: nat): (p: nat)
    ensures p > 0
  {
    if k == 0 then 1 else 256 * Base(k - 1)
  }

  function Zeros(n: nat): (b: Bytes)
    ensures |b| == n
  {
    seq(n, _ => 0)
  }

  /** Four bytes for each number. */
  function Words(ns: seq<nat>): (b: Bytes)
    ensures |b| == 4 * |ns|
  {
    if ns == [] then [] else Words(ns[..|ns| - 1]) + LittleEndian(ns[|ns| - 1], 4)
  }

  lemma {:induction false} WordAt(ns: seq<nat>, j: nat)
    requires j < |ns|
    ensures Words(ns)[4 * j..4 * j + 4] == LittleEndian(ns[j], 4)
    decreases |ns|
  {
    hide LittleEndian;
    var front := ns[..|ns| - 1];
    var a, b := Words(front), LittleEndian(ns[|ns| - 1], 4);
    if j < |front| {
      WordAt(front, j);
      assert (a + b)[4 * j..4 * j + 4] == a[4 * j..4 * j + 4];
    } else {
      assert (a + b)[4 * j..4 * j + 4] == b;
    }
  }

  lemma {:induction false} LittleEndianRoundTrip(v: nat, k: nat)
    requires v < Base(k)
    ensures FromLittleEndian(LittleEndian(v, k)) == v
  {
    if k > 0 {
      LittleEndianRoundTrip(v / 256, k - 1);
      assert LittleEndian(v, k)[1..] == LittleEndian(v / 256, k - 1);
    }
  }

  /** Byte `i` has the bits of the number from `8 * i` on. */
  lemma {:induction false} LittleEndianBits(v: nat, k: nat, i: nat, j: nat)
    requires i < k && j < 8
    ensures Bit(LittleEndian(v, k)[i], j) <==> Bit(v, 8 * i + j)
    decreases k
  {
    SmallPowers();
    hide Bit, Pow2;
    if i == 0 {
      LowBit(v, 8, j);
    } else {
      LittleEndianBits(v / 256, k - 1, i - 1, j);
      HighBit(v, 8, 8 * (i - 1) + j);
    }
  }

  function EncodeFixed32(v: Word): (b: Bytes)
    ensures |b| == 4
  {
    LittleEndian(v as nat, 4)
  }

  function DecodeFixed32(b: Bytes): (v: Word)
    requires |b| == 4
  {
    assert Base(4) == 0x1_0000_0000;
    FromLittleEndian(b) as Word
  }

  lemma Fixed32RoundTrip(v: Word)
    ensures DecodeFixed32(EncodeFixed32(v)) == v
  {
    hide LittleEndian, FromLittleEndian;
    assert Base(4) == 0x1_0000_0000;
    LittleEndianRoundTrip(v as nat, 4);
  }

  // ---------------------------------------------------------------- CRC32C

  /** Polynomial 0x1EDC6F41 of section 12.1 of RFC 3720, bit-reflected. */
  const POLYNOMIAL: Word := 0x82f63b78

  function CrcBit(c: Word): (r: Word) {
    if c & 1 == 1 then (c >> 1) ^ POLYNOMIAL else c >> 1
  }

  function CrcByte(c: Word, b: Byte): (r: Word) {
    CrcBit(CrcBit(CrcBit(CrcBit(CrcBit(CrcBit(CrcBit(CrcBit(c ^ (b as Word)))))))))
  }

  function CrcFold(c: Word, data: Bytes): (r: Word) {
    if data == [] then c else CrcByte(CrcFold(c, data[..|data| - 1]), data[|data| - 1])
  }

  /** The CRC of a string A followed by `data`, given the CRC of A. */
  function Extend(crc: Word, data: Bytes): (r: Word) {
    Complement(CrcFold(Complement(crc), data))
  }

  function Complement(c: Word): (r: Word) {
    !c
  }

  function Crc(data: Bytes): (r: Word) {
    Extend(0, data)
  }

  lemma {:induction false} CrcFoldConcat(c: Word, a: Bytes, b: Bytes)
    ensures CrcFold(c, a + b) == CrcFold(CrcFold(c, a), b)
  {
    if b == [] {
      assert a + b == a;
    } else {
      assert (a + b)[..|a + b| - 1] == a + b[..|b| - 1];
      CrcFoldConcat(c, a, b[..|b| - 1]);
    }
  }

  lemma DoubleComplement(c: Word)
    ensures Complement(Complement(c)) == c
  {
  }

  /** Extending the CRC of `a` by `b` gives the CRC of their concatenation. */
  lemma ExtendConcat(crc: Word, a: Bytes, b: Bytes)
    ensures Extend(Extend(crc, a), b) == Extend(crc, a + b)
  {
    hide CrcFold, CrcByte, CrcBit, Complement;
    CrcFoldConcat(Complement(crc), a, b);
    DoubleComplement(CrcFold(Complement(crc), a));
  }

  function FourZeros(c: Word): (r: Word) {
    CrcByte(CrcByte(CrcByte(CrcByte(c, 0), 0), 0), 0)
  }

  lemma FoldFourZeros(c: Word, n: nat)
    ensures CrcFold(c, Zeros(n + 4)) == FourZeros(CrcFold(c, Zeros(n)))
  {
    hide CrcByte;
    OneZero(c, n);
    OneZero(c, n + 1);
    OneZero(c, n + 2);
    OneZero(c, n + 3);
  }

  lemma OneZero(c: Word, n: nat)
    ensures CrcFold(c, Zeros(n + 1)) == CrcByte(CrcFold(c, Zeros(n)), 0)
  {
    hide CrcByte;
    assert Zeros(n + 1)[..n] == Zeros(n);
  }

  /** The test vector of appendix B.4 of RFC 3720 for 32 zero bytes. */
  lemma CrcOfZeros()
    ensures Crc(Zeros(32)) == 0x8a9136aa
  {
    hide CrcFold, FourZeros, CrcByte, CrcBit;
    var c: Word := 0xffffffff;
    NoData(c);
    FoldFourZeros(c, 0);
    FoldFourZeros(c, 4);
    FoldFourZeros(c, 8);
    FoldFourZeros(c, 12);
    FoldFourZeros(c, 16);
    FoldFourZeros(c, 20);
    FoldFourZeros(c, 24);
    FoldFourZeros(c, 28);
    StepsOfZeros();
  }

  lemma NoData(c: Word)
    ensures CrcFold(c, Zeros(0)) == c
  {
  }

  lemma StepsOfZeros()
    ensures FourZeros(0xffffffff) == 0xb798b438 && FourZeros(0xb798b438) == 0x73d74d75
    ensures FourZeros(0x73d74d75) == 0xd49f4aa2 && FourZeros(0xd49f4aa2) == 0xbd8f6515
    ensures FourZeros(0xbd8f6515) == 0x433aa9c1 && FourZeros(0x433aa9c1) == 0x7b041311
    ensures FourZeros(0x7b041311) == 0x08363896 && FourZeros(0x08363896) == 0x756ec955
  {
  }

  const MASK_DELTA: Word := 0xa282ead8

  function Mask(crc: Word): (m: Word) {
    ((crc >> 15) | (crc << 17)) + MASK_DELTA
  }

  function Unmask(m: Word): (crc: Word) {
    var rot := m - MASK_DELTA;
    (rot >> 17) | (rot << 15)
  }

  lemma MaskRoundTrip(crc: Word)
    ensures Unmask(Mask(crc)) == crc && Mask(Unmask(crc)) == crc
  {
  }
}
