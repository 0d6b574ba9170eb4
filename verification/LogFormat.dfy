/**
The write-ahead log (util/leveldb/db/log_writer.cc, util/leveldb/db/log_reader.cc,
util/leveldb/db/log_format.h): records are cut into fragments that never cross a block, each with a
checksummed header; a reader of any prefix of the file returns the records wholly inside it.
 */
module LogFormat {
  import opened Coding

  const BLOCK: nat := 32768
  const HEADER: nat := 7

  const FULL: Byte := 1
  const FIRST: Byte := 2
  const MIDDLE: Byte := 3
  const LAST: Byte := 4

  // ---------------------------------------------------------------- what the writer puts into the file

  function FragmentType(begin: bool, end: bool): (t: Byte) {
    if begin && end then FULL else if begin then FIRST else if end then LAST else MIDDLE
  }

  /** Where the next header goes when the file has length `g`: a block's last bytes stay unused. */
  function HeaderAt(g: nat): (o: nat)
    ensures g <= o < g + HEADER
    ensures o % BLOCK + HEADER <= BLOCK
    ensures o == g || (o % BLOCK == 0 && o / BLOCK == g / BLOCK + 1)
  {
    if BLOCK - g % BLOCK < HEADER then g - g % BLOCK + BLOCK else g
  }

  /** How many of `left` bytes fit behind a header at `o`. */
  function Fit(o: nat, left: nat): (n: nat)
    requires o % BLOCK + HEADER <= BLOCK
    ensures n <= left && o % BLOCK + HEADER + n <= BLOCK
    ensures n < left ==> o % BLOCK + HEADER + n == BLOCK
  {
    var avail := BLOCK - o % BLOCK - HEADER;
    if left < avail then left else avail
  }

  function LengthBytes(n: nat): (b: Bytes)
    requires n < 0x10000
    ensures |b| == 2
  {
    [n % 256, n / 256]
  }

  function Header(t: Byte, data: Bytes): (b: Bytes)
    requires |data| < 0x10000
    ensures |b| == HEADER
  {
    EncodeFixed32(Mask(Extend(Crc([t]), data))) + LengthBytes(|data|) + [t]
  }

  function Physical(t: Byte, data: Bytes): (b: Bytes)
    requires |data| < 0x10000
    ensures |b| == HEADER + |data|
  {
    Header(t, data) + data
  }

  /** A checksum, two bytes of length, the kind of fragment from 1 to 4, and the data. */
  lemma PhysicalLayout(begin: bool, end: bool, data: Bytes)
    requires |data| < 0x10000
    ensures var p := Physical(FragmentType(begin, end), data);
            && p[4] as int + 256 * (p[5] as int) == |data| && p[7..] == data
            && p[6] == if begin then if end then 1 else 2 else if end then 4 else 3
  {
    hide Mask, Extend, Crc;
  }

  /** The bytes appended for the rest `data` of a record when the file has length `g`. */
  function Fragments(data: Bytes, g: nat, begin: bool): (b: Bytes)
    decreases |data|, BLOCK - HeaderAt(g) % BLOCK == HEADER
  {
    var o := HeaderAt(g);
    var n := Fit(o, |data|);
    var head := Zeros(o - g) + Physical(FragmentType(begin, n == |data|), data[..n]);
    if n == |data| then head else head + Fragments(data[n..], o + HEADER + n, false)
  }

  /** The bytes of a whole list of records appended to a file of length `g`. */
  function Records(rs: seq<Bytes>, g: nat): (b: Bytes) {
    if rs == [] then []
    else
      var first := Fragments(rs[0], g, true);
      first + Records(rs[1..], g + |first|)
  }

  lemma {:induction false} FragmentsUnfold(data: Bytes, g: nat, begin: bool)
    ensures var o := HeaderAt(g);
            var n := Fit(o, |data|);
            var head := Zeros(o - g) + Physical(FragmentType(begin, n == |data|), data[..n]);
            && |head| == o - g + HEADER + n
            && Fragments(data, g, begin)
               == if n == |data| then head else head + Fragments(data[n..], o + HEADER + n, false)
  {
  }

  /** Appending one more record to a file of records. */
  lemma {:induction false} RecordsAppend(rs: seq<Bytes>, r: Bytes, g: nat)
    ensures Records(rs + [r], g) == Records(rs, g) + Fragments(r, g + |Records(rs, g)|, true)
  {
    hide Fragments;
    if rs == [] {
      assert rs + [r] == [r] && [r][1..] == [];
    } else {
      var first := Fragments(rs[0], g, true);
      assert (rs + [r])[1..] == rs[1..] + [r];
      RecordsAppend(rs[1..], r, g + |first|);
    }
  }
}
