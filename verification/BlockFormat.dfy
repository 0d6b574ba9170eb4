/**
The contents of a table block: entries with shared key prefixes, then an array of restart points
(util/leveldb/table/block_builder.cc, util/leveldb/table/block.cc).
 */
module BlockFormat {
  import opened Common
  import opened Keys
  import opened Coding
  import opened Varints

  datatype KV = KV(key: Bytes, value: Bytes)

  // ---------------------------------------------------------------- one entry

  /** An entry that leaves out the first `shared` bytes of its key. */
  function EntryBytes(shared: nat, e: KV): (b: Bytes)
    requires shared <= |e.key| < TWO_32 && |e.value| < TWO_32
  {
    VarintBytes(shared) + VarintBytes(|e.key| - shared) + VarintBytes(|e.value|) + e.key[shared..] + e.value
  }

  /** Shared, unshared and value length, then the rest of the key and the value. */
  lemma EntryLayout(a: Byte, b: Byte, x: Byte)
    ensures EntryBytes(0, KV([a, b], [x])) == [0, 2, 1, a, b, x] && EntryBytes(1, KV([a, b], [x])) == [1, 1, 1, b, x]
  {
  }

  datatype Head = Head(shared: nat, nonShared: nat, valueLength: nat, size: nat)

  /** DecodeEntry on the bytes up to the limit: the three lengths, and how many bytes they take. */
  function DecodeEntry(b: Bytes): (r: Option<Head>)
    ensures r.Some? ==> r.value.size <= |b|
  {
    if |b| < 3 then None
    else if b[0] < 128 && b[1] < 128 && b[2] < 128 then Checked(b, Head(b[0], b[1], b[2], 3))
    else
      var s := GetVarint32(b);
      if s == None then None
      else
        var n := GetVarint32(b[s.value.size..]);
        if n == None then None
        else
          var v := GetVarint32(b[s.value.size + n.value.size..]);
          if v == None then None
          else Checked(b, Head(s.value.value, n.value.value, v.value.value, s.value.size + n.value.size + v.value.size))
  }

  /** The delta and the value must fit; the sum is computed in 32 bits. */
  function Checked(b: Bytes, h: Head): (r: Option<Head>) {
    if (|b| - h.size) % TWO_32 < (h.nonShared + h.valueLength) % TWO_32 then None else Some(h)
  }

  /** As long as nothing wraps, an entry is accepted exactly if its key and value end in the block. */
  lemma AcceptedIfInside(b: Bytes, h: Head)
    requires h.size <= |b| < TWO_32 && h.nonShared + h.valueLength < TWO_32
    ensures Checked(b, h) == if h.size + h.nonShared + h.valueLength <= |b| then Some(h) else None
  {
  }

  lemma SmallVarint(v: nat)
    ensures v < 128 ==> VarintBytes(v) == [v]
    ensures v >= 128 ==> VarintBytes(v)[0] >= 128 && |VarintBytes(v)| > 1
  {
  }

  /** The three lengths of an entry in front of `rest`. */
  lemma HeadParts(a: nat, b: nat, c: nat, rest: Bytes)
    requires a < TWO_32 && b < TWO_32 && c < TWO_32
    ensures var va, vb, vc := VarintBytes(a), VarintBytes(b), VarintBytes(c);
            var s := va + vb + vc + rest;
            && GetVarint32(s) == Some(Varint(a, |va|))
            && GetVarint32(s[|va|..]) == Some(Varint(b, |vb|))
            && GetVarint32(s[|va| + |vb|..]) == Some(Varint(c, |vc|))
  {
    hide VarintBytes, GetVarint32;
    var va, vb, vc := VarintBytes(a), VarintBytes(b), VarintBytes(c);
    var s := va + vb + vc + rest;
    assert s == va + (vb + vc + rest) && s[|va|..] == vb + (vc + rest) && s[|va| + |vb|..] == vc + rest;
    Varint32RoundTrip(a, vb + vc + rest);
    Varint32RoundTrip(b, vc + rest);
    Varint32RoundTrip(c, rest);
  }

  /** The fast path is taken exactly if all three lengths are one byte long. */
  lemma FastPath(a: nat, b: nat, c: nat, rest: Bytes)
    ensures var va, vb, vc := VarintBytes(a), VarintBytes(b), VarintBytes(c);
            var s := va + vb + vc + rest;
            && |s| >= 3
            && (s[0] < 128 && s[1] < 128 && s[2] < 128 <==> a < 128 && b < 128 && c < 128)
            && (a < 128 && b < 128 && c < 128 ==> s[0] == a && s[1] == b && s[2] == c && |va| + |vb| + |vc| == 3)
  {
    hide VarintBytes;
    SmallVarint(a);
    SmallVarint(b);
    SmallVarint(c);
    var va, vb, vc := VarintBytes(a), VarintBytes(b), VarintBytes(c);
    var s := va + vb + vc + rest;
    assert s[0] == va[0];
    if a < 128 {
      assert s[1] == vb[0];
      if b < 128 {
        assert s[2] == vc[0];
      }
    }
  }

  /** Decoding undoes encoding, on the fast path for short lengths and on the slow one. */
  lemma EntryRoundTrip(shared: nat, e: KV, rest: Bytes)
    requires shared <= |e.key| < TWO_32 && |e.value| < TWO_32 && |EntryBytes(shared, e)| + |rest| < TWO_32
    ensures var n := |e.key| - shared;
            var size := |VarintBytes(shared)| + |VarintBytes(n)| + |VarintBytes(|e.value|)|;
            && DecodeEntry(EntryBytes(shared, e) + rest) == Some(Head(shared, n, |e.value|, size))
            && |EntryBytes(shared, e)| == size + n + |e.value|
  {
    hide VarintBytes, GetVarint32;
    var n, v := |e.key| - shared, |e.value|;
    var tail := e.key[shared..] + e.value + rest;
    var b := EntryBytes(shared, e) + rest;
    assert b == VarintBytes(shared) + VarintBytes(n) + VarintBytes(v) + tail;
    FastPath(shared, n, v, tail);
    HeadParts(shared, n, v, tail);
  }

  // ---------------------------------------------------------------- key prefixes

  /** How many bytes two keys have in common at the front. */
  function SharedPrefix(a: Bytes, b: Bytes): (n: nat)
    ensures n <= |a| && n <= |b| && a[..n] == b[..n]
    ensures n < |a| && n < |b| ==> a[n] != b[n]
  {
    if a == [] || b == [] || a[0] != b[0] then 0
    else
      var n := SharedPrefix(a[1..], b[1..]);
      assert a[..n + 1] == [a[0]] + a[1..][..n] && b[..n + 1] == [b[0]] + b[1..][..n];
      n + 1
  }

  // ---------------------------------------------------------------- a whole block

  /** Where the entries of a block are, how much each shares, and which ones are restart points. */
  datatype Plan = Plan(offs: seq<nat>, shares: seq<nat>, rs: seq<nat>)

  ghost predicate Sized(e: KV) {
    |e.key| < TWO_32 && |e.value| < TWO_32
  }

  /** The data part: entry after entry, each sharing a prefix of the key before it. */
  ghost predicate Entries(buffer: Bytes, es: seq<KV>, p: Plan) {
    && |p.offs| == |es| + 1 && |p.shares| == |es|
    && p.offs[0] == 0 && p.offs[|es|] == |buffer|
    && (forall i :: 0 <= i < |es| ==> EntryOk(buffer, es[i], p.shares[i], p.offs[i], p.offs[i + 1]))
  }

  ghost predicate EntryOk(buffer: Bytes, e: KV, share: nat, from: nat, to: nat) {
    && Sized(e) && share <= |e.key| && from <= to <= |buffer|
    && buffer[from..to] == EntryBytes(share, e)
  }

  ghost predicate Shares(es: seq<KV>, p: Plan) {
    && |p.shares| == |es|
    && (forall i :: 0 <= i < |es| ==> p.shares[i] <= |es[i].key|)
    && (forall i :: 0 < i < |es| ==>
          p.shares[i] <= |es[i - 1].key| && es[i].key[..p.shares[i]] == es[i - 1].key[..p.shares[i]])
  }

  /** Restart points: the first entry, then ever later ones, all with their whole key. */
  ghost predicate RestartsOk(es: seq<KV>, p: Plan) {
    && |p.rs| > 0 && p.rs[0] == 0 && |p.shares| == |es| && |p.offs| == |es| + 1
    && (forall j, k :: 0 <= j < k < |p.rs| ==> p.rs[j] < p.rs[k])
    && (forall j :: 0 <= j < |p.rs| ==> p.rs[j] < |es| || (es == [] && j == 0 && p.rs[j] == 0))
    && (forall j :: 0 <= j < |p.rs| && p.rs[j] < |es| ==> p.shares[p.rs[j]] == 0)
  }

  /** The offsets of the restart points. */
  ghost function Points(p: Plan): (s: seq<nat>)
    requires forall j :: 0 <= j < |p.rs| ==> p.rs[j] < |p.offs|
    ensures |s| == |p.rs| && forall j :: 0 <= j < |s| ==> s[j] == p.offs[p.rs[j]]
  {
    seq(|p.rs|, j requires 0 <= j < |p.rs| => p.offs[p.rs[j]])
  }

  /** `data` is a finished block of the entries `es`. */
  ghost predicate BlockOk(data: Bytes, es: seq<KV>, p: Plan) {
    && |data| < TWO_32 && RestartsOk(es, p) && Shares(es, p) && p.offs[|es|] <= |data|
    && Entries(data[..p.offs[|es|]], es, p)
    && data == data[..p.offs[|es|]] + Words(Points(p)) + LittleEndian(|p.rs|, 4)
  }
}
