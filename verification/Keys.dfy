/**
Internal keys of the store: a user key, the sequence number of the write and its kind
(util/leveldb/db/dbformat.h, util/leveldb/db/dbformat.cc).

A user key is represented by its rank under the user comparator.  The engine only ever
compares user keys, and one run touches finitely many of them, so integers lose nothing.
 */
module Keys {

  type UserKey = int

  type Payload = seq<char>

  datatype Option<+T> = None | Some(value: T)

  /** kTypeDeletion = 0 and kTypeValue = 1. */
  datatype Kind = Deletion | Value

  const MAX_SEQUENCE: nat := 0xFF_FFFF_FFFF_FFFF

  /** A 56-bit sequence number. */
  type Sequence = n: nat | n <= MAX_SEQUENCE

  datatype InternalKey = InternalKey(user: UserKey, sn: Sequence, kind: Kind)

  datatype Entry = Entry(key: InternalKey, value: Payload)

  /** The eight-byte trailer of an encoded internal key, as a number. */
  function Pack(sn: Sequence, kind: Kind): (tag: nat) {
    sn * 256 + if kind.Value? then 1 else 0
  }

  /** The sequence number is above the lowest byte, which is the kind. */
  lemma PackParts(sn: Sequence, kind: Kind)
    ensures Pack(sn, kind) / 256 == sn && Pack(sn, kind) % 256 == if kind.Deletion? then 0 else 1
  {
  }

  /** Increasing user key, then decreasing packed trailer. */
  function Compare(a: InternalKey, b: InternalKey): (r: int) {
    if a.user < b.user then -1
    else if a.user > b.user then 1
    else if Pack(a.sn, a.kind) > Pack(b.sn, b.kind) then -1
    else if Pack(a.sn, a.kind) < Pack(b.sn, b.kind) then 1
    else 0
  }

  /** The same order read as "earlier user key, or same user key and a newer write". */
  predicate Less(a: InternalKey, b: InternalKey) {
    || a.user < b.user
    || (a.user == b.user && a.sn > b.sn)
    || (a.user == b.user && a.sn == b.sn && a.kind.Value? && b.kind.Deletion?)
  }

  /** The code's comparison of packed trailers is the newest-first order, and it is total. */
  lemma CompareIsLess(a: InternalKey, b: InternalKey)
    ensures Compare(a, b) < 0 <==> Less(a, b)
    ensures Compare(a, b) == 0 <==> a == b
    ensures Compare(a, b) > 0 <==> Less(b, a)
  {
    if a.sn != b.sn {
      assert a.sn < b.sn ==> a.sn * 256 + 256 <= b.sn * 256;
      assert b.sn < a.sn ==> b.sn * 256 + 256 <= a.sn * 256;
    }
  }

  /** The first internal key that a read of `user` at snapshot `s` may return. */
  function LookupKey(user: UserKey, s: Sequence): (k: InternalKey) {
    InternalKey(user, s, Value)
  }

  ghost predicate Sorted(es: seq<Entry>) {
    forall i, j :: 0 <= i < j < |es| ==> Less(es[i].key, es[j].key)
  }

  ghost function Elements(es: seq<Entry>): set<Entry> {
    set e | e in es
  }

  /** Position of the first entry at or after `k`: what an internal iterator's Seek finds. */
  function SeekIndex(es: seq<Entry>, k: InternalKey): (i: nat)
    ensures i <= |es|
    ensures forall j :: 0 <= j < i ==> Less(es[j].key, k)
    ensures i < |es| ==> !Less(es[i].key, k)
  {
    if es == [] || !Less(es[0].key, k) then 0
    else
      var i := SeekIndex(es[1..], k);
      assert forall j :: 0 < j < 1 + i ==> es[j] == es[1..][j - 1];
      1 + i
  }
}
