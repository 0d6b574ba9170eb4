/**
Byte-string order, shortened separators, and their lifting to internal keys
(util/leveldb/util/comparator.cc, util/leveldb/db/dbformat.cc).
 */
module Bytewise {
  import Keys
  import opened Coding

  // ---------------------------------------------------------------- the bytewise order

  predicate Less(a: Bytes, b: Bytes) {
    b != [] && (a == [] || a[0] < b[0] || (a[0] == b[0] && Less(a[1..], b[1..])))
  }

  lemma {:induction false} LessOrEqual(a: Bytes, b: Bytes)
    ensures Less(a, b) || a == b || Less(b, a)
    ensures !(Less(a, b) && Less(b, a)) && !Less(a, a)
  {
    if a != [] && b != [] && a[0] == b[0] {
      LessOrEqual(a[1..], b[1..]);
      assert a == [a[0]] + a[1..] && b == [b[0]] + b[1..];
    }
    Irreflexive(a);
  }

  lemma {:induction false} Irreflexive(a: Bytes)
    ensures !Less(a, a)
  {
    if a != [] {
      Irreflexive(a[1..]);
    }
  }

  lemma {:induction false} LessTransitive(a: Bytes, b: Bytes, c: Bytes)
    requires Less(a, b) && Less(b, c)
    ensures Less(a, c)
  {
    if a != [] && a[0] == b[0] && b[0] == c[0] {
      LessTransitive(a[1..], b[1..], c[1..]);
    }
  }

  /** A common front does not matter. */
  lemma {:induction false} LessAfterPrefix(a: Bytes, b: Bytes, n: nat)
    requires n <= |a| && n <= |b| && a[..n] == b[..n]
    ensures Less(a, b) <==> Less(a[n..], b[n..])
    decreases n
  {
    if n > 0 {
      assert a[0] == a[..n][0] && b[0] == b[..n][0];
      assert a[1..][..n - 1] == a[..n][1..] && b[1..][..n - 1] == b[..n][1..];
      LessAfterPrefix(a[1..], b[1..], n - 1);
      assert a[1..][n - 1..] == a[n..] && b[1..][n - 1..] == b[n..];
    } else {
      assert a[0..] == a && b[0..] == b;
    }
  }

  /** The byte after a common front decides. */
  lemma LessAt(a: Bytes, b: Bytes, n: nat)
    requires n < |a| && n < |b| && a[..n] == b[..n] && a[n] != b[n]
    ensures Less(a, b) <==> a[n] < b[n]
  {
    LessAfterPrefix(a, b, n);
    assert a[n..][0] == a[n] && b[n..][0] == b[n];
  }

  /** Where two strings first differ, there is room for a byte between them. */
  ghost predicate Gap(start: Bytes, limit: Bytes, n: nat) {
    && n < |start| && n < |limit| && start[..n] == limit[..n]
    && var low: nat, high: nat := start[n], limit[n];
    low + 1 < high
  }

  lemma OneGap(start: Bytes, limit: Bytes, d: nat, n: nat)
    requires d <= |start| && d <= |limit| && start[..d] == limit[..d] && Gap(start, limit, n)
    requires d < |start| && d < |limit| ==> start[d] != limit[d]
    ensures n == d
  {
    SameFront(start, limit, d);
    SameFront(start, limit, n);
  }

  lemma SameFront(a: Bytes, b: Bytes, d: nat)
    requires d <= |a| && d <= |b| && a[..d] == b[..d]
    ensures forall k :: 0 <= k < d ==> a[k] == b[k]
  {
    assert forall k :: 0 <= k < d ==> a[..d][k] == b[..d][k];
  }

  /** FindShortestSeparator: cut to a string strictly between exactly if there is a gap. */
  method FindShortestSeparator(start: Bytes, limit: Bytes) returns (s: Bytes)
    ensures s == start || (Less(start, s) && Less(s, limit))
    ensures s != start <==> exists n: nat :: Gap(start, limit, n)
    ensures forall n: nat :: Gap(start, limit, n) ==> |s| == n + 1
  {
    hide Less;
    var min := if |start| < |limit| then |start| else |limit|;
    var d := 0;
    while d < min && start[d] == limit[d]
      invariant d <= min && start[..d] == limit[..d]
    {
      assert start[..d + 1] == start[..d] + [start[d]];
      d := d + 1;
    }
    s := start;
    forall n: nat | Gap(start, limit, n)
      ensures n == d
    {
      OneGap(start, limit, d, n);
    }
    if d < min {
      var byte := start[d];
      if byte < 0xff && byte + 1 < limit[d] {
        s := start[..d] + [byte + 1];
        assert s[..d] == start[..d] && s[d] != start[d] && Gap(start, limit, d);
        LessAt(start, s, d);
        LessAt(s, limit, d);
      }
    }
  }

  /** The first byte that can be raised. */
  ghost predicate Raisable(key: Bytes, i: nat) {
    i < |key| && key[i] != 0xff && forall k :: 0 <= k < i ==> key[k] == 0xff
  }

  /** FindShortSuccessor: cut to a string strictly above exactly if a byte can be raised. */
  method FindShortSuccessor(key: Bytes) returns (s: Bytes)
    ensures s == key || Less(key, s)
    ensures s != key <==> exists i: nat :: Raisable(key, i)
    ensures forall i: nat :: Raisable(key, i) ==> |s| == i + 1
  {
    hide Less;
    for i := 0 to |key|
      invariant forall k :: 0 <= k < i ==> key[k] == 0xff
    {
      var byte := key[i];
      if byte != 0xff {
        s := key[..i] + [byte + 1];
        assert s[..i] == key[..i] && s[i] != key[i] && Raisable(key, i);
        LessAt(key, s, i);
        return;
      }
    }
    s := key;
  }

  // ---------------------------------------------------------------- internal keys

  const MAX_NUM: nat := Keys.Pack(Keys.MAX_SEQUENCE, Keys.Value)

  /** A user key with its packed sequence number and type. */
  datatype IKey = IKey(user: Bytes, num: nat)

  predicate IsLess(a: IKey, b: IKey) {
    Less(a.user, b.user) || (a.user == b.user && a.num > b.num)
  }

  /** Of all internal keys of a user key, the one with this trailer comes first. */
  lemma MaxComesFirst(user: Bytes, sn: Keys.Sequence, kind: Keys.Kind)
    ensures IKey(user, Keys.Pack(sn, kind)) == IKey(user, MAX_NUM) || IsLess(IKey(user, MAX_NUM), IKey(user, Keys.Pack(sn, kind)))
  {
    hide Less;
  }

  lemma IsLessTotal(a: IKey, b: IKey)
    ensures IsLess(a, b) || a == b || IsLess(b, a)
    ensures !(IsLess(a, b) && IsLess(b, a)) && !IsLess(a, a)
  {
    LessOrEqual(a.user, b.user);
    LessOrEqual(a.user, a.user);
  }

  lemma IsLessTransitive(a: IKey, b: IKey, c: IKey)
    requires IsLess(a, b) && IsLess(b, c)
    ensures IsLess(a, c)
  {
    hide Less;
    if Less(a.user, b.user) && Less(b.user, c.user) {
      LessTransitive(a.user, b.user, c.user);
    }
  }

  /** A key between two others that are in order; if it is not the first of them, all user keys differ. */
  ghost predicate Separates(sep: IKey, start: IKey, limit: IKey) {
    && (sep == start || (Less(start.user, sep.user) && Less(sep.user, limit.user)))
    && IsLess(sep, limit)
  }

  method ShortestSeparator(start: IKey, limit: IKey) returns (sep: IKey)
    requires IsLess(start, limit)
    ensures Separates(sep, start, limit)
    ensures sep != start <==> exists n: nat :: Gap(start.user, limit.user, n) && n + 1 < |start.user|
    ensures sep != start ==> |sep.user| < |start.user| && sep.num == MAX_NUM
  {
    hide Less, Gap;
    LessOrEqual(start.user, limit.user);
    sep := start;
    var tmp := FindShortestSeparator(start.user, limit.user);
    LessOrEqual(start.user, start.user);
    if |tmp| < |start.user| && Less(start.user, tmp) {
      sep := IKey(tmp, MAX_NUM);
    }
  }

  method ShortSuccessor(key: IKey) returns (s: IKey)
    ensures s == key || IsLess(key, s)
    ensures s != key <==> exists i: nat :: Raisable(key.user, i) && i + 1 < |key.user|
    ensures s != key ==> |s.user| < |key.user| && s.num == MAX_NUM
  {
    hide Less, Raisable;
    s := key;
    var tmp := FindShortSuccessor(key.user);
    if |tmp| < |key.user| && Less(key.user, tmp) {
      s := IKey(tmp, MAX_NUM);
    }
  }
}
