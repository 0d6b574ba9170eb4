/** Building a block (util/leveldb/table/block_builder.cc). */
module BlockBuilder {
  import opened Common
  import opened Coding
  import opened Varints
  import opened BlockFormat

  /** The loop that finds how much of the last key can be shared. */
  method CountShared(last: Bytes, key: Bytes) returns (shared: nat)
    ensures shared == SharedPrefix(last, key)
  {
    var min := if |last| < |key| then |last| else |key|;
    shared := 0;
    while shared < min && last[shared] == key[shared]
      invariant shared <= min && last[..shared] == key[..shared]
    {
      assert last[..shared + 1] == last[..shared] + [last[shared]];
      shared := shared + 1;
    }
    PrefixIsLongest(last, key, shared);
  }

  lemma PrefixIsLongest(a: Bytes, b: Bytes, n: nat)
    requires n <= |a| && n <= |b| && a[..n] == b[..n] && (n < |a| && n < |b| ==> a[n] != b[n])
    ensures n == SharedPrefix(a, b)
  {
    var m := SharedPrefix(a, b);
    assert forall k :: 0 <= k < m ==> a[k] == a[..m][k] && b[k] == b[..m][k];
    assert forall k :: 0 <= k < n ==> a[k] == a[..n][k] && b[k] == b[..n][k];
  }

  ghost predicate Built(buffer: Bytes, es: seq<KV>, p: Plan) {
    Entries(buffer, es, p) && Shares(es, p) && RestartsOk(es, p)
  }

  ghost function LastKey(es: seq<KV>): Bytes {
    if es == [] then [] else es[|es| - 1].key
  }

  ghost function Extended(p: Plan, end: nat, share: nat, restart: bool): Plan
    requires |p.offs| > 0
  {
    Plan(p.offs + [end], p.shares + [share], if restart then p.rs + [|p.offs| - 1] else p.rs)
  }

  lemma AddKeeps(buffer: Bytes, es: seq<KV>, p: Plan, e: KV, share: nat, restart: bool)
    requires Built(buffer, es, p) && Sized(e) && share <= |e.key|
    requires if restart then share == 0 && |p.rs| > 0 && p.rs[|p.rs| - 1] < |es| else share == SharedPrefix(LastKey(es), e.key)
    ensures var b := buffer + EntryBytes(share, e);
            Built(b, es + [e], Extended(p, |b|, share, restart))
  {
    hide EntryBytes, SharedPrefix;
    EntriesGrow(buffer, es, p, e, share, restart);
    SharesGrow(es, p, e, share, restart, |buffer + EntryBytes(share, e)|);
    RestartsGrow(es, p, e, share, restart, |buffer + EntryBytes(share, e)|);
  }

  lemma EntriesGrow(buffer: Bytes, es: seq<KV>, p: Plan, e: KV, share: nat, restart: bool)
    requires Entries(buffer, es, p) && Sized(e) && share <= |e.key|
    ensures var b := buffer + EntryBytes(share, e);
            Entries(b, es + [e], Extended(p, |b|, share, restart))
  {
    hide EntryBytes;
    var b := buffer + EntryBytes(share, e);
    var p', all := Extended(p, |b|, share, restart), es + [e];
    forall i | 0 <= i < |all|
      ensures EntryOk(b, all[i], p'.shares[i], p'.offs[i], p'.offs[i + 1])
    {
      if i < |es| {
        assert EntryOk(buffer, es[i], p.shares[i], p.offs[i], p.offs[i + 1]);
        assert b[p.offs[i]..p.offs[i + 1]] == buffer[p.offs[i]..p.offs[i + 1]];
      }
    }
  }

  lemma SharesGrow(es: seq<KV>, p: Plan, e: KV, share: nat, restart: bool, end: nat)
    requires Shares(es, p) && |p.offs| > 0 && share <= |e.key|
    requires share == 0 || share == SharedPrefix(LastKey(es), e.key)
    ensures Shares(es + [e], Extended(p, end, share, restart))
  {
    hide SharedPrefix;
    assert e.key[..0] == LastKey(es)[..0];
  }

  lemma RestartsGrow(es: seq<KV>, p: Plan, e: KV, share: nat, restart: bool, end: nat)
    requires RestartsOk(es, p) && (restart ==> share == 0 && p.rs[|p.rs| - 1] < |es|)
    requires es == [] ==> share == 0
    ensures RestartsOk(es + [e], Extended(p, end, share, restart))
  {
    var p' := Extended(p, end, share, restart);
    forall j, k | 0 <= j < k < |p'.rs|
      ensures p'.rs[j] < p'.rs[k]
    {
      if k == |p.rs| {
        assert p.rs[j] <= p.rs[|p.rs| - 1];
      }
    }
  }

  /**
  Restart points are the entries at multiples of `interval`, as many as it takes to reach the last entry;
  every other entry shares all it can with the key before it.
   */
  ghost predicate Regular(es: seq<KV>, p: Plan, interval: nat)
    requires interval > 0
  {
    && |p.shares| == |es| && |p.rs| > 0
    && (forall j :: 0 <= j < |p.rs| ==> p.rs[j] == j * interval)
    && (if es == [] then |p.rs| == 1 else (|p.rs| - 1) * interval < |es| <= |p.rs| * interval)
    && (forall i :: 0 <= i < |es| ==> p.shares[i] == FullShare(es, i, interval))
  }

  function FullShare(es: seq<KV>, i: nat, interval: nat): (n: nat)
    requires interval > 0 && i < |es|
  {
    if i % interval == 0 then 0 else SharedPrefix(es[i - 1].key, es[i].key)
  }

  /** How many restart points that is. */
  lemma RestartCount(es: seq<KV>, p: Plan, interval: nat)
    requires interval > 0 && Regular(es, p, interval)
    ensures |p.rs| == if es == [] then 1 else (|es| + interval - 1) / interval
  {
    hide SharedPrefix, FullShare;
    if es != [] {
      RoundUp(|es|, interval, |p.rs|);
    }
  }

  lemma RoundUp(n: nat, d: nat, q: nat)
    requires d > 0 && n > 0 && q > 0 && (q - 1) * d < n <= q * d
    ensures (n + d - 1) / d == q
  {
    var r := n + d - 1 - q * d;
    assert (q - 1) * d == q * d - d;
    assert n + d - 1 == d * q + r && 0 <= r < d;
    Unique(n + d - 1, d, q, r);
    assert (n + d - 1) % d == r;
    Quotient(n + d - 1, d, q, r);
  }

  lemma Quotient(a: int, d: int, q: int, r: int)
    requires d > 0 && a == d * q + r && a % d == r
    ensures a / d == q
  {
    var k := a / d - q;
    assert a == d * (a / d) + a % d;
    assert d * (a / d) == d * q + d * k;
    assert k >= 1 ==> d * k >= d;
    assert k <= -1 ==> d * k <= -d;
  }

  lemma {:induction false} RegularGrows(es: seq<KV>, p: Plan, interval: nat, e: KV, end: nat, share: nat, restart: bool,
                                        counter: nat)
    requires interval > 0 && Regular(es, p, interval) && |p.offs| == |es| + 1
    requires counter == |es| - p.rs[|p.rs| - 1] <= interval && (restart <==> counter == interval)
    requires share == if restart then 0 else SharedPrefix(LastKey(es), e.key)
    ensures Regular(es + [e], Extended(p, end, share, restart), interval)
  {
    hide SharedPrefix, FullShare;
    var all, p' := es + [e], Extended(p, end, share, restart);
    PlaceOfNext(|es|, p.rs, interval, counter, restart);
    NextShare(es, e, interval, counter, share, restart);
    forall i | 0 <= i < |all|
      ensures p'.shares[i] == FullShare(all, i, interval)
    {
      if i < |es| {
        SameShare(es, e, i, interval);
      }
    }
  }

  /** The next entry is a multiple of `interval` exactly if it is the first of all or a restart point. */
  lemma PlaceOfNext(n: nat, rs: seq<nat>, interval: nat, counter: nat, restart: bool)
    requires interval > 0 && |rs| > 0 && rs[|rs| - 1] == (|rs| - 1) * interval
    requires counter == n - rs[|rs| - 1] <= interval && (restart <==> counter == interval)
    requires if n == 0 then |rs| == 1 else (|rs| - 1) * interval < n <= |rs| * interval
    ensures n % interval == if restart then 0 else counter
    ensures restart ==> n == |rs| * interval
    ensures var q := if restart then |rs| + 1 else |rs|; (q - 1) * interval < n + 1 <= q * interval
    ensures counter == 0 ==> n == 0
  {
    var q := |rs|;
    assert q * interval == (q - 1) * interval + interval;
    assert (q + 1) * interval == q * interval + interval;
    Unique(n, interval, if restart then q else q - 1, if restart then 0 else counter);
  }

  lemma NextShare(es: seq<KV>, e: KV, interval: nat, counter: nat, share: nat, restart: bool)
    requires interval > 0 && |es| % interval == (if restart then 0 else counter) && (counter == 0 ==> es == [])
    requires share == if restart then 0 else SharedPrefix(LastKey(es), e.key)
    ensures share == FullShare(es + [e], |es|, interval)
  {
    hide SharedPrefix;
    NothingShared(e.key);
  }

  lemma SameShare(es: seq<KV>, e: KV, i: nat, interval: nat)
    requires interval > 0 && i < |es|
    ensures FullShare(es + [e], i, interval) == FullShare(es, i, interval)
  {
    hide SharedPrefix;
    if i % interval != 0 {
      assert i > 0;
    }
  }

  lemma NothingShared(key: Bytes)
    ensures SharedPrefix([], key) == 0
  {
  }

  /** The fields of a builder between two calls. */
  ghost predicate Building(interval: nat, buffer: Bytes, restarts: seq<nat>, counter: nat, lastKey: Bytes, es: seq<KV>,
                           p: Plan) {
    && interval >= 1 && Built(buffer, es, p) && lastKey == LastKey(es) && restarts == Points(p)
    && counter <= interval && counter == |es| - p.rs[|p.rs| - 1] && Regular(es, p, interval)
  }

  lemma {:induction false} BuildingGrows(interval: nat, buffer: Bytes, restarts: seq<nat>, counter: nat, lastKey: Bytes,
                                         es: seq<KV>, p: Plan, e: KV, share: nat, restart: bool)
    requires Building(interval, buffer, restarts, counter, lastKey, es, p) && |e.key| < TWO_32 && |e.value| < TWO_32
    requires (restart <==> counter >= interval) && share == if restart then 0 else SharedPrefix(lastKey, e.key)
    ensures share <= |e.key| && share <= |lastKey| && |p.offs| > 0
    ensures var b := buffer + EntryBytes(share, e);
            Building(interval, b, if restart then restarts + [|buffer|] else restarts, if restart then 1 else counter + 1,
                     lastKey[..share] + e.key[share..], es + [e], Extended(p, |b|, share, restart))
  {
    hide *;
    BuildingParts(interval, buffer, restarts, counter, lastKey, es, p);
    BuiltFacts(buffer, es, p);
    PrefixBound(lastKey, e.key);
    SizedIs(e.key, e.value);
    Grown(interval, buffer, restarts, counter, es, p, e, share, restart);
  }

  lemma {:induction false} Grown(interval: nat, buffer: Bytes, restarts: seq<nat>, counter: nat, es: seq<KV>, p: Plan, e: KV,
                                 share: nat, restart: bool)
    requires interval >= 1 && Built(buffer, es, p) && Regular(es, p, interval) && Sized(e) && share <= |e.key|
    requires |e.key| < TWO_32 && |e.value| < TWO_32
    requires |p.rs| > 0 && (forall j :: 0 <= j < |p.rs| ==> p.rs[j] < |p.offs|) && restarts == Points(p)
    requires counter == |es| - p.rs[|p.rs| - 1] <= interval && (restart <==> counter >= interval)
    requires |p.offs| == |es| + 1 && p.offs[|es|] == |buffer|
    requires share == if restart then 0 else SharedPrefix(LastKey(es), e.key)
    ensures var b := buffer + EntryBytes(share, e);
            Building(interval, b, if restart then restarts + [|buffer|] else restarts, if restart then 1 else counter + 1,
                     e.key, es + [e], Extended(p, |b|, share, restart))
  {
    hide *;
    var b := buffer + EntryBytes(share, e);
    var p' := Extended(p, |b|, share, restart);
    AddKeeps(buffer, es, p, e, share, restart);
    RegularGrows(es, p, interval, e, |b|, share, restart, counter);
    ExtendedFacts(p, |b|, share, restart);
    LastOf(es, e);
    if restart {
      PackBuilding(interval, b, restarts + [|buffer|], 1, e.key, es + [e], p');
    } else {
      PackBuilding(interval, b, restarts, counter + 1, e.key, es + [e], p');
    }
  }

  lemma LastOf(es: seq<KV>, e: KV)
    ensures LastKey(es + [e]) == e.key
  {
  }

  lemma BuildingParts(interval: nat, buffer: Bytes, restarts: seq<nat>, counter: nat, lastKey: Bytes, es: seq<KV>, p: Plan)
    requires Building(interval, buffer, restarts, counter, lastKey, es, p)
    ensures interval >= 1 && Built(buffer, es, p) && lastKey == LastKey(es) && Regular(es, p, interval)
    ensures |p.rs| > 0 && (forall j :: 0 <= j < |p.rs| ==> p.rs[j] < |p.offs|) && restarts == Points(p)
    ensures counter <= interval && counter == |es| - p.rs[|p.rs| - 1]
  {
  }

  lemma PackBuilding(interval: nat, buffer: Bytes, restarts: seq<nat>, counter: nat, lastKey: Bytes, es: seq<KV>, p: Plan)
    requires interval >= 1 && Built(buffer, es, p) && lastKey == LastKey(es) && Regular(es, p, interval)
    requires |p.rs| > 0 && (forall j :: 0 <= j < |p.rs| ==> p.rs[j] < |p.offs|) && restarts == Points(p)
    requires counter <= interval && counter == |es| - p.rs[|p.rs| - 1]
    ensures Building(interval, buffer, restarts, counter, lastKey, es, p)
  {
  }

  class Builder {
    const interval: nat
    var buffer: Bytes
    var restarts: seq<nat>
    var counter: nat
    var lastKey: Bytes
    ghost var es: seq<KV>
    ghost var plan: Plan

    ghost predicate Valid()
      reads this
    {
      Building(interval, buffer, restarts, counter, lastKey, es, plan)
    }

    constructor (interval: nat)
      requires interval >= 1
      ensures Valid() && es == [] && this.interval == interval
    {
      this.interval, buffer, restarts, counter, lastKey := interval, [], [0], 0, [];
      es, plan := [], Plan([0], [], [0]);
    }

    /** Add: appends an entry, with a restart point after every `interval` entries. */
    method Add(key: Bytes, value: Bytes)
      requires Valid() && |key| < TWO_32 && |value| < TWO_32
      modifies this
      ensures Valid() && es == old(es) + [KV(key, value)]
    {
      hide *;
      ValidIs();
      var shared, restart := 0, counter >= interval;
      if !restart {
        shared := CountShared(lastKey, key);
      }
      BuildingGrows(interval, buffer, restarts, counter, lastKey, es, plan, KV(key, value), shared, restart);
      var entry := EncodeEntry(shared, key, value);
      if restart {
        restarts := restarts + [|buffer|];
        counter := 0;
      }
      buffer := buffer + entry;
      plan := Extended(plan, |buffer|, shared, restart);
      es := es + [KV(key, value)];
      lastKey := lastKey[..shared] + key[shared..];
      counter := counter + 1;
      ValidIs();
    }

    lemma ValidIs()
      ensures Valid() <==> Building(interval, buffer, restarts, counter, lastKey, es, plan)
    {
    }

    /** Finish: the restart array and its length go behind the entries. */
    method Finish() returns (data: Bytes)
      requires Valid() && |buffer| + 4 * |restarts| + 4 < TWO_32
      ensures BlockOk(data, es, plan) && Regular(es, plan, interval)
    {
      hide EntryBytes, LittleEndian, SharedPrefix, Regular;
      data := buffer;
      for i := 0 to |restarts|
        invariant data == buffer + Words(restarts[..i])
      {
        assert restarts[..i + 1][..i] == restarts[..i];
        data := data + LittleEndian(restarts[i], 4);
      }
      assert restarts[..|restarts|] == restarts;
      data := data + LittleEndian(|restarts|, 4);
      assert data[..|buffer|] == buffer;
    }
  }

  lemma ExtendedFacts(p: Plan, end: nat, share: nat, restart: bool)
    requires |p.offs| > 0 && |p.rs| > 0 && forall j :: 0 <= j < |p.rs| ==> p.rs[j] < |p.offs|
    ensures var p' := Extended(p, end, share, restart);
            && |p'.rs| > 0 && p'.rs[|p'.rs| - 1] == (if restart then |p.offs| - 1 else p.rs[|p.rs| - 1])
            && (forall j :: 0 <= j < |p'.rs| ==> p'.rs[j] < |p'.offs|)
            && Points(p') == (if restart then Points(p) + [p.offs[|p.offs| - 1]] else Points(p))
  {
  }

  lemma SizedIs(key: Bytes, value: Bytes)
    requires |key| < TWO_32 && |value| < TWO_32
    ensures Sized(KV(key, value))
  {
  }

  lemma PrefixBound(a: Bytes, b: Bytes)
    ensures var n := SharedPrefix(a, b); n <= |a| && n <= |b| && a[..n] == b[..n] && a[..n] + b[n..] == b && a[..0] + b[0..] == b
  {
    hide SharedPrefix;
  }

  /** The bytes Add appends for an entry. */
  method EncodeEntry(shared: nat, key: Bytes, value: Bytes) returns (b: Bytes)
    requires shared <= |key| < TWO_32 && |value| < TWO_32
    ensures b == EntryBytes(shared, KV(key, value))
  {
    hide VarintBytes;
    var s := EncodeVarint32(shared);
    var n := EncodeVarint32(|key| - shared);
    var v := EncodeVarint32(|value|);
    b := s + n + v + key[shared..] + value;
  }

  lemma BuiltFacts(buffer: Bytes, es: seq<KV>, p: Plan)
    requires Built(buffer, es, p)
    ensures |p.offs| == |es| + 1 && |p.rs| > 0 && p.rs[|p.rs| - 1] <= |es| && p.offs[|es|] == |buffer|
    ensures forall j :: 0 <= j < |p.rs| ==> p.rs[j] < |p.offs|
  {
  }
}
