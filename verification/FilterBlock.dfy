/** The filter block of a table: one filter for every two kilobytes of data (util/leveldb/table/filter_block.cc). */
module FilterBlock {
  import opened Common
  import opened Coding
  import opened BloomPolicy

  const BASE_LG: nat := 11
  const BASE: nat := 2048

  /** The key lists of the filters generated so far, where each filter starts, and their bytes. */
  ghost predicate Generated(result: Bytes, offsets: seq<nat>, lists: seq<seq<Bytes>>, p: Policy) {
    && |offsets| == |lists|
    && (forall i :: 0 <= i < |lists| ==> FilterAt(result, offsets[i], EndOf(offsets, i, |result|), lists[i], p))
  }

  /** Where a filter ends: at the next one, or at the end of all. */
  ghost function EndOf(offsets: seq<nat>, i: nat, size: nat): nat {
    if i + 1 < |offsets| then offsets[i + 1] else size
  }

  /** The bytes of one filter; an empty list has none. */
  ghost predicate FilterAt(result: Bytes, from: nat, to: nat, keys: seq<Bytes>, p: Policy) {
    from <= to <= |result| && (if keys == [] then from == to else MadeFor(result[from..to], p, keys))
  }

  /** A key was added while the block at some offset was current. */
  datatype Added = Added(offset: nat, key: Bytes)

  ghost predicate Recorded(a: Added, lists: seq<seq<Bytes>>, pending: seq<Bytes>) {
    var i := a.offset / BASE;
    if i < |lists| then a.key in lists[i] else i == |lists| && a.key in pending
  }

  /** Some key was added with the `i`-th base as its offset's. */
  ghost predicate Under(added: set<Added>, i: nat, key: Bytes) {
    exists a :: a in added && a.offset / BASE == i && a.key == key
  }

  /** No filter is made for a key that was added elsewhere. */
  ghost predicate OnlyThose(added: set<Added>, lists: seq<seq<Bytes>>, pending: seq<Bytes>) {
    && (forall i, key :: 0 <= i < |lists| && key in lists[i] ==> Under(added, i, key))
    && (forall key :: key in pending ==> Under(added, |lists|, key))
  }

  /** Each filter is for exactly the keys added with an offset in its range. */
  ghost predicate PerBase(added: set<Added>, lists: seq<seq<Bytes>>) {
    && (forall i, key :: 0 <= i < |lists| ==> (key in lists[i] <==> Under(added, i, key)))
    && (forall a :: a in added ==> a.offset / BASE < |lists|)
  }

  lemma PerBaseFrom(added: set<Added>, lists: seq<seq<Bytes>>)
    requires (forall a :: a in added ==> Recorded(a, lists, [])) && OnlyThose(added, lists, [])
    ensures PerBase(added, lists)
  {
    forall a | a in added
      ensures a.offset / BASE < |lists| && a.key in lists[a.offset / BASE]
    {
      assert Recorded(a, lists, []);
    }
  }

  lemma OneMoreThere(added: set<Added>, lists: seq<seq<Bytes>>, pending: seq<Bytes>, a: Added)
    requires OnlyThose(added, lists, pending) && a.offset / BASE == |lists|
    ensures OnlyThose(added + {a}, lists, pending + [a.key])
  {
    forall i, key | Under(added, i, key)
      ensures Under(added + {a}, i, key)
    {
      var b :| b in added && b.offset / BASE == i && b.key == key;
      assert b in added + {a};
    }
    assert a in added + {a} && Under(added + {a}, |lists|, a.key);
  }

  ghost predicate SomeUnder(added: set<Added>, i: nat) {
    exists a :: a in added && a.offset / BASE == i
  }

  lemma PendingIff(added: set<Added>, lists: seq<seq<Bytes>>, pending: seq<Bytes>)
    requires (forall a :: a in added ==> Recorded(a, lists, pending)) && OnlyThose(added, lists, pending)
    ensures pending != [] <==> SomeUnder(added, |lists|)
  {
    if pending != [] {
      assert pending[0] in pending && Under(added, |lists|, pending[0]);
    }
    if a :| a in added && a.offset / BASE == |lists| {
      assert Recorded(a, lists, pending);
    }
  }

  class Builder {
    const policy: Policy
    /** Keys of the filter under construction; the source keeps them in one string with start positions. */
    var keys: seq<Bytes>
    var result: Bytes
    var offsets: seq<nat>
    ghost var lists: seq<seq<Bytes>>
    ghost var added: set<Added>
    ghost var blockOffset: nat

    ghost predicate Valid()
      reads this
    {
      && policy.Valid() && Generated(result, offsets, lists, policy)
      && blockOffset / BASE == |offsets|
      && (forall a :: a in added ==> Recorded(a, lists, keys)) && OnlyThose(added, lists, keys)
    }

    constructor (policy: Policy)
      requires policy.Valid()
      ensures Valid() && this.policy == policy && added == {} && blockOffset == 0
    {
      this.policy, keys, result, offsets := policy, [], [], [];
      lists, added, blockOffset := [], {}, 0;
    }

    method GenerateFilter()
      requires policy.Valid() && Generated(result, offsets, lists, policy)
      requires (forall a :: a in added ==> Recorded(a, lists, keys)) && OnlyThose(added, lists, keys)
      modifies this`keys, this`result, this`offsets, this`lists
      ensures Generated(result, offsets, lists, policy) && |offsets| == |old(offsets)| + 1 && keys == []
      ensures lists == old(lists) + [old(keys)]
      ensures (forall a :: a in added ==> Recorded(a, lists, keys)) && OnlyThose(added, lists, keys)
    {
      hide MadeFor, Under;
      SameCount(result, offsets, lists, policy);
      var filter: Bytes := [];
      if keys != [] {
        filter := CreateFilter(policy, keys);
      }
      OneMoreFilter(result, offsets, lists, policy, filter, keys);
      offsets := offsets + [|result|];
      result := result + filter;
      lists := lists + [keys];
      keys := [];
    }

    /** StartBlock: filters are generated until the next one is for the block's offset. */
    method StartBlock(offset: nat)
      requires Valid() && offset >= blockOffset
      modifies this`keys, this`result, this`offsets, this`lists, this`blockOffset
      ensures Valid() && blockOffset == offset
    {
      hide Generated, Recorded, OnlyThose;
      var index := offset / BASE;
      while index > |offsets|
        invariant policy.Valid() && Generated(result, offsets, lists, policy) && |offsets| <= index
        invariant (forall a :: a in added ==> Recorded(a, lists, keys)) && OnlyThose(added, lists, keys)
        decreases index - |offsets|
      {
        GenerateFilter();
      }
      blockOffset := offset;
    }

    method AddKey(key: Bytes)
      requires Valid()
      modifies this`keys, this`added
      ensures Valid() && added == old(added) + {Added(blockOffset, key)}
    {
      hide Generated, OnlyThose;
      SameCount(result, offsets, lists, policy);
      OneMoreThere(added, lists, keys, Added(blockOffset, key));
      keys := keys + [key];
      added := added + {Added(blockOffset, key)};
    }

    /** Finish: the last filter, the array of offsets, its own offset, and the base. */
    method Finish() returns (contents: Bytes)
      requires Valid()
      modifies this`keys, this`result, this`offsets, this`lists
      ensures |result| < TWO_32 ==> Readable(contents, policy, added)
      ensures Generated(result, offsets, lists, policy) && PerBase(added, lists)
      ensures |lists| == blockOffset / BASE + if SomeUnder(added, blockOffset / BASE) then 1 else 0
      ensures contents == result + Words(offsets) + LittleEndian(|result|, 4) + [BASE_LG]
    {
      hide Generated, Recorded, MadeFor, LittleEndian, OnlyThose, PerBase, SomeUnder;
      SameCount(result, offsets, lists, policy);
      PendingIff(added, lists, keys);
      if keys != [] {
        GenerateFilter();
      }
      PerBaseFrom(added, lists);
      contents := result;
      for i := 0 to |offsets|
        invariant contents == result + Words(offsets[..i])
      {
        assert offsets[..i + 1][..i] == offsets[..i];
        contents := contents + LittleEndian(offsets[i], 4);
      }
      assert offsets[..|offsets|] == offsets;
      contents := contents + LittleEndian(|result|, 4) + [BASE_LG];
      if |result| < TWO_32 {
        IsReadable(contents, policy, added, result, offsets, lists);
      }
    }
  }

  // ---------------------------------------------------------------- reading

  /** What the constructor of the reader keeps: where the offsets are, how many, and the base. */
  datatype Reader = Reader(data: Bytes, offset: nat, num: nat, baseLg: nat)

  function Open(contents: Bytes): (r: Reader)
    ensures r.num > 0 ==> r.offset + 4 * r.num + 5 <= |contents| && r.data == contents
  {
    var n := |contents|;
    if n < 5 then Reader([], 0, 0, 0)
    else
      var last := FromLittleEndian(contents[n - 5..n - 1]);
      if last > n - 5 then Reader([], 0, 0, contents[n - 1])
      else Reader(contents, last, (n - 5 - last) / 4, contents[n - 1])
  }

  /** Which filter is for the block at an offset: the offset shifted right by the base. */
  function FilterIndex(blockOffset: nat, baseLg: nat): (i: nat)
    decreases baseLg
  {
    if baseLg == 0 then blockOffset else FilterIndex(blockOffset / 2, baseLg - 1)
  }

  function WordOf(data: Bytes, at: nat): (w: nat)
    requires at + 4 <= |data|
  {
    FromLittleEndian(data[at..at + 4])
  }

  /** KeyMayMatch of the reader; anything unreadable counts as a match. */
  method KeyMayMatch(r: Reader, p: Policy, blockOffset: nat, key: Bytes) returns (may: bool)
    requires p.Valid() && (r.num > 0 ==> r.offset + 4 * r.num + 5 <= |r.data|)
    ensures may <==> ReaderMatches(r, p, blockOffset, key)
  {
    hide MayMatch, WordOf, FilterIndex;
    var index := FilterIndex(blockOffset, r.baseLg);
    if index < r.num {
      var start := WordOf(r.data, r.offset + 4 * index);
      var limit := WordOf(r.data, r.offset + 4 * index + 4);
      if start <= limit && limit <= r.offset {
        may := BloomPolicy.KeyMayMatch(p, key, r.data[start..limit]);
        return;
      } else if start == limit {
        return false;
      }
    }
    may := true;
  }

  ghost predicate ReaderMatches(r: Reader, p: Policy, blockOffset: nat, key: Bytes)
    requires r.num > 0 ==> r.offset + 4 * r.num + 5 <= |r.data|
  {
    var index := FilterIndex(blockOffset, r.baseLg);
    index < r.num ==>
      var start := WordOf(r.data, r.offset + 4 * index);
      var limit := WordOf(r.data, r.offset + 4 * index + 4);
      if start <= limit && limit <= r.offset then MayMatch(p, key, r.data[start..limit]) else start != limit
  }

  /** No key is rejected under the offset of the block it was added for. */
  ghost predicate Readable(contents: Bytes, p: Policy, added: set<Added>) {
    forall a :: a in added ==> ReaderMatches(Open(contents), p, a.offset, a.key)
  }

  lemma SameCount(result: Bytes, offsets: seq<nat>, lists: seq<seq<Bytes>>, p: Policy)
    requires Generated(result, offsets, lists, p)
    ensures |offsets| == |lists|
  {
  }

  lemma OneMoreFilter(result: Bytes, offsets: seq<nat>, lists: seq<seq<Bytes>>, p: Policy, filter: Bytes, keys: seq<Bytes>)
    requires Generated(result, offsets, lists, p) && (if keys == [] then filter == [] else MadeFor(filter, p, keys))
    ensures Generated(result + filter, offsets + [|result|], lists + [keys], p)
  {
    hide MadeFor;
    var r, o, l := result + filter, offsets + [|result|], lists + [keys];
    assert r[|result|..|r|] == filter;
    forall i | 0 <= i < |l|
      ensures FilterAt(r, o[i], EndOf(o, i, |r|), l[i], p)
    {
      if i < |lists| {
        var to := EndOf(offsets, i, |result|);
        assert EndOf(o, i, |r|) == to && o[i] == offsets[i] && l[i] == lists[i];
        assert FilterAt(result, offsets[i], to, lists[i], p);
        assert r[offsets[i]..to] == result[offsets[i]..to];
      } else {
        assert o[i] == |result| && l[i] == keys && EndOf(o, i, |r|) == |r|;
      }
    }
  }

  ghost predicate Finished(contents: Bytes, result: Bytes, offsets: seq<nat>) {
    contents == result + Words(offsets) + LittleEndian(|result|, 4) + [BASE_LG] && |result| < TWO_32
  }

  /** What the reader finds in finished contents. */
  lemma Reopened(contents: Bytes, result: Bytes, offsets: seq<nat>)
    requires Finished(contents, result, offsets)
    ensures Open(contents) == Reader(contents, |result|, |offsets|, BASE_LG)
    ensures |contents| == |result| + 4 * |offsets| + 5 && contents[..|result|] == result
  {
    hide LittleEndian, FromLittleEndian, Words;
    assert Base(4) == TWO_32;
    LittleEndianRoundTrip(|result|, 4);
    Ending(result + Words(offsets), LittleEndian(|result|, 4), BASE_LG);
    Beginning(result, Words(offsets), LittleEndian(|result|, 4), [BASE_LG]);
    OpenIs(contents, |result|, |offsets|);
  }

  lemma OpenIs(contents: Bytes, last: nat, num: nat)
    requires |contents| == last + 4 * num + 5
    requires FromLittleEndian(contents[|contents| - 5..|contents| - 1]) == last
    ensures Open(contents) == Reader(contents, last, num, contents[|contents| - 1])
  {
    hide FromLittleEndian;
  }

  lemma Ending(a: Bytes, w: Bytes, x: Byte)
    requires |w| == 4
    ensures var s := a + w + [x]; s[|s| - 5..|s| - 1] == w && s[|s| - 1] == x
  {
  }

  lemma Beginning(a: Bytes, b: Bytes, c: Bytes, d: Bytes)
    ensures (a + b + c + d)[..|a|] == a
  {
  }

  /** The word at position `i` of the offset array, the last of which is the offset of the array itself. */
  lemma OffsetRead(contents: Bytes, result: Bytes, offsets: seq<nat>, i: nat)
    requires Finished(contents, result, offsets)
    requires i <= |offsets| && (i < |offsets| ==> offsets[i] < TWO_32)
    ensures |result| + 4 * i + 4 <= |contents|
    ensures WordOf(contents, |result| + 4 * i) == if i < |offsets| then offsets[i] else |result|
  {
    hide LittleEndian, FromLittleEndian, Words;
    assert Base(4) == TWO_32;
    var at := contents[|result| + 4 * i..|result| + 4 * i + 4];
    if i < |offsets| {
      WordAt(offsets, i);
      LittleEndianRoundTrip(offsets[i], 4);
      assert at == Words(offsets)[4 * i..4 * i + 4];
    } else {
      LittleEndianRoundTrip(|result|, 4);
      assert at == LittleEndian(|result|, 4);
    }
  }

  lemma IsReadable(contents: Bytes, p: Policy, added: set<Added>, result: Bytes, offsets: seq<nat>, lists: seq<seq<Bytes>>)
    requires Finished(contents, result, offsets)
    requires Generated(result, offsets, lists, p) && forall a :: a in added ==> Recorded(a, lists, [])
    ensures Readable(contents, p, added)
  {
    hide LittleEndian, FromLittleEndian, Words, Generated, ReaderMatches;
    forall a | a in added
      ensures ReaderMatches(Open(contents), p, a.offset, a.key)
    {
      AddedIsReadable(contents, p, a, result, offsets, lists);
    }
  }

  lemma AddedIsReadable(contents: Bytes, p: Policy, a: Added, result: Bytes, offsets: seq<nat>, lists: seq<seq<Bytes>>)
    requires Finished(contents, result, offsets)
    requires Generated(result, offsets, lists, p) && Recorded(a, lists, [])
    ensures ReaderMatches(Open(contents), p, a.offset, a.key)
  {
    hide LittleEndian, Words, MadeFor, MayMatch, Open, WordOf, FilterIndex, Finished;
    Reopened(contents, result, offsets);
    IndexIs(a.offset);
    var i := a.offset / BASE;
    var from, to := offsets[i], EndOf(offsets, i, |result|);
    assert FilterAt(result, from, to, lists[i], p);
    FinishedSize(contents, result, offsets);
    OffsetRead(contents, result, offsets, i);
    NextBound(result, offsets, lists, p, i);
    OffsetRead(contents, result, offsets, i + 1);
    assert contents[from..to] == contents[..|result|][from..to];
    NeverRejected(result[from..to], p, lists[i], a.key);
  }

  lemma FinishedSize(contents: Bytes, result: Bytes, offsets: seq<nat>)
    requires Finished(contents, result, offsets)
    ensures |result| < TWO_32
  {
  }

  lemma {:induction false} IndexIs(offset: nat)
    ensures FilterIndex(offset, BASE_LG) == offset / BASE
  {
    hide FilterIndex;
    Shift3(offset, 8);
    Shift3(offset / 8, 5);
    Shift3(offset / 64, 2);
    Shift2(offset / 512);
  }

  lemma {:induction false} Shift3(offset: nat, k: nat)
    ensures FilterIndex(offset, k + 3) == FilterIndex(offset / 8, k)
  {
    assert FilterIndex(offset, k + 3) == FilterIndex(offset / 2, k + 2);
    assert FilterIndex(offset / 2, k + 2) == FilterIndex(offset / 2 / 2, k + 1);
    assert offset / 2 / 2 / 2 == offset / 8;
  }

  lemma {:induction false} Shift2(offset: nat)
    ensures FilterIndex(offset, 2) == offset / 4
  {
    assert FilterIndex(offset, 2) == FilterIndex(offset / 2, 1) == FilterIndex(offset / 2 / 2, 0);
  }

  lemma NextBound(result: Bytes, offsets: seq<nat>, lists: seq<seq<Bytes>>, p: Policy, i: nat)
    requires Generated(result, offsets, lists, p) && i < |offsets|
    ensures i + 1 < |offsets| ==> offsets[i + 1] <= |result|
  {
    hide MadeFor;
    if i + 1 < |offsets| {
      assert FilterAt(result, offsets[i + 1], EndOf(offsets, i + 1, |result|), lists[i + 1], p);
    }
  }
}
