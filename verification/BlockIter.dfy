/** Reading a block (util/leveldb/table/block.cc: Block::Iter). */
module BlockIter {
  import opened Common
  import opened Keys
  import opened Coding
  import opened Varints
  import opened BlockFormat

  // ---------------------------------------------------------------- what is found in a finished block

  function RestartOffset(data: Bytes, numRestarts: nat): (r: int) {
    |data| - (1 + numRestarts) * 4
  }

  lemma BlockParts(data: Bytes, es: seq<KV>, p: Plan)
    requires BlockOk(data, es, p)
    ensures |p.rs| > 0 && |p.offs| == |es| + 1 && |p.shares| == |es| && p.offs[0] == 0
    ensures 4 <= |data| < TWO_32 && p.offs[|es|] == RestartOffset(data, |p.rs|) && p.offs[|es|] <= |data|
    ensures FromLittleEndian(data[|data| - 4..]) == |p.rs|
    ensures p.rs[0] == 0 && forall j :: 0 <= j < |p.rs| ==> p.rs[j] < |p.offs|
    ensures forall j :: 0 <= j < |p.rs| ==> p.rs[j] < |es| || (es == [] && j == 0)
  {
    hide LittleEndian, FromLittleEndian, EntryOk, Words;
    var n := p.offs[|es|];
    assert |data| == n + 4 * |p.rs| + 4;
    assert Base(4) == TWO_32;
    LittleEndianRoundTrip(|p.rs|, 4);
    assert data[|data| - 4..] == LittleEndian(|p.rs|, 4);
  }

  lemma RestartRead(data: Bytes, es: seq<KV>, p: Plan, j: nat)
    requires BlockOk(data, es, p) && j < |p.rs|
    ensures p.rs[j] < |p.offs| && p.offs[|es|] + 4 * j + 4 <= |data|
    ensures FromLittleEndian(data[p.offs[|es|] + 4 * j..p.offs[|es|] + 4 * j + 4]) == p.offs[p.rs[j]]
  {
    hide LittleEndian, FromLittleEndian, EntryOk, Words;
    var n, b := p.offs[|es|], Words(Points(p));
    WordAt(Points(p), j);
    OffsetBound(data, es, p, p.rs[j]);
    assert Base(4) == TWO_32;
    LittleEndianRoundTrip(p.offs[p.rs[j]], 4);
    assert data[n + 4 * j..n + 4 * j + 4] == b[4 * j..4 * j + 4];
  }

  lemma {:induction false} OffsetBound(data: Bytes, es: seq<KV>, p: Plan, i: nat)
    requires BlockOk(data, es, p) && i <= |es|
    ensures p.offs[i] <= |data|
  {
    hide EntryBytes, LittleEndian, Words;
    if i < |es| {
      assert EntryOk(data[..p.offs[|es|]], es[i], p.shares[i], p.offs[i], p.offs[i + 1]);
    }
  }

  /** Entry `i` can be decoded where the plan says, and ends where the next one begins. */
  lemma EntryRead(data: Bytes, es: seq<KV>, p: Plan, i: nat)
    requires BlockOk(data, es, p) && i < |es|
    ensures p.offs[i] < p.offs[i + 1] <= p.offs[|es|] <= |data|
    ensures var limit, e, share := p.offs[|es|], es[i], p.shares[i];
            var h := DecodeEntry(data[p.offs[i]..limit]);
            && share <= |e.key| && h.Some? && h.value.shared == share
            && h.value.nonShared == |e.key| - share && h.value.valueLength == |e.value|
            && var k := p.offs[i] + h.value.size;
            && k + h.value.nonShared + |e.value| == p.offs[i + 1]
            && data[k..k + h.value.nonShared] == e.key[share..]
            && data[k + h.value.nonShared..p.offs[i + 1]] == e.value
  {
    hide LittleEndian, Words, DecodeEntry, VarintBytes, RestartsOk, Shares;
    var limit, e, share := p.offs[|es|], es[i], p.shares[i];
    var buffer, from, to := data[..limit], p.offs[i], p.offs[i + 1];
    assert EntryOk(buffer, e, share, from, to);
    var b, rest := EntryBytes(share, e), buffer[to..];
    assert data[from..limit] == b + rest && data[from..to] == b;
    EntryRoundTrip(share, e, rest);
    EntryTail(share, e);
    var k := DecodeEntry(b + rest).value.size;
    var n := |e.key| - share;
    assert data[from + k..from + k + n] == b[k..k + n] && data[from + k + n..to] == b[k + n..];
  }

  lemma EntryTail(share: nat, e: KV)
    requires Sized(e) && share <= |e.key|
    ensures var k := |VarintBytes(share)| + |VarintBytes(|e.key| - share)| + |VarintBytes(|e.value|)|;
            var n := |e.key| - share;
            && k > 0 && |EntryBytes(share, e)| == k + n + |e.value|
            && EntryBytes(share, e)[k..k + n] == e.key[share..] && EntryBytes(share, e)[k + n..] == e.value
  {
    hide VarintBytes;
    var head := VarintBytes(share) + VarintBytes(|e.key| - share) + VarintBytes(|e.value|);
    assert EntryBytes(share, e) == head + e.key[share..] + e.value;
  }

  lemma {:induction false} OffsetsIncrease(data: Bytes, es: seq<KV>, p: Plan, i: nat, j: nat)
    requires BlockOk(data, es, p) && i < j <= |es|
    ensures p.offs[i] < p.offs[j]
    decreases j - i
  {
    hide BlockOk;
    BlockParts(data, es, p);
    EntryRead(data, es, p, i);
    if i + 1 < j {
      OffsetsIncrease(data, es, p, i + 1, j);
    }
  }

  lemma OffsetsOrdered(data: Bytes, es: seq<KV>, p: Plan, i: nat, j: nat)
    requires BlockOk(data, es, p) && i <= |es| && j <= |es|
    ensures |p.offs| == |es| + 1 && (p.offs[i] < p.offs[j] <==> i < j)
  {
    hide BlockOk;
    BlockParts(data, es, p);
    if i < j {
      OffsetsIncrease(data, es, p, i, j);
    } else if j < i {
      OffsetsIncrease(data, es, p, j, i);
    }
  }

  lemma ShareRead(es: seq<KV>, p: Plan, data: Bytes, i: nat)
    requires BlockOk(data, es, p) && i < |es|
    ensures |p.shares| == |es| && p.shares[i] <= |es[i].key|
    ensures i > 0 ==> p.shares[i] <= |es[i - 1].key| && es[i].key[..p.shares[i]] == es[i - 1].key[..p.shares[i]]
    ensures (exists j :: 0 <= j < |p.rs| && p.rs[j] == i) ==> p.shares[i] == 0
  {
    hide Entries, Words, LittleEndian;
  }

  // ---------------------------------------------------------------- the iterator

  /** Fields of the iterator that move. */
  datatype Cursor = Cursor(current: nat, restartIndex: nat, key: Bytes, valueStart: nat, valueLength: nat)

  function NextEntryOffset(c: Cursor): nat {
    c.valueStart + c.valueLength
  }

  /** The cursor is on entry `pos`, or past the end. */
  ghost predicate On(data: Bytes, es: seq<KV>, p: Plan, c: Cursor, pos: nat)
    requires BlockOk(data, es, p)
  {
    && pos <= |es| && c.current == p.offs[pos]
    && (if pos == |es| then c.restartIndex == |p.rs|
        else
          && c.restartIndex < |p.rs| && p.rs[c.restartIndex] <= pos
          && (c.restartIndex + 1 < |p.rs| ==> pos <= p.rs[c.restartIndex + 1])
          && c.key == es[pos].key && NextEntryOffset(c) == p.offs[pos + 1] <= |data|
          && data[c.valueStart..NextEntryOffset(c)] == es[pos].value)
  }

  /** ParseNextKey would read entry `pos` next, and the key so far has the bytes it shares. */
  ghost predicate Ready(data: Bytes, es: seq<KV>, p: Plan, c: Cursor, pos: nat)
    requires BlockOk(data, es, p)
  {
    && pos <= |es| && NextEntryOffset(c) == p.offs[pos]
    && c.restartIndex < |p.rs| && p.rs[c.restartIndex] <= pos
    && (pos < |es| ==> p.shares[pos] <= |c.key| && p.shares[pos] <= |es[pos].key|
                       && c.key[..p.shares[pos]] == es[pos].key[..p.shares[pos]])
  }

  lemma OnIsReady(data: Bytes, es: seq<KV>, p: Plan, c: Cursor, pos: nat)
    requires BlockOk(data, es, p) && On(data, es, p, c, pos) && pos < |es|
    ensures Ready(data, es, p, c, pos + 1)
  {
    if pos + 1 < |es| {
      ShareRead(es, p, data, pos + 1);
    }
  }

  class Iter {
    const data: Bytes
    const restarts: nat
    const numRestarts: nat
    const rank: Bytes -> real
    var c: Cursor
    ghost const es: seq<KV>
    ghost const plan: Plan
    ghost var pos: nat

    ghost predicate Block() {
      BlockOk(data, es, plan) && restarts == plan.offs[|es|] && numRestarts == |plan.rs|
    }

    ghost predicate Valid()
      reads this
    {
      Block() && On(data, es, plan, c, pos)
    }

    constructor (data: Bytes, rank: Bytes -> real, ghost es: seq<KV>, ghost plan: Plan)
      requires BlockOk(data, es, plan)
      ensures Valid() && pos == |es| && this.es == es && this.data == data && this.rank == rank
    {
      BlockParts(data, es, plan);
      this.data, this.rank, this.es, this.plan, pos := data, rank, es, plan, |es|;
      numRestarts := FromLittleEndian(data[|data| - 4..]);
      restarts := RestartOffset(data, FromLittleEndian(data[|data| - 4..]));
      c := Cursor(RestartOffset(data, FromLittleEndian(data[|data| - 4..])), FromLittleEndian(data[|data| - 4..]), [], 0, 0);
    }

    function GetRestartPoint(index: nat): (r: nat)
      requires Block() && index < numRestarts
      ensures r == plan.offs[plan.rs[index]] && plan.rs[index] < |plan.offs|
    {
      RestartRead(data, es, plan, index);
      FromLittleEndian(data[restarts + 4 * index..restarts + 4 * index + 4])
    }

    /** SeekToRestartPoint: the next key read is the one at the restart point. */
    method SeekToRestartPoint(index: nat)
      requires Block() && index < numRestarts
      modifies this`c
      ensures Ready(data, es, plan, c, plan.rs[index]) && c.restartIndex == index
    {
      hide FromLittleEndian, DecodeEntry;
      BlockParts(data, es, plan);
      if plan.rs[index] < |es| {
        ShareRead(es, plan, data, plan.rs[index]);
      }
      c := Cursor(c.current, index, [], GetRestartPoint(index), 0);
    }

    /** The loop of ParseNextKey that moves the restart index up to the entry just read. */
    method AdvanceRestart(index: nat, current: nat, ghost next: nat) returns (ri: nat)
      requires Block() && index < numRestarts && next < |es| && current == plan.offs[next] && plan.rs[index] <= next
      ensures ri < numRestarts && plan.rs[ri] <= next && (ri + 1 < numRestarts ==> next <= plan.rs[ri + 1])
    {
      hide FromLittleEndian, BlockOk;
      BlockParts(data, es, plan);
      ri := index;
      while ri + 1 < numRestarts && GetRestartPoint(ri + 1) < current
        invariant ri < numRestarts && plan.rs[ri] <= next
      {
        OffsetsOrdered(data, es, plan, plan.rs[ri + 1], next);
        ri := ri + 1;
      }
      if ri + 1 < numRestarts {
        OffsetsOrdered(data, es, plan, plan.rs[ri + 1], next);
      }
    }

    /** ParseNextKey: moves to the entry behind the current one. */
    method ParseNextKey(ghost next: nat) returns (more: bool)
      requires Block() && Ready(data, es, plan, c, next)
      modifies this`c, this`pos
      ensures Valid() && pos == next && (more <==> next < |es|)
    {
      hide FromLittleEndian, DecodeEntry, BlockOk;
      BlockParts(data, es, plan);
      OffsetsOrdered(data, es, plan, next, |es|);
      var current := NextEntryOffset(c);
      pos := next;
      if current >= restarts {
        c := c.(current := restarts, restartIndex := numRestarts);
        return false;
      }
      EntryRead(data, es, plan, next);
      var h := DecodeEntry(data[current..restarts]);
      if h == None || |c.key| < h.value.shared {
        assert false;
        return false;
      }
      var k := current + h.value.size;
      var key := c.key[..h.value.shared] + data[k..k + h.value.nonShared];
      KeyRestored(c.key, es[next].key, h.value.shared);
      var ri := AdvanceRestart(c.restartIndex, current, next);
      c := Cursor(current, ri, key, k + h.value.nonShared, h.value.valueLength);
      more := true;
    }

    /** The entry under the cursor. */
    method Current() returns (e: KV)
      requires Valid() && pos < |es|
      ensures e == es[pos]
    {
      hide BlockOk;
      e := KV(c.key, data[c.valueStart..NextEntryOffset(c)]);
    }

    method SeekToFirst()
      requires Valid()
      modifies this`c, this`pos
      ensures Valid() && pos == 0
    {
      hide BlockOk, FromLittleEndian;
      BlockParts(data, es, plan);
      SeekToRestartPoint(0);
      var more := ParseNextKey(0);
    }

    method Next()
      requires Valid() && pos < |es|
      modifies this`c, this`pos
      ensures Valid() && pos == old(pos) + 1
    {
      hide BlockOk;
      OnIsReady(data, es, plan, c, pos);
      var more := ParseNextKey(pos + 1);
    }

    method SeekToLast()
      requires Valid()
      modifies this`c, this`pos
      ensures Valid() && pos == if es == [] then 0 else |es| - 1
    {
      hide BlockOk, FromLittleEndian;
      BlockParts(data, es, plan);
      SeekToRestartPoint(numRestarts - 1);
      ghost var next := plan.rs[numRestarts - 1];
      var more := ParseNextKey(next);
      while more && NextEntryOffset(c) < restarts
        invariant Valid() && (more <==> pos < |es|) && (es != [] ==> more)
        decreases |es| - pos
      {
        OffsetsOrdered(data, es, plan, pos + 1, |es|);
        OnIsReady(data, es, plan, c, pos);
        more := ParseNextKey(pos + 1);
      }
      if es != [] {
        OffsetsOrdered(data, es, plan, pos + 1, |es|);
      }
    }

    /** Prev: back to a restart point before the entry, and forward to the one in front of it. */
    method Prev()
      requires Valid() && pos < |es|
      modifies this`c, this`pos
      ensures Valid() && pos == if old(pos) == 0 then |es| else old(pos) - 1
    {
      hide BlockOk, FromLittleEndian;
      BlockParts(data, es, plan);
      var original, ri := c.current, c.restartIndex;
      ghost var goal := pos;
      OffsetsOrdered(data, es, plan, plan.rs[ri], goal);
      while GetRestartPoint(ri) >= original
        invariant ri < numRestarts && plan.rs[ri] <= goal
        invariant plan.offs[plan.rs[ri]] < original <==> plan.rs[ri] < goal
      {
        if ri == 0 {
          c := c.(current := restarts, restartIndex := numRestarts);
          pos := |es|;
          return;
        }
        ri := ri - 1;
        RestartsBefore(data, es, plan, ri);
        OffsetsOrdered(data, es, plan, plan.rs[ri], goal);
      }
      SeekToRestartPoint(ri);
      var more := ParseNextKey(plan.rs[ri]);
      while more && NextEntryOffset(c) < original
        invariant Valid() && more && pos < goal
        decreases goal - pos
      {
        OffsetsOrdered(data, es, plan, pos + 1, goal);
        OnIsReady(data, es, plan, c, pos);
        more := ParseNextKey(pos + 1);
      }
      OffsetsOrdered(data, es, plan, pos + 1, goal);
    }

    /** The binary search: the last restart point with a key below the target, or the first one. */
    method FindRestart(target: Bytes) returns (left: nat)
      requires Block()
      ensures left < numRestarts
      ensures left == 0 || (plan.rs[left] < |es| && rank(es[plan.rs[left]].key) < rank(target))
      ensures left + 1 < numRestarts ==>
                plan.rs[left + 1] < |es| && rank(es[plan.rs[left + 1]].key) >= rank(target)
    {
      hide BlockOk, FromLittleEndian, DecodeEntry;
      BlockParts(data, es, plan);
      left := 0;
      var right := numRestarts - 1;
      while left < right
        invariant left <= right < numRestarts
        invariant left == 0 || (plan.rs[left] < |es| && rank(es[plan.rs[left]].key) < rank(target))
        invariant right + 1 < numRestarts ==>
                    plan.rs[right + 1] < |es| && rank(es[plan.rs[right + 1]].key) >= rank(target)
        decreases right - left
      {
        var mid := (left + right + 1) / 2;
        var region := GetRestartPoint(mid);
        EntryRead(data, es, plan, plan.rs[mid]);
        ShareRead(es, plan, data, plan.rs[mid]);
        var h := DecodeEntry(data[region..restarts]);
        var k := region + h.value.size;
        var midKey := data[k..k + h.value.nonShared];
        assert es[plan.rs[mid]].key[0..] == es[plan.rs[mid]].key;
        if rank(midKey) < rank(target) {
          left := mid;
        } else {
          right := mid - 1;
        }
      }
    }

    /** Seek: the first entry with a key not below the target, for keys in ascending order. */
    method Seek(target: Bytes)
      requires Valid() && forall i, j :: 0 <= i < j < |es| ==> rank(es[i].key) < rank(es[j].key)
      modifies this`c, this`pos
      ensures Valid()
      ensures forall i :: 0 <= i < pos ==> rank(es[i].key) < rank(target)
      ensures pos < |es| ==> rank(es[pos].key) >= rank(target)
    {
      hide BlockOk, FromLittleEndian;
      BlockParts(data, es, plan);
      var left := FindRestart(target);
      SeekToRestartPoint(left);
      var more := ParseNextKey(plan.rs[left]);
      while more && rank(c.key) < rank(target)
        invariant Valid() && (more <==> pos < |es|)
        invariant forall i :: 0 <= i < pos ==> rank(es[i].key) < rank(target)
        decreases |es| - pos
      {
        OnIsReady(data, es, plan, c, pos);
        more := ParseNextKey(pos + 1);
      }
    }
  }

  lemma RestartsBefore(data: Bytes, es: seq<KV>, p: Plan, ri: nat)
    requires BlockOk(data, es, p) && ri + 1 < |p.rs|
    ensures p.rs[ri] < p.rs[ri + 1]
  {
    hide Entries, Shares, Words, LittleEndian;
  }

  lemma KeyRestored(last: Bytes, key: Bytes, share: nat)
    requires share <= |last| && share <= |key| && last[..share] == key[..share]
    ensures last[..share] + key[share..] == key
  {
  }
}
