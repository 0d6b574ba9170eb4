/**
One shard of the block cache: reference-counted handles in a hash table and a list in order of use
(util/leveldb/util/cache.cc: LRUCache).
 */
module LruCache {
  import opened Common
  import opened Keys
  import opened Coding
  import opened Ring
  import opened HandleTable

  // ---------------------------------------------------------------- what is counted

  /** Sum of the charges of handles. */
  ghost function Charges(info: map<Ref, Info>, hs: seq<Ref>): nat
    requires Known(info, hs)
  {
    if hs == [] then 0 else Charges(info, hs[..|hs| - 1]) + info[hs[|hs| - 1]].charge
  }

  lemma {:induction false} ChargesRemoved(info: map<Ref, Info>, hs: seq<Ref>, i: nat)
    requires Known(info, hs) && i < |hs|
    ensures Known(info, Removed(hs, i)) && Charges(info, Removed(hs, i)) == Charges(info, hs) - info[hs[i]].charge
    decreases |hs|
  {
    var n := |hs| - 1;
    if i == n {
      assert Removed(hs, i) == hs[..n];
    } else {
      ChargesRemoved(info, hs[..n], i);
      assert Removed(hs, i) == Removed(hs[..n], i) + [hs[n]];
      assert (Removed(hs[..n], i) + [hs[n]])[..n - 1] == Removed(hs[..n], i);
    }
  }

  lemma {:induction false} ChargesSame(info: map<Ref, Info>, info': map<Ref, Info>, hs: seq<Ref>)
    requires Known(info, hs) && forall h :: h in hs ==> h in info && h in info' && info'[h] == info[h]
    ensures Known(info', hs) && Charges(info', hs) == Charges(info, hs)
  {
    if hs != [] {
      ChargesSame(info, info', hs[..|hs| - 1]);
    }
  }

  /** What evicting handles gives back: the charges of those that no client holds. */
  ghost function Freed(info: map<Ref, Info>, held: multiset<Ref>, hs: seq<Ref>): int
    requires Known(info, hs)
  {
    if hs == [] then 0
    else Freed(info, held, hs[..|hs| - 1])
         + if hs[|hs| - 1] in held then 0 else info[hs[|hs| - 1]].charge
  }

  /** The `cut` oldest handles went, each while the charges were over the capacity. */
  ghost predicate Shrunk(info: map<Ref, Info>, held: multiset<Ref>, capacity: nat, lru: seq<Ref>, usage: int,
                         lru': seq<Ref>, usage': int, cut: nat) {
    && cut <= |lru| && Known(info, lru) && lru' == lru[cut..]
    && usage' == usage - Freed(info, held, lru[..cut])
    && forall k :: 0 <= k < cut ==> usage - Freed(info, held, lru[..k]) > capacity
  }

  lemma ShrinkStarts(info: map<Ref, Info>, held: multiset<Ref>, capacity: nat, lru: seq<Ref>, usage: int)
    requires Known(info, lru)
    ensures Shrunk(info, held, capacity, lru, usage, lru, usage, 0)
  {
  }

  lemma ShrinkStep(info: map<Ref, Info>, held: multiset<Ref>, capacity: nat, lru: seq<Ref>, usage: int,
                   lru': seq<Ref>, usage': int, cut: nat)
    requires Shrunk(info, held, capacity, lru, usage, lru', usage', cut) && lru' != [] && usage' > capacity
    ensures lru'[0] in info
    ensures Shrunk(info, held, capacity, lru, usage, Removed(lru', 0),
                   usage' - (if lru'[0] in held then 0 else info[lru'[0]].charge), cut + 1)
  {
    assert lru[..cut + 1][..cut] == lru[..cut];
    assert Removed(lru', 0) == lru[cut + 1..];
  }

  /**
  A handle's count is the number of references clients hold, plus one if it is in the cache.  One
  handle may be loose: it has a reference that is about to be given up.
   */
  ghost predicate Counted(refs: map<Ref, int>, held: multiset<Ref>, lru: seq<Ref>, alive: seq<Ref>, loose: Option<Ref>) {
    && (forall h :: h in alive ==>
          && h in refs && refs[h] > 0
          && refs[h] == held[h] + (if h in lru then 1 else 0) + (if loose == Some(h) then 1 else 0))
    && (forall h :: h in held ==> h in alive) && (forall h :: h in lru ==> h in alive)
    && (loose.Some? ==> loose.value in alive)
  }

  /** Every handle ever made is alive or was deleted once. */
  ghost predicate Lives(info: map<Ref, Info>, alive: seq<Ref>, deleted: seq<Ref>, free: Ref) {
    && free > 0 && Distinct(alive) && Distinct(deleted) && Known(info, alive)
    && (forall h :: h in alive ==> h !in deleted)
    && (forall h :: (h in alive || h in deleted) <==> 0 < h < free)
  }

  /** The whole state of a cache. */
  datatype State = State(usage: int, ring: Links, table: Table, info: map<Ref, Info>, refs: map<Ref, int>, free: Ref,
                         lru: seq<Ref>, alive: seq<Ref>, deleted: seq<Ref>, held: multiset<Ref>)

  ghost predicate Sound(st: State, loose: Option<Ref>) {
    && Linked(st.ring, st.lru) && TableOk(st.table, st.info, st.lru)
    && Counted(st.refs, st.held, st.lru, st.alive, loose)
    && Lives(st.info, st.alive, st.deleted, st.free) && st.usage == Charges(st.info, st.alive)
  }

  // ---------------------------------------------------------------- giving up a reference

  ghost function Unreffed(st: State, e: Ref, i: nat): State
    requires e in st.refs && e in st.info && i < |st.alive|
  {
    var st1 := st.(refs := st.refs[e := st.refs[e] - 1]);
    if st1.refs[e] > 0 then st1
    else st1.(usage := st.usage - st.info[e].charge, deleted := st.deleted + [e], alive := Removed(st.alive, i))
  }

  lemma UnrefKeeps(st: State, e: Ref) returns (i: nat)
    requires Sound(st, Some(e))
    ensures e in st.refs && e in st.info && st.refs[e] > 0 && i < |st.alive| && st.alive[i] == e
    ensures Sound(Unreffed(st, e, i), None)
  {
    i :| 0 <= i < |st.alive| && st.alive[i] == e;
    var st' := Unreffed(st, e, i);
    if st.refs[e] > 1 {
      StillCounted(st.refs, st.held, st.lru, st.alive, e);
    } else {
      Dying(st.refs, st.held, st.lru, st.alive, e, i);
      Buried(st.info, st.alive, st.deleted, st.free, i);
      ChargesRemoved(st.info, st.alive, i);
    }
  }

  lemma StillCounted(refs: map<Ref, int>, held: multiset<Ref>, lru: seq<Ref>, alive: seq<Ref>, e: Ref)
    requires Counted(refs, held, lru, alive, Some(e)) && e in refs && refs[e] > 1
    ensures Counted(refs[e := refs[e] - 1], held, lru, alive, None)
  {
  }

  lemma Dying(refs: map<Ref, int>, held: multiset<Ref>, lru: seq<Ref>, alive: seq<Ref>, e: Ref, i: nat)
    requires Counted(refs, held, lru, alive, Some(e)) && e in refs && refs[e] == 1 && Distinct(alive)
    requires i < |alive| && alive[i] == e
    ensures Counted(refs[e := 0], held, lru, Removed(alive, i), None)
  {
    AfterRemoval(alive, i);
  }

  lemma AfterRemoval(s: seq<Ref>, i: nat)
    requires Distinct(s) && i < |s|
    ensures Distinct(Removed(s, i)) && forall x :: x in Removed(s, i) <==> x in s && x != s[i]
  {
    var r := Removed(s, i);
    forall x | x in s && x != s[i]
      ensures x in r
    {
      var k :| 0 <= k < |s| && s[k] == x;
      assert r[if k < i then k else k - 1] == x;
    }
    forall x | x in r
      ensures x in s && x != s[i]
    {
      var k :| 0 <= k < |r| && r[k] == x;
      assert x == s[if k < i then k else k + 1];
    }
  }

  lemma Buried(info: map<Ref, Info>, alive: seq<Ref>, deleted: seq<Ref>, free: Ref, i: nat)
    requires Lives(info, alive, deleted, free) && i < |alive|
    ensures Lives(info, Removed(alive, i), deleted + [alive[i]], free)
  {
    AfterRemoval(alive, i);
    var e := alive[i];
    assert e in alive;
    assert forall k :: 0 <= k < |Removed(alive, i)| ==> Removed(alive, i)[k] in Removed(alive, i);
  }

  // ---------------------------------------------------------------- leaving the table and the list

  /** Two handles in the cache with the same key are one. */
  lemma OneHandlePerKey(t: Table, info: map<Ref, Info>, lru: seq<Ref>, a: Ref, b: Ref)
    requires TableOk(t, info, lru) && a in lru && b in lru && a in info && b in info
    requires Same(info[a], info[b].key, info[b].hash)
    ensures a == b
  {
    hide Flatten, Slot, PowerOfTwo;
    var all := Flatten(t.list);
    var i :| 0 <= i < |all| && all[i] == a;
    var j :| 0 <= j < |all| && all[j] == b;
    assert i == j;
  }

  lemma SoundFacts(st: State, loose: Option<Ref>)
    requires Sound(st, loose)
    ensures Linked(st.ring, st.lru) && TableOk(st.table, st.info, st.lru) && Distinct(st.lru)
    ensures Known(st.info, st.lru) && forall h :: h in st.lru ==> h in st.info && h in st.refs && h in st.alive
    ensures st.free > 0 && forall h :: h in st.alive ==> h < st.free
  {
    hide Holds, PowerOfTwo, At, Before;
    AllKnown(st.table.list, st.info, st.lru);
    forall h | h in st.lru
      ensures h in st.info
    {
      var i :| 0 <= i < |st.lru| && st.lru[i] == h;
    }
  }

  /** What HandleTable.Remove is told when a handle of the cache is removed. */
  lemma ToRemove(st: State, i: nat)
    requires Sound(st, None) && i < |st.lru|
    ensures st.lru[i] in st.info
    ensures var h, lru' := st.lru[i], Removed(st.lru, i);
            && !IsFound(st.info, st.lru, st.info[h].key, st.info[h].hash, None)
            && forall v :: IsFound(st.info, st.lru, st.info[h].key, st.info[h].hash, Some(v)) ==>
                 v == h && |lru'| == |st.lru| - 1 && forall x :: x in lru' <==> x in st.lru && x != v
  {
    hide TableOk, Sound, Linked;
    SoundFacts(st, None);
    var h := st.lru[i];
    assert h in st.lru;
    AfterRemoval(st.lru, i);
    forall v | IsFound(st.info, st.lru, st.info[h].key, st.info[h].hash, Some(v))
      ensures v == h
    {
      OneHandlePerKey(st.table, st.info, st.lru, v, h);
    }
  }

  lemma DetachKeeps(st: State, i: nat, table: Table)
    requires Sound(st, None) && i < |st.lru| && TableOk(table, st.info, Removed(st.lru, i))
    ensures var e := st.lru[i];
            && e in st.ring.next && e in st.ring.prev
            && Sound(st.(ring := Ring.Remove(st.ring, e), lru := Removed(st.lru, i), table := table), Some(e))
  {
    hide TableOk, Linked;
    SoundFacts(st, None);
    RemoveLinks(st.ring, st.lru, i);
    AfterRemoval(st.lru, i);
    assert st.lru[i] in st.lru;
  }

  class Cache {
    const capacity: nat
    const hasher: Bytes -> nat
    var usage: int
    var ring: Links
    var table: Table
    var info: map<Ref, Info>
    var refs: map<Ref, int>
    var free: Ref
    /** In the cache, oldest first; not yet deleted; deleted, in order; references held by clients. */
    ghost var lru: seq<Ref>
    ghost var alive: seq<Ref>
    ghost var deleted: seq<Ref>
    ghost var held: multiset<Ref>

    ghost function View(): State
      reads this
    {
      State(usage, ring, table, info, refs, free, lru, alive, deleted, held)
    }

    ghost predicate Valid()
      reads this
    {
      Sound(View(), None)
    }

    constructor (capacity: nat, hasher: Bytes -> nat)
      ensures Valid() && lru == [] && alive == [] && deleted == [] && held == multiset{} && this.capacity == capacity
    {
      this.capacity, this.hasher, usage := capacity, hasher, 0;
      ring := Links(map[DUMMY := DUMMY], map[DUMMY := DUMMY]);
      info, refs, free := map[], map[], 1;
      lru, alive, deleted, held := [], [], [], multiset{};
      var t := Resize(Table(0, 0, []), map[], []);
      table := t;
      EmptyRing();
    }

    /** Gives up one reference; the last one runs the deleter. */
    method Unref(e: Ref)
      requires Sound(View(), Some(e))
      modifies this`refs, this`usage, this`alive, this`deleted
      ensures Valid()
      ensures if old(refs[e]) > 1 then deleted == old(deleted) && usage == old(usage)
              else deleted == old(deleted) + [e] && usage == old(usage) - info[e].charge
    {
      hide Linked, TableOk, Counted, Lives;
      ghost var i := UnrefKeeps(View(), e);
      refs := refs[e := refs[e] - 1];
      if refs[e] <= 0 {
        usage := usage - info[e].charge;
        deleted := deleted + [e];
        alive := Removed(alive, i);
      }
    }

    /** Takes the handle at a position out of the table and the list, and gives up the cache's reference. */
    method Evict(e: Ref, ghost i: nat)
      requires Valid() && i < |lru| && lru[i] == e
      modifies this`ring, this`table, this`lru, this`refs, this`usage, this`alive, this`deleted
      ensures Valid() && lru == Removed(old(lru), i) && old(deleted) <= deleted && e in info
      ensures usage == old(usage) - if e in held then 0 else info[e].charge
    {
      hide Sound, TableOk, Linked, IsFound, Holds, Removed;
      SoundFacts(View(), None);
      OnlyCached(View(), e);
      ToRemove(View(), i);
      ghost var lru' := Removed(lru, i);
      var t, r := HandleTable.Remove(table, info, info[e].key, info[e].hash, lru, lru');
      DetachKeeps(View(), i, t);
      ring, table, lru := Ring.Remove(ring, e), t, lru';
      Unref(e);
    }

    /** Lookup: the handle with a key, which becomes the newest and gets one more reference. */
    method Lookup(key: Bytes) returns (r: Option<Ref>)
      requires Valid()
      modifies this`refs, this`ring, this`lru, this`held
      ensures Valid() && IsFound(info, old(lru), key, hasher(key), r)
      ensures r == None ==> lru == old(lru) && held == old(held)
      ensures r.Some? ==> held == old(held) + multiset{r.value} && lru != [] && lru[|lru| - 1] == r.value
      ensures forall h :: h in lru <==> h in old(lru)
    {
      hide Sound, TableOk, Linked, IsFound, Removed;
      SoundFacts(View(), None);
      r := HandleTable.Lookup(table, info, key, hasher(key), lru);
      if r.Some? {
        var e := r.value;
        ghost var i := PositionOf(info, lru, key, hasher(key), e);
        UseKeeps(View(), i);
        AfterRemoval(lru, i);
        refs := refs[e := refs[e] + 1];
        ring := Append(Ring.Remove(ring, e), e);
        lru := Removed(lru, i) + [e];
        held := held + multiset{e};
      }
    }

    /** Release: a client gives a reference back. */
    method Release(e: Ref)
      requires Valid() && e in held
      modifies this`refs, this`usage, this`alive, this`deleted, this`held
      ensures Valid() && held == old(held) - multiset{e} && old(deleted) <= deleted
    {
      hide Sound;
      ReleaseKeeps(View(), e);
      held := held - multiset{e};
      Unref(e);
    }

    /** Erase: takes a key out of the cache. */
    method Erase(key: Bytes)
      requires Valid()
      modifies this`ring, this`table, this`lru, this`refs, this`usage, this`alive, this`deleted
      ensures Valid() && IsFound(info, lru, key, hasher(key), None) && old(deleted) <= deleted
      ensures forall h :: h in lru <==> h in old(lru) && h in info && !Same(info[h], key, hasher(key))
    {
      hide Sound, TableOk, Linked, Removed;
      SoundFacts(View(), None);
      var r := HandleTable.Lookup(table, info, key, hasher(key), lru);
      if r.Some? {
        ghost var i := PositionOf(info, lru, key, hasher(key), r.value);
        OthersDiffer(View(), i);
        Evict(r.value, i);
        SoundFacts(View(), None);
      }
    }

    /** Prune: takes out every handle that no client holds. */
    method Prune()
      requires Valid()
      modifies this`ring, this`table, this`lru, this`refs, this`usage, this`alive, this`deleted
      ensures Valid() && (forall h :: h in lru <==> h in old(lru) && h in held)
    {
      hide Sound, TableOk, Linked, Removed, IsFound, Pruned, At;
      ghost var i := 0;
      SoundFacts(View(), None);
      EntryAt(ring, lru, 0);
      NothingPruned(lru, held);
      var e := ring.next[DUMMY];
      while e != DUMMY
        invariant Valid() && 0 <= i <= |lru| && e == At(lru, i) && Pruned(old(lru), lru, held, i)
        decreases |lru| - i
      {
        SoundFacts(View(), None);
        EntryAt(ring, lru, i);
        var next := ring.next[e];
        OnlyCached(View(), e);
        PruneStep(old(lru), lru, held, i);
        if refs[e] == 1 {
          Evict(e, i);
        } else {
          i := i + 1;
        }
        e := next;
      }
      SoundFacts(View(), None);
      EntryAt(ring, lru, i);
      AllPruned(old(lru), lru, held, i);
    }

    /** The first half of Insert: the new handle is in the cache, and the one it replaces is out. */
    method AddHandle(key: Bytes, charge: nat) returns (e: Ref, ghost place: nat)
      requires Valid()
      modifies this
      ensures Valid() && e == old(free) && held == old(held) + multiset{e} && old(deleted) <= deleted
      ensures e in info && info[e] == Info(key, hasher(key), charge)
      ensures IsPlace(old(View()), key, hasher(key), place) && lru == old(Grown(View(), place))
      ensures usage == old(GrownUsage(View(), place)) + charge
    {
      hide Sound, TableOk, Linked, Removed, IsFound, Holds, Grown, GrownUsage, IsPlace, Ring.Remove, Append;
      SoundFacts(View(), None);
      e := free;
      ghost var i := KeyPlace(View(), key, hasher(key));
      place := i;
      PlaceBound(View(), key, hasher(key), i);
      var info' := info[e := Info(key, hasher(key), charge)];
      ghost var st := View();
      var t, replaced := InsertEntry(table, info', e, st, i);
      AddKeeps(st, info', i, t);
      var links := Append(ring, e);
      if replaced.Some? {
        links := Ring.Remove(links, replaced.value);
      }
      Install(e, info', charge, t, links, i);
      assert View() == Added(st, info', i, t, links);
      UsageAfter(st, key, hasher(key), i);
      if replaced.Some? {
        Unref(replaced.value);
      }
    }

    /** The writes of AddHandle, all together. */
    method Install(e: Ref, info': map<Ref, Info>, charge: nat, t: Table, links: Links, ghost i: nat)
      requires e == free && e in info' && info'[e].charge == charge && i <= |lru|
      modifies this
      ensures info == info' && refs == old(refs)[e := 2] && free == e + 1 && ring == links && table == t
      ensures usage == old(usage) + charge && held == old(held) + multiset{e} && alive == old(alive) + [e]
      ensures lru == old(Grown(View(), i)) && deleted == old(deleted)
    {
      hide Grown, Known, Same;
      ghost var grown := Grown(View(), i);
      info := info';
      refs := refs[e := 2];
      free := free + 1;
      ring := links;
      usage := usage + charge;
      table := t;
      held := held + multiset{e};
      alive := alive + [e];
      lru := grown;
    }

    /** The second half: the oldest handles go until the charges fit or nothing is left to evict. */
    method Shrink() returns (ghost cut: nat)
      requires Valid()
      modifies this`ring, this`table, this`lru, this`refs, this`usage, this`alive, this`deleted
      ensures Valid() && (usage <= capacity || lru == []) && old(deleted) <= deleted
      ensures Shrunk(info, held, capacity, old(lru), old(usage), lru, usage, cut)
    {
      hide Sound, TableOk, Linked, Removed, IsFound, Holds, Shrunk;
      SoundFacts(View(), None);
      EntryAt(ring, lru, 0);
      ShrinkStarts(info, held, capacity, lru, usage);
      cut := 0;
      var oldest := ring.next[DUMMY];
      while usage > capacity && oldest != DUMMY
        invariant Valid() && oldest == At(lru, 0) && (oldest == DUMMY <==> lru == [])
        invariant old(deleted) <= deleted && Shrunk(info, held, capacity, old(lru), old(usage), lru, usage, cut)
        decreases |lru|
      {
        SoundFacts(View(), None);
        EntryAt(ring, lru, 0);
        AfterRemoval(lru, 0);
        ShrinkStep(info, held, capacity, old(lru), old(usage), lru, usage, cut);
        Evict(oldest, 0);
        cut := cut + 1;
        SoundFacts(View(), None);
        EntryAt(ring, lru, 0);
        oldest := ring.next[DUMMY];
      }
    }

    /** Insert: a new handle for a key, held by the caller. */
    method Insert(key: Bytes, charge: nat) returns (e: Ref, ghost place: nat, ghost cut: nat)
      requires Valid()
      modifies this
      ensures Valid() && e == old(free) && held == old(held) + multiset{e}
      ensures e in info && info[e] == Info(key, hasher(key), charge)
      ensures usage <= capacity || lru == []
      ensures old(deleted) <= deleted && IsPlace(old(View()), key, hasher(key), place)
      ensures Shrunk(info, held, capacity, old(Grown(View(), place)), old(GrownUsage(View(), place)) + charge,
                     lru, usage, cut)
    {
      hide Sound, IsPlace, Grown, GrownUsage, Shrunk;
      e, place := AddHandle(key, charge);
      cut := Shrink();
    }
  }

  /** HandleTable.Insert of the handle that is being made. */
  method InsertEntry(t: Table, info': map<Ref, Info>, e: Ref, ghost st: State, ghost i: nat)
    returns (t': Table, replaced: Option<Ref>)
    requires Sound(st, None) && t == st.table && e == st.free && e in info' && info' == st.info[e := info'[e]]
    requires i <= |st.lru| && IsPlace(st, info'[e].key, info'[e].hash, i)
    ensures TableOk(t', info', Grown(st, i))
    ensures replaced == if i < |st.lru| then Some(st.lru[i]) else None
  {
    hide Sound, TableOk, IsFound, Grown, IsPlace;
    ToInsert(st, info', i);
    t', replaced := HandleTable.Insert(t, info', e, st.lru, Grown(st, i));
    PlaceIs(st, info', i, replaced);
  }

  lemma PlaceBound(st: State, key: Bytes, hash: nat, i: nat)
    requires IsPlace(st, key, hash, i)
    ensures i <= |st.lru|
  {
  }

  /** The position in the list of the handle with a key; the end of the list if there is none. */
  ghost predicate IsPlace(st: State, key: Bytes, hash: nat, i: nat) {
    && i <= |st.lru| && Known(st.info, st.lru)
    && (if i < |st.lru| then Same(st.info[st.lru[i]], key, hash)
        else forall k :: 0 <= k < |st.lru| ==> !Same(st.info[st.lru[k]], key, hash))
  }

  lemma KeyPlace(st: State, key: Bytes, hash: nat) returns (i: nat)
    requires Sound(st, None)
    ensures IsPlace(st, key, hash, i)
  {
    hide Sound;
    SoundFacts(st, None);
    if k :| 0 <= k < |st.lru| && Same(st.info[st.lru[k]], key, hash) {
      i := k;
    } else {
      i := |st.lru|;
    }
  }

  ghost function Grown(st: State, i: nat): seq<Ref>
    requires i <= |st.lru|
  {
    if i < |st.lru| then Removed(st.lru, i) + [st.free] else st.lru + [st.free]
  }

  /** The charges left once the handle at `i`, if any, has lost the cache's reference. */
  ghost function GrownUsage(st: State, i: nat): int {
    if i < |st.lru| && st.lru[i] in st.info && st.lru[i] !in st.held then st.usage - st.info[st.lru[i]].charge
    else st.usage
  }

  lemma UsageAfter(st: State, key: Bytes, hash: nat, i: nat)
    requires Sound(st, None) && IsPlace(st, key, hash, i)
    ensures i < |st.lru| ==>
              && st.lru[i] in st.info && st.lru[i] in st.refs && st.lru[i] != st.free
              && GrownUsage(st, i) == if st.refs[st.lru[i]] > 1 then st.usage else st.usage - st.info[st.lru[i]].charge
    ensures i == |st.lru| ==> GrownUsage(st, i) == st.usage
  {
    hide Sound;
    SoundFacts(st, None);
    if i < |st.lru| {
      assert st.lru[i] in st.lru;
      OnlyCached(st, st.lru[i]);
    }
  }

  lemma InfoGrows(list: seq<seq<Ref>>, info: map<Ref, Info>, info': map<Ref, Info>, hs: seq<Ref>)
    requires Holds(list, info, hs) && forall h :: h in hs && h in info ==> h in info' && info'[h] == info[h]
    ensures Holds(list, info', hs)
  {
    hide Flatten, Slot, Same;
    AllKnown(list, info, hs);
    var all := Flatten(list);
    forall b, h | 0 <= b < |list| && h in list[b]
      ensures h in info' && Slot(info'[h].hash, |list|) == b
    {
      InChain(list, b, h);
    }
    forall i | 0 <= i < |all|
      ensures all[i] in info' && all[i] in info && info'[all[i]] == info[all[i]]
    {
      assert all[i] in all;
    }
  }

  /** What HandleTable.Insert is told. */
  lemma ToInsert(st: State, info': map<Ref, Info>, i: nat)
    requires Sound(st, None) && st.free in info' && info' == st.info[st.free := info'[st.free]]
    requires IsPlace(st, info'[st.free].key, info'[st.free].hash, i)
    ensures TableOk(st.table, info', st.lru) && st.free !in st.lru
    ensures var key, hash := info'[st.free].key, info'[st.free].hash;
            && (forall v :: IsFound(info', st.lru, key, hash, Some(v)) ==>
                  && i < |st.lru| && v == st.lru[i] && |Grown(st, i)| == |st.lru|
                  && forall x :: x in Grown(st, i) <==> (x in st.lru && x != v) || x == st.free)
            && (IsFound(info', st.lru, key, hash, None) ==> i == |st.lru| && Grown(st, i) == st.lru + [st.free])
  {
    hide Sound, Linked, Holds, Removed;
    SoundFacts(st, None);
    var key, hash := info'[st.free].key, info'[st.free].hash;
    InfoGrows(st.table.list, st.info, info', st.lru);
    if i < |st.lru| {
      var e := st.lru[i];
      assert e in st.lru;
      AfterRemoval(st.lru, i);
      forall v | IsFound(info', st.lru, key, hash, Some(v))
        ensures v == e
      {
        OneHandlePerKey(st.table, st.info, st.lru, v, e);
      }
    } else {
      forall v | v in st.lru
        ensures v in info' && !Same(info'[v], key, hash)
      {
        var k :| 0 <= k < |st.lru| && st.lru[k] == v;
      }
    }
  }

  /** The handle the table replaces is the one at that position. */
  lemma PlaceIs(st: State, info': map<Ref, Info>, i: nat, r: Option<Ref>)
    requires Sound(st, None) && st.free in info' && info' == st.info[st.free := info'[st.free]]
    requires IsPlace(st, info'[st.free].key, info'[st.free].hash, i)
    requires IsFound(info', st.lru, info'[st.free].key, info'[st.free].hash, r)
    ensures r == if i < |st.lru| then Some(st.lru[i]) else None
  {
    hide Sound, Same, Grown, TableOk;
    ToInsert(st, info', i);
  }

  /** The state with a new handle: appended, counted twice, and in the table. */
  ghost function Added(st: State, info': map<Ref, Info>, i: nat, table: Table, ring: Links): State
    requires i <= |st.lru| && st.free in info'
  {
    State(st.usage + info'[st.free].charge, ring, table, info', st.refs[st.free := 2], st.free + 1,
          Grown(st, i), st.alive + [st.free], st.deleted, st.held + multiset{st.free})
  }

  lemma AddKeeps(st: State, info': map<Ref, Info>, i: nat, table: Table)
    requires Sound(st, None) && st.free in info' && info' == st.info[st.free := info'[st.free]]
    requires i <= |st.lru| && TableOk(table, info', Grown(st, i))
    ensures DUMMY in st.ring.prev
    ensures var ring := Append(st.ring, st.free);
            if i < |st.lru| then
              && st.lru[i] in ring.next && st.lru[i] in ring.prev
              && Sound(Added(st, info', i, table, Ring.Remove(ring, st.lru[i])), Some(st.lru[i]))
            else Sound(Added(st, info', i, table, ring), None)
  {
    hide Linked, TableOk, Counted, Lives, Grown, Removed, Ring.Remove, Append;
    SoundFacts(st, None);
    BornLives(st.info, info', st.alive, st.deleted, st.free);
    AddLinks(st, i);
    AddCounts(st, i);
  }

  lemma AddLinks(st: State, i: nat)
    requires Linked(st.ring, st.lru) && i <= |st.lru| && st.free !in st.lru && st.free > 0
    ensures DUMMY in st.ring.prev
    ensures var ring := Append(st.ring, st.free);
            if i < |st.lru| then
              st.lru[i] in ring.next && st.lru[i] in ring.prev && Linked(Ring.Remove(ring, st.lru[i]), Grown(st, i))
            else Linked(ring, Grown(st, i))
  {
    hide Linked;
    var e := st.free;
    AppendLinks(st.ring, st.lru, e);
    if i < |st.lru| {
      assert (st.lru + [e])[i] == st.lru[i];
      RemoveLinks(Append(st.ring, e), st.lru + [e], i);
      assert Removed(st.lru + [e], i) == Removed(st.lru, i) + [e];
    }
  }

  lemma AddCounts(st: State, i: nat)
    requires Counted(st.refs, st.held, st.lru, st.alive, None) && i <= |st.lru| && Distinct(st.lru)
    requires st.free !in st.alive
    ensures Counted(st.refs[st.free := 2], st.held + multiset{st.free}, Grown(st, i), st.alive + [st.free],
                    if i < |st.lru| then Some(st.lru[i]) else None)
  {
    hide Removed;
    if i < |st.lru| {
      AfterRemoval(st.lru, i);
      assert st.lru[i] in st.lru;
    }
  }

  lemma BornLives(info: map<Ref, Info>, info': map<Ref, Info>, alive: seq<Ref>, deleted: seq<Ref>, e: Ref)
    requires Lives(info, alive, deleted, e) && e in info' && info' == info[e := info'[e]]
    ensures Lives(info', alive + [e], deleted, e + 1)
    ensures Known(info', alive + [e]) && Charges(info', alive + [e]) == Charges(info, alive) + info'[e].charge
  {
    assert e !in alive && e !in deleted;
    ChargesSame(info, info', alive);
    assert (alive + [e])[..|alive|] == alive;
  }

  /** The first `i` handles are held by clients, and what is gone was not. */
  ghost predicate Pruned(lru0: seq<Ref>, lru: seq<Ref>, held: multiset<Ref>, i: nat) {
    && i <= |lru| && (forall h :: h in lru ==> h in lru0)
    && (forall h :: h in lru0 && h !in lru ==> h !in held) && (forall k :: 0 <= k < i ==> lru[k] in held)
  }

  lemma NothingPruned(lru: seq<Ref>, held: multiset<Ref>)
    ensures Pruned(lru, lru, held, 0)
  {
  }

  lemma PruneStep(lru0: seq<Ref>, lru: seq<Ref>, held: multiset<Ref>, i: nat)
    requires Pruned(lru0, lru, held, i) && i < |lru| && Distinct(lru)
    ensures if lru[i] in held then Pruned(lru0, lru, held, i + 1)
            else Pruned(lru0, Removed(lru, i), held, i) && At(Removed(lru, i), i) == At(lru, i + 1)
  {
    AfterRemoval(lru, i);
    RemovedAt(lru, i, i);
  }

  lemma AllPruned(lru0: seq<Ref>, lru: seq<Ref>, held: multiset<Ref>, i: nat)
    requires Pruned(lru0, lru, held, i) && i == |lru|
    ensures forall h :: h in lru <==> h in lru0 && h in held
  {
    forall h | h in lru
      ensures h in held
    {
      var k :| 0 <= k < |lru| && lru[k] == h;
    }
  }

  lemma PositionOf(info: map<Ref, Info>, lru: seq<Ref>, key: Bytes, hash: nat, e: Ref) returns (i: nat)
    requires IsFound(info, lru, key, hash, Some(e))
    ensures i < |lru| && lru[i] == e
  {
    i :| 0 <= i < |lru| && lru[i] == e;
  }

  /** A handle that is used moves to the end of the list and gains a reference. */
  lemma UseKeeps(st: State, i: nat)
    requires Sound(st, None) && i < |st.lru|
    ensures var e := st.lru[i];
            && e in st.refs && e in st.ring.next && e in st.ring.prev && DUMMY in Ring.Remove(st.ring, e).prev
            && Sound(st.(refs := st.refs[e := st.refs[e] + 1], ring := Append(Ring.Remove(st.ring, e), e),
                         lru := Removed(st.lru, i) + [e], held := st.held + multiset{e}), None)
  {
    hide Linked, Holds, PowerOfTwo;
    SoundFacts(st, None);
    var e, lru' := st.lru[i], Removed(st.lru, i) + [st.lru[i]];
    assert e in st.lru;
    AfterRemoval(st.lru, i);
    RemoveLinks(st.ring, st.lru, i);
    AppendLinks(Ring.Remove(st.ring, e), Removed(st.lru, i), e);
    SameHandles(st.table.list, st.info, st.lru, lru');
  }

  lemma SameHandles(list: seq<seq<Ref>>, info: map<Ref, Info>, hs: seq<Ref>, hs': seq<Ref>)
    requires Holds(list, info, hs) && |hs'| == |hs| && forall h :: h in hs' <==> h in hs
    ensures Holds(list, info, hs')
  {
  }

  lemma ReleaseKeeps(st: State, e: Ref)
    requires Sound(st, None) && e in st.held
    ensures Sound(st.(held := st.held - multiset{e}), Some(e))
  {
    hide Linked, TableOk, Lives;
  }

  /** No other handle of the cache has the key of this one. */
  lemma OthersDiffer(st: State, i: nat)
    requires Sound(st, None) && i < |st.lru|
    ensures st.lru[i] in st.info
    ensures forall h :: h in Removed(st.lru, i) <==>
      h in st.lru && h in st.info && !Same(st.info[h], st.info[st.lru[i]].key, st.info[st.lru[i]].hash)
  {
    hide TableOk, Linked, Sound, Removed;
    SoundFacts(st, None);
    AfterRemoval(st.lru, i);
    var e := st.lru[i];
    assert e in st.lru;
    forall h | h in st.lru && h in st.info && Same(st.info[h], st.info[e].key, st.info[e].hash)
      ensures h == e
    {
      OneHandlePerKey(st.table, st.info, st.lru, h, e);
    }
  }

  lemma EntryAt(m: Links, s: seq<Ref>, i: nat)
    requires Linked(m, s) && i <= |s|
    ensures At(s, i) == DUMMY <==> i == |s|
    ensures i < |s| ==> s[i] == At(s, i) && s[i] in m.next && m.next[s[i]] == At(s, i + 1)
    ensures DUMMY in m.next && m.next[DUMMY] == At(s, 0) && At(s, -1) == DUMMY
  {
    hide Linked;
    SameAtOf(m, s, i);
    NextOf(m, s, 0);
    if i < |s| {
      EntryOf(m, s, i);
    }
  }

  lemma SameAtOf(m: Links, s: seq<Ref>, i: nat)
    requires Linked(m, s) && i <= |s|
    ensures At(s, i) == DUMMY <==> i == |s|
  {
    SameAt(s, i, i);
  }

  /** A count of one on a cached handle means that no client holds it. */
  lemma OnlyCached(st: State, e: Ref)
    requires Sound(st, None) && e in st.lru
    ensures e in st.refs && st.refs[e] >= 1 && (st.refs[e] == 1 <==> e !in st.held)
  {
    hide Linked, TableOk, Lives;
  }

  /** A handle is deleted exactly when neither a client nor the cache has a reference to it. */
  lemma DeletedExactlyOnce(st: State, h: Ref)
    requires Sound(st, None) && 0 < h < st.free
    ensures h in st.deleted <==> h !in st.held && h !in st.lru
    ensures forall i, j :: 0 <= i < j < |st.deleted| ==> st.deleted[i] != st.deleted[j]
  {
    hide Linked, TableOk;
  }
}
