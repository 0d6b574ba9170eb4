/** The cache's hash table: chains that are rehashed when they get long (util/leveldb/util/cache.cc). */
module HandleTable {
  import opened Common
  import opened Keys
  import opened Coding
  import opened Ring

  /** The fields of a handle that never change. */
  datatype Info = Info(key: Bytes, hash: nat, charge: nat)

  datatype Table = Table(length: nat, elems: nat, list: seq<seq<Ref>>)

  ghost predicate PowerOfTwo(n: nat) {
    n > 0 && (n == 1 || (n % 2 == 0 && PowerOfTwo(n / 2)))
  }

  /** The slot of a hash; for a power of two the source's bit mask is the remainder. */
  function Slot(hash: nat, length: nat): (b: nat)
    requires length > 0
    ensures b < length
  {
    hash % length
  }

  /** The source masks the hash with the length less one: the slot has its low bits, and no others. */
  lemma SlotIsMasked(hash: nat, k: nat)
    ensures Slot(hash, Pow2(k)) < Pow2(k) && SameBits(Slot(hash, Pow2(k)), hash, k)
  {
    hide Pow2, SameBits;
    SameLowBits(hash % Pow2(k), hash, k);
  }

  ghost predicate Known(info: map<Ref, Info>, s: seq<Ref>) {
    forall i :: 0 <= i < |s| ==> s[i] in info
  }

  predicate Same(a: Info, key: Bytes, hash: nat) {
    a.hash == hash && a.key == key
  }

  ghost predicate DistinctKeys(info: map<Ref, Info>, s: seq<Ref>) {
    && Known(info, s)
    && forall i, j :: 0 <= i < j < |s| ==> !Same(info[s[i]], info[s[j]].key, info[s[j]].hash)
  }

  /** Every handle is in the chain of its slot. */
  ghost predicate Placed(list: seq<seq<Ref>>, info: map<Ref, Info>) {
    forall b, h :: 0 <= b < |list| && h in list[b] ==> h in info && Slot(info[h].hash, |list|) == b
  }

  /** The chains hold exactly the handles of `hs`, no two with the same key. */
  ghost predicate Holds(list: seq<seq<Ref>>, info: map<Ref, Info>, hs: seq<Ref>) {
    && list != [] && Placed(list, info) && DistinctKeys(info, Flatten(list)) && |Flatten(list)| == |hs|
    && (forall h :: h in Flatten(list) <==> h in hs)
  }

  /** There are never more handles than chains. */
  ghost predicate TableOk(t: Table, info: map<Ref, Info>, hs: seq<Ref>) {
    t.length == |t.list| && PowerOfTwo(t.length) && t.elems == |hs| <= t.length && Holds(t.list, info, hs)
  }

  // ---------------------------------------------------------------- chains inside the whole

  /** One chain seen in the list of all handles, also after it is replaced. */
  lemma FlattenAt(list: seq<seq<Ref>>, b: nat, chain: seq<Ref>)
    requires b < |list|
    ensures Flatten(list) == Flatten(list[..b]) + list[b] + Flatten(list[b + 1..])
    ensures Flatten(list[b := chain]) == Flatten(list[..b]) + chain + Flatten(list[b + 1..])
  {
    hide Flatten;
    var p, s := list[..b], list[b + 1..];
    assert list == p + [list[b]] + s && list[b := chain] == p + [chain] + s;
    FlattenConcat(p + [list[b]], s);
    FlattenConcat(p, [list[b]]);
    FlattenConcat(p + [chain], s);
    FlattenConcat(p, [chain]);
    FlattenOne(list[b]);
    FlattenOne(chain);
  }

  /** Adding a handle with a new key anywhere. */
  lemma InsertDistinct(info: map<Ref, Info>, a: seq<Ref>, b: seq<Ref>, h: Ref)
    requires DistinctKeys(info, a + b) && h in info
    requires forall x :: x in a + b ==> x in info && !Same(info[x], info[h].key, info[h].hash)
    ensures DistinctKeys(info, a + [h] + b)
  {
    var old', all := a + b, a + [h] + b;
    forall i | 0 <= i < |all| && i != |a|
      ensures all[i] == old'[if i < |a| then i else i - 1] && all[i] in old'
    {
    }
  }

  lemma RemoveDistinct(info: map<Ref, Info>, a: seq<Ref>, b: seq<Ref>, h: Ref)
    requires DistinctKeys(info, a + [h] + b)
    ensures DistinctKeys(info, a + b) && h in info && h !in a + b
    ensures forall x :: x in a + b ==> x in info && !Same(info[x], info[h].key, info[h].hash)
  {
    var s, all := a + b, a + [h] + b;
    assert all[|a|] == h;
    assert forall i :: 0 <= i < |s| ==> s[i] == all[if i < |a| then i else i + 1];
  }

  /** Exchanging a handle for one with the same key. */
  lemma ReplaceDistinct(info: map<Ref, Info>, a: seq<Ref>, b: seq<Ref>, h: Ref, h': Ref)
    requires DistinctKeys(info, a + [h] + b) && h' in info && h in info && Same(info[h'], info[h].key, info[h].hash)
    ensures DistinctKeys(info, a + [h'] + b)
  {
    RemoveDistinct(info, a, b, h);
    InsertDistinct(info, a, b, h');
  }

  // ---------------------------------------------------------------- searching

  /** FindPointer: the position of a key in a chain, or the end of the chain. */
  method FindInChain(info: map<Ref, Info>, chain: seq<Ref>, key: Bytes, hash: nat) returns (i: nat)
    requires Known(info, chain)
    ensures i <= |chain| && (forall k :: 0 <= k < i ==> !Same(info[chain[k]], key, hash))
    ensures i < |chain| ==> Same(info[chain[i]], key, hash)
  {
    i := 0;
    while i < |chain| && !Same(info[chain[i]], key, hash)
      invariant i <= |chain| && forall k :: 0 <= k < i ==> !Same(info[chain[k]], key, hash)
    {
      i := i + 1;
    }
  }

  /** The handle with a key among `hs`, if there is one. */
  ghost predicate IsFound(info: map<Ref, Info>, hs: seq<Ref>, key: Bytes, hash: nat, r: Option<Ref>) {
    && Known(info, hs)
    && match r
       case None => forall h :: h in hs ==> h in info && !Same(info[h], key, hash)
       case Some(h) => h in hs && h in info && Same(info[h], key, hash)
  }

  lemma InChain(list: seq<seq<Ref>>, b: nat, h: Ref)
    requires b < |list| && h in list[b]
    ensures h in Flatten(list)
  {
    FlattenAt(list, b, list[b]);
  }

  lemma {:induction false} SomeChain(list: seq<seq<Ref>>, h: Ref) returns (b: nat)
    requires h in Flatten(list)
    ensures b < |list| && h in list[b]
    decreases |list|
  {
    var n := |list| - 1;
    if h in list[n] {
      b := n;
    } else {
      b := SomeChain(list[..n], h);
    }
  }

  lemma FoundInSlot(list: seq<seq<Ref>>, info: map<Ref, Info>, hs: seq<Ref>, key: Bytes, hash: nat, i: nat)
    requires Holds(list, info, hs)
    requires var chain := list[Slot(hash, |list|)];
             && Known(info, chain) && i <= |chain| && (forall k :: 0 <= k < i ==> !Same(info[chain[k]], key, hash))
             && (i < |chain| ==> Same(info[chain[i]], key, hash))
    ensures var chain := list[Slot(hash, |list|)];
            IsFound(info, hs, key, hash, if i < |chain| then Some(chain[i]) else None)
  {
    hide Flatten, Slot, Same;
    var b := Slot(hash, |list|);
    AllKnown(list, info, hs);
    if i < |list[b]| {
      InChain(list, b, list[b][i]);
    } else {
      forall h | h in hs
        ensures h in info && !Same(info[h], key, hash)
      {
        var c := SomeChain(list, h);
        SameSlot(info[h], key, hash);
      }
    }
  }

  lemma SameSlot(a: Info, key: Bytes, hash: nat)
    ensures Same(a, key, hash) ==> a.hash == hash
  {
  }

  lemma AllKnown(list: seq<seq<Ref>>, info: map<Ref, Info>, hs: seq<Ref>)
    requires Holds(list, info, hs)
    ensures list != [] && Known(info, hs) && forall b :: 0 <= b < |list| ==> Known(info, list[b])
  {
    hide Flatten, Slot;
    forall i | 0 <= i < |hs|
      ensures hs[i] in info
    {
      var b := SomeChain(list, hs[i]);
    }
    forall b, i | 0 <= b < |list| && 0 <= i < |list[b]|
      ensures list[b][i] in info
    {
      assert list[b][i] in list[b];
    }
  }

  method Lookup(t: Table, info: map<Ref, Info>, key: Bytes, hash: nat, ghost hs: seq<Ref>) returns (r: Option<Ref>)
    requires TableOk(t, info, hs)
    ensures IsFound(info, hs, key, hash, r)
  {
    hide Holds, Slot, Known, Same;
    AllKnown(t.list, info, hs);
    var b := Slot(hash, t.length);
    var i := FindInChain(info, t.list[b], key, hash);
    FoundInSlot(t.list, info, hs, key, hash, i);
    r := if i < |t.list[b]| then Some(t.list[b][i]) else None;
  }

  // ---------------------------------------------------------------- changing one chain

  /** Putting another chain in place of one, given what that does to the whole. */
  lemma PlaceChain(list: seq<seq<Ref>>, info: map<Ref, Info>, b: nat, chain: seq<Ref>)
    requires b < |list| && Placed(list, info)
    requires forall h :: h in chain ==> h in info && Slot(info[h].hash, |list|) == b
    ensures Placed(list[b := chain], info)
  {
  }

  lemma AppendHolds(list: seq<seq<Ref>>, info: map<Ref, Info>, hs: seq<Ref>, h: Ref, front: bool)
    requires Holds(list, info, hs) && h in info && IsFound(info, hs, info[h].key, info[h].hash, None)
    ensures var b := Slot(info[h].hash, |list|);
            Holds(list[b := if front then [h] + list[b] else list[b] + [h]], info, hs + [h])
  {
    hide Flatten, Slot, DistinctKeys;
    var b := Slot(info[h].hash, |list|);
    var p, c, s := Flatten(list[..b]), list[b], Flatten(list[b + 1..]);
    var chain := if front then [h] + c else c + [h];
    FlattenAt(list, b, chain);
    PlaceChain(list, info, b, chain);
    if front {
      assert p + c + s == p + (c + s) && p + ([h] + c) + s == p + [h] + (c + s);
      InsertDistinct(info, p, c + s, h);
    } else {
      assert p + c + s == (p + c) + s && p + (c + [h]) + s == (p + c) + [h] + s;
      InsertDistinct(info, p + c, s, h);
    }
  }

  lemma SplitChain(list: seq<seq<Ref>>, b: nat, i: nat, mid: seq<Ref>)
    requires b < |list| && i < |list[b]|
    ensures var c := list[b];
            var p, s := Flatten(list[..b]) + c[..i], c[i + 1..] + Flatten(list[b + 1..]);
            Flatten(list) == p + [c[i]] + s && Flatten(list[b := c[..i] + mid + c[i + 1..]]) == p + mid + s
  {
    hide Flatten;
    var c := list[b];
    var p, s := Flatten(list[..b]), Flatten(list[b + 1..]);
    FlattenAt(list, b, c[..i] + mid + c[i + 1..]);
    assert c == c[..i] + [c[i]] + c[i + 1..];
    assert p + (c[..i] + [c[i]] + c[i + 1..]) + s == (p + c[..i]) + [c[i]] + (c[i + 1..] + s);
    assert p + (c[..i] + mid + c[i + 1..]) + s == (p + c[..i]) + mid + (c[i + 1..] + s);
  }

  function Replaced(c: seq<Ref>, i: nat, h: Ref): (r: seq<Ref>)
    requires i < |c|
  {
    c[..i] + [h] + c[i + 1..]
  }

  lemma ReplaceHolds(list: seq<seq<Ref>>, info: map<Ref, Info>, hs: seq<Ref>, b: nat, i: nat, h: Ref, hs': seq<Ref>)
    requires Holds(list, info, hs) && b < |list| && i < |list[b]| && h in info && list[b][i] in info
    requires Same(info[list[b][i]], info[h].key, info[h].hash) && h !in hs
    requires |hs'| == |hs| && forall x :: x in hs' <==> (x in hs && x != list[b][i]) || x == h
    ensures Holds(list[b := Replaced(list[b], i, h)], info, hs')
  {
    hide Flatten, Slot, DistinctKeys;
    var c, v := list[b], list[b][i];
    var p, s := Flatten(list[..b]) + c[..i], c[i + 1..] + Flatten(list[b + 1..]);
    SplitChain(list, b, i, [h]);
    assert v in c;
    ReplaceDistinct(info, p, s, v, h);
    RemoveDistinct(info, p, s, v);
    PlaceChain(list, info, b, Replaced(c, i, h));
  }

  lemma RemoveHolds(list: seq<seq<Ref>>, info: map<Ref, Info>, hs: seq<Ref>, b: nat, i: nat, hs': seq<Ref>)
    requires Holds(list, info, hs) && b < |list| && i < |list[b]|
    requires |hs'| == |hs| - 1 && forall x :: x in hs' <==> x in hs && x != list[b][i]
    ensures Holds(list[b := list[b][..i] + list[b][i + 1..]], info, hs')
  {
    hide Flatten, Slot, DistinctKeys;
    var c, v := list[b], list[b][i];
    var p, s := Flatten(list[..b]) + c[..i], c[i + 1..] + Flatten(list[b + 1..]);
    SplitChain(list, b, i, []);
    assert c[..i] + [] + c[i + 1..] == c[..i] + c[i + 1..] && p + [] + s == p + s;
    RemoveDistinct(info, p, s, v);
    PlaceChain(list, info, b, c[..i] + c[i + 1..]);
  }

  // ---------------------------------------------------------------- rehashing

  lemma EmptyHolds(list: seq<seq<Ref>>, info: map<Ref, Info>)
    requires list != [] && forall b :: 0 <= b < |list| ==> list[b] == []
    ensures Holds(list, info, [])
  {
    EmptyFlatten(list);
  }

  lemma {:induction false} EmptyFlatten(list: seq<seq<Ref>>)
    requires forall b :: 0 <= b < |list| ==> list[b] == []
    ensures Flatten(list) == []
  {
    if list != [] {
      EmptyFlatten(list[..|list| - 1]);
    }
  }

  /** The new length: the first power of two from 4 on that is not below the number of handles. */
  method NewLength(elems: nat) returns (length: nat)
    ensures PowerOfTwo(length) && length >= elems && length >= 4
    ensures length == 4 || length / 2 < elems
  {
    length := 4;
    assert PowerOfTwo(1) && PowerOfTwo(2);
    while length < elems
      invariant PowerOfTwo(length) && length >= 4 && (length == 4 || length / 2 < elems)
      decreases elems - length
    {
      assert (length * 2) / 2 == length;
      length := length * 2;
    }
  }

  /** Resize: every handle is pushed in front of its new chain. */
  method Resize(t: Table, info: map<Ref, Info>, ghost hs: seq<Ref>) returns (t': Table)
    requires t.length == |t.list| && t.elems == |hs|
    requires t.list == [] ==> hs == []
    requires t.list != [] ==> Holds(t.list, info, hs)
    ensures TableOk(t', info, hs) && t'.elems == t.elems
    ensures t'.length == 4 || t'.length / 2 < t'.elems
  {
    hide Holds, Slot, Flatten, PowerOfTwo, DistinctKeys;
    var length := NewLength(t.elems);
    var list: seq<seq<Ref>> := seq(length, _ => []);
    var count := 0;
    EmptyHolds(list, info);
    if t.list != [] {
      AllKnown(t.list, info, hs);
    }
    NoChains();
    assert t.list[..0] == [];
    for i := 0 to t.length
      invariant |list| == length && Holds(list, info, Flatten(t.list[..i])) && count == |Flatten(t.list[..i])|
    {
      var chain := t.list[i];
      assert Flatten(t.list[..i]) + chain[..0] == Flatten(t.list[..i]);
      for j := 0 to |chain|
        invariant |list| == length && Holds(list, info, Flatten(t.list[..i]) + chain[..j])
        invariant count == |Flatten(t.list[..i])| + j
      {
        var h := chain[j];
        NextToMove(t.list, info, hs, i, j);
        ghost var done := Flatten(t.list[..i]) + chain[..j];
        AppendHolds(list, info, done, h, true);
        var b := Slot(info[h].hash, length);
        list := list[b := [h] + list[b]];
        count := count + 1;
        assert Flatten(t.list[..i]) + chain[..j + 1] == done + [h];
      }
      OneMoreChain(t.list, i);
      assert chain[..|chain|] == chain;
    }
    assert t.list[..t.length] == t.list;
    Rehashed(t.list, list, info, hs);
    assert t.elems == count;
    t' := Table(length, t.elems, list);
  }

  lemma NoChains()
    ensures Flatten<Ref>([]) == []
  {
  }

  lemma OneMoreChain(list: seq<seq<Ref>>, i: nat)
    requires i < |list|
    ensures Flatten(list[..i + 1]) == Flatten(list[..i]) + list[i]
  {
    assert list[..i + 1][..i] == list[..i];
  }

  /** The handle moved next has a key that was not moved before. */
  lemma NextToMove(list: seq<seq<Ref>>, info: map<Ref, Info>, hs: seq<Ref>, i: nat, j: nat)
    requires Holds(list, info, hs) && i < |list| && j < |list[i]|
    ensures var h := list[i][j];
            h in info && IsFound(info, Flatten(list[..i]) + list[i][..j], info[h].key, info[h].hash, None)
  {
    hide Flatten, Slot;
    var h, done := list[i][j], Flatten(list[..i]) + list[i][..j];
    SplitChain(list, i, j, []);
    var all := Flatten(list);
    assert all[|done|] == h;
    assert forall k :: 0 <= k < |done| ==> all[k] == done[k];
  }

  lemma Rehashed(list: seq<seq<Ref>>, list': seq<seq<Ref>>, info: map<Ref, Info>, hs: seq<Ref>)
    requires Holds(list', info, Flatten(list)) && (if list == [] then hs == [] else Holds(list, info, hs))
    ensures Holds(list', info, hs) && |Flatten(list)| == |hs|
  {
    hide Slot, DistinctKeys;
    NoChains();
  }

  // ---------------------------------------------------------------- the operations

  /** Insert: replaces the handle with the same key, or adds one at the end of the chain. */
  method Insert(t: Table, info: map<Ref, Info>, h: Ref, ghost hs: seq<Ref>, ghost hs': seq<Ref>)
    returns (t': Table, replaced: Option<Ref>)
    requires TableOk(t, info, hs) && h in info && h !in hs
    requires forall v :: IsFound(info, hs, info[h].key, info[h].hash, Some(v)) ==>
      |hs'| == |hs| && forall x :: x in hs' <==> (x in hs && x != v) || x == h
    requires IsFound(info, hs, info[h].key, info[h].hash, None) ==> hs' == hs + [h]
    ensures IsFound(info, hs, info[h].key, info[h].hash, replaced) && TableOk(t', info, hs')
    ensures t'.length == t.length || (replaced == None && t.elems == t.length
                                       && (t'.length == 4 || t'.length / 2 <= t.length))
  {
    hide Holds, Slot, Known, Same, PowerOfTwo, IsFound;
    AllKnown(t.list, info, hs);
    var key, hash := info[h].key, info[h].hash;
    var b := Slot(hash, t.length);
    var i := FindInChain(info, t.list[b], key, hash);
    FoundInSlot(t.list, info, hs, key, hash, i);
    if i < |t.list[b]| {
      replaced := Some(t.list[b][i]);
      ChainKnown(info, t.list[b], i);
      ReplaceHolds(t.list, info, hs, b, i, h, hs');
      t' := t.(list := t.list[b := Replaced(t.list[b], i, h)]);
    } else {
      replaced := None;
      AppendHolds(t.list, info, hs, h, false);
      t' := Table(t.length, t.elems + 1, t.list[b := t.list[b] + [h]]);
      if t'.elems > t'.length {
        t' := Resize(t', info, hs');
      }
    }
  }

  lemma ChainKnown(info: map<Ref, Info>, chain: seq<Ref>, i: nat)
    requires Known(info, chain) && i < |chain|
    ensures chain[i] in info
  {
  }

  method Remove(t: Table, info: map<Ref, Info>, key: Bytes, hash: nat, ghost hs: seq<Ref>, ghost hs': seq<Ref>)
    returns (t': Table, removed: Option<Ref>)
    requires TableOk(t, info, hs)
    requires forall v :: IsFound(info, hs, key, hash, Some(v)) ==>
      |hs'| == |hs| - 1 && forall x :: x in hs' <==> x in hs && x != v
    requires IsFound(info, hs, key, hash, None) ==> hs' == hs
    ensures IsFound(info, hs, key, hash, removed) && TableOk(t', info, hs') && t'.length == t.length
  {
    hide Holds, Slot, Known, Same, PowerOfTwo, IsFound;
    AllKnown(t.list, info, hs);
    var b := Slot(hash, t.length);
    var i := FindInChain(info, t.list[b], key, hash);
    FoundInSlot(t.list, info, hs, key, hash, i);
    if i < |t.list[b]| {
      removed := Some(t.list[b][i]);
      RemoveHolds(t.list, info, hs, b, i, hs');
      t' := Table(t.length, t.elems - 1, t.list[b := t.list[b][..i] + t.list[b][i + 1..]]);
    } else {
      removed := None;
      t' := t;
    }
  }
}
