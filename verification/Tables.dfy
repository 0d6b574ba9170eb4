/**
Tables: data blocks found through an index of shortened separators, and through a filter
(util/leveldb/table/table_builder.cc, util/leveldb/table/table.cc).
 */
module Tables {
  import opened Common
  import opened Keys
  import opened Coding
  import opened Bytewise
  import opened BloomPolicy
  import FilterBlock

  datatype Item = Item(key: IKey, value: Bytes)
  datatype IndexEntry = IndexEntry(sep: IKey, offset: nat)

  /** A finished table: its data blocks and where they are, the index, and the filter block. */
  datatype Table = Table(blocks: seq<seq<Item>>, offs: seq<nat>, index: seq<IndexEntry>, filter: Bytes, policy: Policy)

  ghost predicate Ascending(s: seq<Item>) {
    forall i, j :: 0 <= i < j < |s| ==> IsLess(s[i].key, s[j].key)
  }

  function Last(b: seq<Item>): (k: IKey)
    requires b != []
  {
    b[|b| - 1].key
  }

  ghost predicate NoEmpty(blocks: seq<seq<Item>>) {
    forall i :: 0 <= i < |blocks| ==> blocks[i] != []
  }

  /** Index entry `i` points at block `i`; its key separates the block from what follows. */
  ghost predicate Indexes(index: seq<IndexEntry>, blocks: seq<seq<Item>>, offs: seq<nat>, n: nat)
    requires NoEmpty(blocks) && n <= |index| && n < |blocks| == |offs|
  {
    && (forall i :: 0 <= i < n ==> index[i].offset == offs[i])
    && (forall i, j :: 0 <= i < n && i + 1 == j ==>
          Separates(index[i].sep, Last(blocks[i]), blocks[j][0].key))
  }

  /** Offsets grow from block to block, and stay below `end`. */
  ghost predicate Offsets(offs: seq<nat>, end: nat) {
    && (forall i, j :: 0 <= i < j < |offs| ==> offs[i] < offs[j])
    && (forall i :: 0 <= i < |offs| ==> offs[i] < end)
  }

  // ---------------------------------------------------------------- lookup

  ghost predicate TableOk(t: Table, all: seq<Item>) {
    && Flatten(t.blocks) == all && Ascending(all) && NoEmpty(t.blocks) && |t.index| == |t.blocks| == |t.offs|
    && t.policy.Valid() && (exists end :: Offsets(t.offs, end))
    && (t.blocks != [] ==>
          var n := |t.blocks| - 1;
          && Indexes(t.index, t.blocks, t.offs, n) && t.index[n].offset == t.offs[n]
          && (t.index[n].sep == Last(t.blocks[n]) || IsLess(Last(t.blocks[n]), t.index[n].sep)))
    && (forall i, x :: 0 <= i < |t.blocks| && x in t.blocks[i] ==> Passes(t, t.offs[i], x.key.user))
  }

  ghost predicate Passes(t: Table, offset: nat, user: Bytes) {
    FilterBlock.ReaderMatches(FilterBlock.Open(t.filter), t.policy, offset, user)
  }

  /** The first item of a table not below a key. */
  ghost predicate IsFirst(all: seq<Item>, k: IKey, x: Item) {
    x in all && !IsLess(x.key, k) && forall y :: y in all && IsLess(y.key, x.key) ==> IsLess(y.key, k)
  }

  /** The position of the first key not below `k` in ascending keys. */
  method SeekIndex(index: seq<IndexEntry>, k: IKey) returns (i: nat)
    ensures i <= |index| && (forall j :: 0 <= j < i ==> IsLess(index[j].sep, k))
    ensures i < |index| ==> !IsLess(index[i].sep, k)
  {
    i := 0;
    while i < |index| && IsLess(index[i].sep, k)
      invariant i <= |index| && forall j :: 0 <= j < i ==> IsLess(index[j].sep, k)
    {
      i := i + 1;
    }
  }

  method SeekBlock(items: seq<Item>, k: IKey) returns (i: nat)
    ensures i <= |items| && (forall j :: 0 <= j < i ==> IsLess(items[j].key, k))
    ensures i < |items| ==> !IsLess(items[i].key, k)
  {
    i := 0;
    while i < |items| && IsLess(items[i].key, k)
      invariant i <= |items| && forall j :: 0 <= j < i ==> IsLess(items[j].key, k)
    {
      i := i + 1;
    }
  }

  /** Reads the block at an offset. */
  method ReadBlock(t: Table, offset: nat, ghost n: nat) returns (b: seq<Item>)
    requires |t.blocks| == |t.offs| && n < |t.offs| && t.offs[n] == offset && exists end :: Offsets(t.offs, end)
    ensures b == t.blocks[n]
  {
    var i := 0;
    while i < |t.offs| && t.offs[i] != offset
      invariant i <= n
    {
      i := i + 1;
    }
    b := t.blocks[i];
  }

  /**
  InternalGet: what it hands on is the first item not below the key, and if that item has the
  user key looked for, it is handed on.
   */
  method InternalGet(t: Table, k: IKey, ghost all: seq<Item>) returns (r: Option<Item>)
    requires TableOk(t, all)
    ensures r.Some? ==> IsFirst(all, k, r.value)
    ensures forall x :: IsFirst(all, k, x) && x.key.user == k.user ==> r == Some(x)
    ensures Rejected(t, k) ==> r == None
  {
    hide *;
    var i := SeekIndex(t.index, k);
    if i == |t.index| {
      AllBelow(t, k, all);
      NothingFirst(all, k);
      return None;
    }
    IndexTarget(t, k, all, i);
    RejectedIff(t, k, i);
    PassesIs(t, t.index[i].offset, k.user);
    var may := FilterBlock.KeyMayMatch(FilterBlock.Open(t.filter), t.policy, t.index[i].offset, k.user);
    forall x | IsFirst(all, k, x) && x.key.user == k.user
      ensures may && exists j :: 0 <= j < |t.blocks[i]| && t.blocks[i][j] == x
    {
      var j := OnlyInBlock(t, k, all, i, x);
      PassesIs(t, t.offs[i], k.user);
    }
    if !may {
      return None;
    }
    var b := ReadBlock(t, t.index[i].offset, i);
    var j := SeekBlock(b, k);
    if j < |b| {
      BlockAnswers(t, k, all, i, j);
      OneFirst(t, all, k, b[j]);
      r := Some(b[j]);
    } else {
      FirstInBlock(all, k, b);
      r := None;
    }
  }

  lemma NothingFirst(all: seq<Item>, k: IKey)
    requires forall x :: x in all ==> IsLess(x.key, k)
    ensures forall x :: !IsFirst(all, k, x)
  {
  }

  lemma PassesIs(t: Table, offset: nat, user: Bytes)
    ensures Passes(t, offset, user) ==
      FilterBlock.ReaderMatches(FilterBlock.Open(t.filter), t.policy, offset, user)
  {
  }

  /** The first index entry that does not end before the key. */
  ghost predicate IsTarget(index: seq<IndexEntry>, k: IKey, i: nat) {
    i < |index| && (forall j :: 0 <= j < i ==> IsLess(index[j].sep, k)) && !IsLess(index[i].sep, k)
  }

  /** The filter of the one block that can hold the key rejects it. */
  ghost predicate Rejected(t: Table, k: IKey) {
    exists i: nat :: IsTarget(t.index, k, i) && !Passes(t, t.index[i].offset, k.user)
  }

  lemma RejectedIff(t: Table, k: IKey, i: nat)
    requires i < |t.index| && (forall j :: 0 <= j < i ==> IsLess(t.index[j].sep, k)) && !IsLess(t.index[i].sep, k)
    ensures Rejected(t, k) <==> !Passes(t, t.index[i].offset, k.user)
  {
    hide IsLess, Passes;
    assert IsTarget(t.index, k, i);
  }

  /** At most one item is the first. */
  lemma OneFirst(t: Table, all: seq<Item>, k: IKey, x: Item)
    requires TableOk(t, all) && IsFirst(all, k, x)
    ensures forall y :: IsFirst(all, k, y) ==> y == x
  {
    hide Bytewise.Less, Flatten;
    forall y | IsFirst(all, k, y)
      ensures y == x
    {
      IsLessTotal(x.key, y.key);
      var i :| 0 <= i < |all| && all[i] == x;
      var j :| 0 <= j < |all| && all[j] == y;
      assert i < j ==> IsLess(x.key, y.key);
      assert j < i ==> IsLess(y.key, x.key);
    }
  }

  lemma FirstInBlock(all: seq<Item>, k: IKey, items: seq<Item>)
    requires forall m :: 0 <= m < |items| ==> IsLess(items[m].key, k)
    ensures forall x :: IsFirst(all, k, x) ==> forall j :: 0 <= j < |items| ==> items[j] != x
  {
  }

  lemma IndexTarget(t: Table, k: IKey, all: seq<Item>, i: nat)
    requires TableOk(t, all) && i < |t.index| && (forall j :: 0 <= j < i ==> IsLess(t.index[j].sep, k))
    requires !IsLess(t.index[i].sep, k)
    ensures i < |t.blocks| == |t.offs| && t.index[i].offset == t.offs[i] && Led(t, k, i)
    ensures t.policy.Valid() && exists end :: Offsets(t.offs, end)
  {
    hide Flatten, Ascending;
  }

  // ---------------------------------------------------------------- items by block and position

  lemma FlatSplit(blocks: seq<seq<Item>>, n: nat)
    requires n <= |blocks|
    ensures Flatten(blocks) == Flatten(blocks[..n]) + Flatten(blocks[n..])
  {
    assert blocks == blocks[..n] + blocks[n..];
    FlattenConcat(blocks[..n], blocks[n..]);
  }

  /** Where an item of a block is among all items. */
  lemma Place(blocks: seq<seq<Item>>, b: nat, m: nat) returns (p: nat)
    requires b < |blocks| && m < |blocks[b]|
    ensures p == |Flatten(blocks[..b])| + m < |Flatten(blocks)| && Flatten(blocks)[p] == blocks[b][m]
  {
    hide Flatten;
    var tail := blocks[b..];
    FlatSplit(blocks, b);
    FlatSplit(tail, 1);
    FlattenOne(blocks[b]);
    assert tail[..1] == [blocks[b]];
    p := |Flatten(blocks[..b])| + m;
    assert Flatten(blocks) == Flatten(blocks[..b]) + (blocks[b] + Flatten(tail[1..]));
  }

  lemma {:induction false} FrontGrows(blocks: seq<seq<Item>>, a: nat, b: nat)
    requires a < b <= |blocks|
    ensures |Flatten(blocks[..b])| >= |Flatten(blocks[..a])| + |blocks[a]|
    decreases b
  {
    hide Flatten;
    OneMoreBlock(blocks, b - 1);
    if a < b - 1 {
      FrontGrows(blocks, a, b - 1);
    }
  }

  lemma OneMoreBlock(blocks: seq<seq<Item>>, b: nat)
    requires b < |blocks|
    ensures Flatten(blocks[..b + 1]) == Flatten(blocks[..b]) + blocks[b]
  {
    assert blocks[..b + 1][..b] == blocks[..b];
  }

  /** Items are in order within a block and from block to block. */
  lemma ItemsAscend(blocks: seq<seq<Item>>, a: nat, i: nat, b: nat, j: nat)
    requires Ascending(Flatten(blocks)) && a <= b < |blocks| && i < |blocks[a]| && j < |blocks[b]|
    requires a < b || i < j
    ensures IsLess(blocks[a][i].key, blocks[b][j].key)
  {
    hide *;
    var p := Place(blocks, a, i);
    var q := Place(blocks, b, j);
    if a < b {
      FrontGrows(blocks, a, b);
    }
    InOrder(Flatten(blocks), p, q);
  }

  lemma InOrder(s: seq<Item>, p: nat, q: nat)
    requires Ascending(s) && p < q < |s|
    ensures IsLess(s[p].key, s[q].key)
  {
  }

  lemma {:induction false} InSomeBlock(blocks: seq<seq<Item>>, x: Item) returns (b: nat, j: nat)
    requires x in Flatten(blocks)
    ensures b < |blocks| && j < |blocks[b]| && blocks[b][j] == x
    decreases |blocks|
  {
    var n := |blocks| - 1;
    if x in blocks[n] {
      b := n;
      j :| 0 <= j < |blocks[n]| && blocks[n][j] == x;
    } else {
      b, j := InSomeBlock(blocks[..n], x);
    }
  }

  // ---------------------------------------------------------------- which block has the answer

  lemma TableFacts(t: Table, all: seq<Item>)
    requires TableOk(t, all)
    ensures Flatten(t.blocks) == all && Ascending(Flatten(t.blocks)) && |t.index| == |t.blocks|
    ensures forall i :: 0 <= i < |t.blocks| ==> t.blocks[i] != []
  {
    hide Flatten;
  }

  /** An index key below `k` puts its whole block below `k`. */
  lemma BelowSeparator(t: Table, all: seq<Item>, k: IKey, i: nat, j: nat)
    requires TableOk(t, all) && i < |t.index| && IsLess(t.index[i].sep, k) && i < |t.blocks| && j < |t.blocks[i]|
    ensures IsLess(t.blocks[i][j].key, k)
  {
    hide *;
    TableFacts(t, all);
    LastToSeparator(t, all, i);
    var n := |t.blocks[i]| - 1;
    var last, sep := t.blocks[i][n].key, t.index[i].sep;
    if last != sep {
      IsLessTransitive(last, sep, k);
    }
    if j < n {
      ItemsAscend(t.blocks, i, j, i, n);
      IsLessTransitive(t.blocks[i][j].key, last, k);
    }
  }

  lemma LastToSeparator(t: Table, all: seq<Item>, i: nat)
    requires TableOk(t, all) && i < |t.index|
    ensures i < |t.blocks| && t.blocks[i] != []
    ensures var last := t.blocks[i][|t.blocks[i]| - 1].key;
            && (t.index[i].sep == last || IsLess(last, t.index[i].sep))
            && (i + 1 < |t.blocks| ==> t.blocks[i + 1] != [] && Separates(t.index[i].sep, last, t.blocks[i + 1][0].key))
  {
    hide Bytewise.Less, Flatten;
    var n := |t.blocks| - 1;
    if i < n {
      assert Separates(t.index[i].sep, Last(t.blocks[i]), t.blocks[i + 1][0].key);
    }
  }

  lemma AllBelow(t: Table, k: IKey, all: seq<Item>)
    requires TableOk(t, all) && forall j :: 0 <= j < |t.index| ==> IsLess(t.index[j].sep, k)
    ensures forall x :: x in all ==> IsLess(x.key, k)
  {
    hide *;
    TableFacts(t, all);
    forall x | x in all
      ensures IsLess(x.key, k)
    {
      var b, j := InSomeBlock(t.blocks, x);
      BelowSeparator(t, all, k, b, j);
    }
  }

  /** The index led to block `i`: all index keys before it are below `k`. */
  ghost predicate Led(t: Table, k: IKey, i: nat) {
    i < |t.index| && (forall m :: 0 <= m < i ==> IsLess(t.index[m].sep, k)) && !IsLess(t.index[i].sep, k)
  }

  lemma BeforeIsBelow(t: Table, k: IKey, all: seq<Item>, i: nat, j: nat, y: Item)
    requires TableOk(t, all) && Led(t, k, i) && i < |t.blocks| && j < |t.blocks[i]|
    requires forall m :: 0 <= m < j ==> IsLess(t.blocks[i][m].key, k)
    requires y in all && IsLess(y.key, t.blocks[i][j].key)
    ensures IsLess(y.key, k)
  {
    hide *;
    TableFacts(t, all);
    var x := t.blocks[i][j];
    var b, m := InSomeBlock(t.blocks, y);
    IsLessTotal(y.key, x.key);
    if b < i {
      LedFacts(t, k, i, b);
      BelowSeparator(t, all, k, b, m);
    } else if b > i {
      ItemsAscend(t.blocks, i, j, b, m);
    } else if m > j {
      ItemsAscend(t.blocks, i, j, i, m);
    }
  }

  lemma LedFacts(t: Table, k: IKey, i: nat, b: nat)
    requires Led(t, k, i) && b < i
    ensures b < |t.index| && IsLess(t.index[b].sep, k)
  {
  }

  /** The first item not below `k` in the block found through the index is the first in the table. */
  lemma BlockAnswers(t: Table, k: IKey, all: seq<Item>, i: nat, j: nat)
    requires TableOk(t, all) && Led(t, k, i) && i < |t.blocks| && j < |t.blocks[i]|
    requires forall m :: 0 <= m < j ==> IsLess(t.blocks[i][m].key, k)
    requires !IsLess(t.blocks[i][j].key, k)
    ensures IsFirst(all, k, t.blocks[i][j])
  {
    hide *;
    TableFacts(t, all);
    var x := t.blocks[i][j];
    var p := Place(t.blocks, i, j);
    forall y | y in all && IsLess(y.key, x.key)
      ensures IsLess(y.key, k)
    {
      BeforeIsBelow(t, k, all, i, j, y);
    }
    FirstFrom(all, k, x, p);
  }

  lemma FirstFrom(all: seq<Item>, k: IKey, x: Item, p: nat)
    requires p < |all| && all[p] == x && !IsLess(x.key, k)
    requires forall y :: y in all && IsLess(y.key, x.key) ==> IsLess(y.key, k)
    ensures IsFirst(all, k, x)
  {
  }

  /** The first item, if it has the user key of `k`, is in the block found through the index. */
  lemma OnlyInBlock(t: Table, k: IKey, all: seq<Item>, i: nat, x: Item) returns (j: nat)
    requires TableOk(t, all) && Led(t, k, i) && IsFirst(all, k, x) && x.key.user == k.user
    ensures i < |t.blocks| && j < |t.blocks[i]| && t.blocks[i][j] == x
    ensures i < |t.offs| && Passes(t, t.offs[i], k.user)
  {
    hide *;
    TableFacts(t, all);
    FirstFacts(all, k, x);
    var b;
    b, j := InSomeBlock(t.blocks, x);
    SameBlock(t, k, all, i, b, j);
    ItemPasses(t, all, i, j);
  }

  lemma FirstFacts(all: seq<Item>, k: IKey, x: Item)
    requires IsFirst(all, k, x)
    ensures x in all && !IsLess(x.key, k)
  {
  }

  lemma ItemPasses(t: Table, all: seq<Item>, i: nat, j: nat)
    requires TableOk(t, all) && i < |t.blocks| && j < |t.blocks[i]|
    ensures i < |t.offs| && Passes(t, t.offs[i], t.blocks[i][j].key.user)
  {
    hide Flatten, Indexes, Ascending, Passes;
    assert t.blocks[i][j] in t.blocks[i];
  }

  lemma SameBlock(t: Table, k: IKey, all: seq<Item>, i: nat, b: nat, j: nat)
    requires TableOk(t, all) && Led(t, k, i) && b < |t.blocks| && j < |t.blocks[b]|
    requires var x := t.blocks[b][j]; IsFirst(all, k, x) && x.key.user == k.user
    ensures b == i
  {
    hide *;
    TableFacts(t, all);
    FirstFacts(all, k, t.blocks[b][j]);
    LedHere(t, k, i);
    if b < i {
      LedFacts(t, k, i, b);
      BelowSeparator(t, all, k, b, j);
    } else if b > i {
      NotBehind(t, k, all, i, b, j);
    }
  }

  lemma LedHere(t: Table, k: IKey, i: nat)
    requires Led(t, k, i)
    ensures i < |t.index| && !IsLess(t.index[i].sep, k)
  {
  }

  /** If the first item not below `k` is further back and has its user key, the index key is below `k`. */
  lemma NotBehind(t: Table, k: IKey, all: seq<Item>, i: nat, b: nat, j: nat)
    requires TableOk(t, all) && i < |t.index| && i < b < |t.blocks| && j < |t.blocks[b]|
    requires var x := t.blocks[b][j]; IsFirst(all, k, x) && x.key.user == k.user
    ensures IsLess(t.index[i].sep, k)
  {
    hide *;
    TableFacts(t, all);
    LastToSeparator(t, all, i);
    var x, n := t.blocks[b][j], |t.blocks[i]| - 1;
    var z := t.blocks[i][n];
    ItemsAscend(t.blocks, i, n, b, j);
    var p := Place(t.blocks, i, n);
    BelowFirst(all, k, x, z, p);
    var sep, f := t.index[i].sep, t.blocks[i + 1][0];
    SeparatorParts(sep, z.key, f.key);
    if sep != z.key {
      if i + 1 < b || 0 < j {
        ItemsAscend(t.blocks, i + 1, 0, b, j);
        IsLessUser(f.key, x.key);
        if f.key.user != x.key.user {
          LessTransitive(sep.user, f.key.user, x.key.user);
        }
      }
      UserLess(sep, k);
    }
  }

  lemma BelowFirst(all: seq<Item>, k: IKey, x: Item, z: Item, p: nat)
    requires IsFirst(all, k, x) && p < |all| && all[p] == z && IsLess(z.key, x.key)
    ensures IsLess(z.key, k)
  {
  }

  lemma SeparatorParts(sep: IKey, start: IKey, limit: IKey)
    requires Separates(sep, start, limit)
    ensures sep == start || Bytewise.Less(sep.user, limit.user)
  {
  }

  lemma IsLessUser(a: IKey, b: IKey)
    requires IsLess(a, b)
    ensures a.user == b.user || Bytewise.Less(a.user, b.user)
  {
  }

  lemma UserLess(a: IKey, b: IKey)
    requires Bytewise.Less(a.user, b.user)
    ensures IsLess(a, b)
  {
  }
}
