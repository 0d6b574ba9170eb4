/** Building a table (util/leveldb/table/table_builder.cc: Add, Flush, Finish). */
module TableBuilder {
  import opened Common
  import opened Coding
  import opened Bytewise
  import opened BloomPolicy
  import FilterBlock
  import opened Tables

  const TRAILER: nat := 5

  /** Every block but the ones still waiting has its index entry; what follows is in `next`. */
  ghost predicate Indexed(index: seq<IndexEntry>, blocks: seq<seq<Item>>, offs: seq<nat>, next: seq<Item>) {
    && NoEmpty(blocks) && |index| <= |blocks| == |offs|
    && (forall i :: 0 <= i < |index| ==> index[i].offset == offs[i])
    && (forall i :: 0 <= i < |index| ==> Following(blocks, next, i) != [])
    && (forall i :: 0 <= i < |index| ==> Separates(index[i].sep, Last(blocks[i]), Following(blocks, next, i)[0].key))
  }

  /** The items right behind block `i`. */
  ghost function Following(blocks: seq<seq<Item>>, next: seq<Item>, i: nat): seq<Item> {
    if i + 1 < |blocks| then blocks[i + 1] else next
  }

  /** All keys of the blocks, and of the block under construction, are in the filter under their offset. */
  ghost predicate Filtered(added: set<FilterBlock.Added>, blocks: seq<seq<Item>>, offs: seq<nat>, data: seq<Item>, offset: nat) {
    && |blocks| == |offs|
    && (forall i, x :: 0 <= i < |blocks| && x in blocks[i] ==> FilterBlock.Added(offs[i], x.key.user) in added)
    && (forall x :: x in data ==> FilterBlock.Added(offset, x.key.user) in added)
  }

  /** The fields of the builder that are not the filter. */
  datatype State = State(data: seq<Item>, blocks: seq<seq<Item>>, offs: seq<nat>, index: seq<IndexEntry>, lastKey: IKey,
                         pending: bool, pendingOffset: nat, offset: nat)

  ghost predicate Sound(st: State, all: seq<Item>) {
    && Flatten(st.blocks) + st.data == all && Ascending(all) && Offsets(st.offs, st.offset)
    && (all != [] ==> st.lastKey == all[|all| - 1].key)
    && Indexed(st.index, st.blocks, st.offs, st.data)
    && (if st.pending then
          && st.data == [] && st.blocks != [] && |st.index| == |st.blocks| - 1
          && st.pendingOffset == st.offs[|st.offs| - 1]
        else |st.index| == |st.blocks| && (st.data == [] ==> st.blocks == []))
  }

  // ---------------------------------------------------------------- steps

  /** The key of the block that waits for its index entry is the last one so far. */
  lemma LastIsLast(blocks: seq<seq<Item>>, all: seq<Item>)
    requires blocks != [] && NoEmpty(blocks) && Flatten(blocks) == all
    ensures all != [] && all[|all| - 1].key == Last(blocks[|blocks| - 1])
  {
    var n := |blocks| - 1;
    var a, b := Flatten(blocks[..n]), blocks[n];
    assert all == a + b;
    assert all[|all| - 1] == b[|b| - 1];
  }

  /** Adding the first item behind a block whose index entry is made now. */
  lemma IndexEntryKeeps(st: State, all: seq<Item>, x: Item, sep: IKey)
    requires Sound(st, all) && st.pending && Separates(sep, st.lastKey, x.key)
    ensures Indexed(st.index + [IndexEntry(sep, st.pendingOffset)], st.blocks, st.offs, [x])
  {
    hide Flatten, Ascending, Separates;
    assert st.data == [] && Flatten(st.blocks) + [] == Flatten(st.blocks);
    LastIsLast(st.blocks, all);
    var index := st.index + [IndexEntry(sep, st.pendingOffset)];
    forall i | 0 <= i < |index|
      ensures index[i].offset == st.offs[i] && Following(st.blocks, [x], i) != []
      ensures Separates(index[i].sep, Last(st.blocks[i]), Following(st.blocks, [x], i)[0].key)
    {
      if i < |st.index| {
        assert Following(st.blocks, [x], i) == Following(st.blocks, st.data, i);
      }
    }
  }

  lemma SoundParts(st: State, all: seq<Item>)
    requires Sound(st, all)
    ensures all != [] ==> st.lastKey == all[|all| - 1].key
    ensures st.pending ==> st.data == [] && |st.index| == |st.blocks| - 1
  {
    hide Flatten, Ascending, Indexed, Offsets;
  }

  lemma AddKeeps(st: State, all: seq<Item>, x: Item, index: seq<IndexEntry>)
    requires Sound(st, all) && (all != [] ==> IsLess(st.lastKey, x.key))
    requires if st.pending then |index| == |st.blocks| && Indexed(index, st.blocks, st.offs, [x]) else index == st.index
    ensures Sound(st.(data := st.data + [x], index := index, lastKey := x.key, pending := false), all + [x])
  {
    hide Flatten, Ascending, Separates;
    AppendAscends(all, x);
    assert Flatten(st.blocks) + (st.data + [x]) == all + [x];
    if !st.pending {
      MoreFollows(index, st.blocks, st.offs, st.data, x);
    }
  }

  lemma MoreFollows(index: seq<IndexEntry>, blocks: seq<seq<Item>>, offs: seq<nat>, data: seq<Item>, x: Item)
    requires Indexed(index, blocks, offs, data)
    ensures Indexed(index, blocks, offs, data + [x])
  {
    hide Separates;
    forall i | 0 <= i < |index|
      ensures Following(blocks, data + [x], i) != []
      ensures Following(blocks, data + [x], i)[0] == Following(blocks, data, i)[0]
    {
    }
  }

  lemma AppendAscends(all: seq<Item>, x: Item)
    requires Ascending(all) && (all != [] ==> IsLess(all[|all| - 1].key, x.key))
    ensures Ascending(all + [x])
  {
    hide Bytewise.Less;
    var s := all + [x];
    forall i, j | 0 <= i < j < |s|
      ensures IsLess(s[i].key, s[j].key)
    {
      if j == |all| && i < |all| - 1 {
        IsLessTransitive(s[i].key, all[|all| - 1].key, x.key);
      }
    }
  }

  /** Writing the block under construction. */
  ghost function Flushed(st: State, size: nat): State {
    st.(data := [], blocks := st.blocks + [st.data], offs := st.offs + [st.offset], pending := true,
        pendingOffset := st.offset, offset := st.offset + size + TRAILER)
  }

  lemma FlushKeeps(st: State, all: seq<Item>, size: nat)
    requires Sound(st, all) && st.data != []
    ensures Sound(Flushed(st, size), all) && !st.pending
  {
    hide Flatten, Ascending, Separates;
    var blocks := st.blocks + [st.data];
    OneMoreBlock(blocks, |st.blocks|);
    assert blocks[..|st.blocks|] == st.blocks && blocks[..|blocks|] == blocks;
    assert Flatten(blocks) + [] == Flatten(st.blocks) + st.data;
    forall i | 0 <= i < |st.index|
      ensures Following(blocks, [], i) == Following(st.blocks, st.data, i)
    {
    }
  }

  lemma FilterAfterFlush(added: set<FilterBlock.Added>, blocks: seq<seq<Item>>, offs: seq<nat>, data: seq<Item>, offset: nat, end: nat)
    requires Filtered(added, blocks, offs, data, offset)
    ensures Filtered(added, blocks + [data], offs + [offset], [], end)
  {
  }

  lemma FilterAfterAdd(added: set<FilterBlock.Added>, blocks: seq<seq<Item>>, offs: seq<nat>, data: seq<Item>, offset: nat, x: Item)
    requires Filtered(added, blocks, offs, data, offset)
    ensures Filtered(added + {FilterBlock.Added(offset, x.key.user)}, blocks, offs, data + [x], offset)
  {
  }

  class Builder {
    var data: seq<Item>
    var blocks: seq<seq<Item>>
    var offs: seq<nat>
    var index: seq<IndexEntry>
    var lastKey: IKey
    var pending: bool
    var pendingOffset: nat
    var offset: nat
    const filter: FilterBlock.Builder
    ghost var all: seq<Item>

    ghost function View(): State
      reads this
    {
      State(data, blocks, offs, index, lastKey, pending, pendingOffset, offset)
    }

    ghost predicate Valid()
      reads this, filter
    {
      && Sound(View(), all) && filter.Valid() && filter.blockOffset == offset
      && Filtered(filter.added, blocks, offs, data, offset)
    }

    constructor (policy: Policy)
      requires policy.Valid()
      ensures Valid() && all == [] && fresh(filter) && filter.policy == policy
    {
      var f := new FilterBlock.Builder(policy);
      filter := f;
      data, blocks, offs, index, lastKey := [], [], [], [], IKey([], 0);
      pending, pendingOffset, offset, all := false, 0, 0, [];
    }

    /** Flush: `size` is the size of the block's contents once written. */
    method Flush(size: nat)
      requires Valid()
      modifies this, filter
      ensures Valid() && all == old(all) && data == [] && index == old(index) && filter.added == old(filter.added)
      ensures if old(data) == [] then blocks == old(blocks) && offs == old(offs) && offset == old(offset) && pending == old(pending)
              else && blocks == old(blocks) + [old(data)] && offs == old(offs) + [old(offset)]
                   && offset == old(offset) + size + TRAILER && pending
    {
      hide Sound, Filtered;
      if data == [] {
        return;
      }
      FlushKeeps(View(), all, size);
      FilterAfterFlush(filter.added, blocks, offs, data, offset, offset + size + TRAILER);
      blocks, offs := blocks + [data], offs + [offset];
      data, pending, pendingOffset := [], true, offset;
      offset := offset + size + TRAILER;
      filter.StartBlock(offset);
    }

    /**
    Add: `full` says whether the block has reached its size.  The index entry of the block before is
    made now, with a key between its last key and this one.
     */
    method Add(key: IKey, value: Bytes, full: bool, size: nat)
      requires Valid() && (all != [] ==> IsLess(all[|all| - 1].key, key))
      modifies this, filter
      ensures Valid() && all == old(all) + [Item(key, value)]
      ensures filter.added == old(filter.added) + {FilterBlock.Added(old(offset), key.user)}
      ensures if old(pending) then |index| == |old(index)| + 1 && index[..|old(index)|] == old(index) else index == old(index)
      ensures if full then && blocks == old(blocks) + [old(data) + [Item(key, value)]] && offs == old(offs) + [old(offset)]
                           && data == [] && offset == old(offset) + size + TRAILER && pending
              else && blocks == old(blocks) && offs == old(offs) && data == old(data) + [Item(key, value)]
                   && offset == old(offset) && !pending
    {
      hide Sound, Filtered, Indexed, Ascending, Flatten, Offsets, IsLess, Separates;
      var x := Item(key, value);
      ghost var st := View();
      SoundParts(st, all);
      var entries := index;
      if pending {
        NotEmpty(st, all);
        var sep := ShortestSeparator(lastKey, key);
        IndexEntryKeeps(st, all, x, sep);
        entries := index + [IndexEntry(sep, pendingOffset)];
      }
      AddKeeps(st, all, x, entries);
      FilterAfterAdd(filter.added, blocks, offs, data, offset, x);
      filter.AddKey(key.user);
      index, pending, lastKey, data := entries, false, key, data + [x];
      all := all + [x];
      if full {
        Flush(size);
      }
    }

    /** Finish: the last block, its index entry with a short successor of the last key, and the filter block. */
    method Finish(size: nat) returns (t: Table)
      requires Valid()
      modifies this, filter
      ensures all == old(all) && (|filter.result| < TWO_32 ==> TableOk(t, all))
    {
      hide Sound, Filtered, TableOk, FilterBlock.Readable, Bytewise.Less;
      Flush(size);
      ghost var st, added := View(), filter.added;
      var contents := filter.Finish();
      var entries := index;
      if pending {
        var sep := ShortSuccessor(lastKey);
        entries := index + [IndexEntry(sep, pendingOffset)];
      }
      t := Table(blocks, offs, entries, contents, filter.policy);
      if |filter.result| < TWO_32 {
        FinishedTable(st, all, t, added);
      }
    }
  }

  lemma FinishedTable(st: State, all: seq<Item>, t: Table, added: set<FilterBlock.Added>)
    requires Sound(st, all) && st.data == [] && t.blocks == st.blocks && t.offs == st.offs && t.policy.Valid()
    requires if st.pending then exists sep :: (sep == st.lastKey || IsLess(st.lastKey, sep))
                                             && t.index == st.index + [IndexEntry(sep, st.pendingOffset)]
             else t.index == st.index
    requires Filtered(added, st.blocks, st.offs, [], st.offset) && FilterBlock.Readable(t.filter, t.policy, added)
    ensures TableOk(t, all)
  {
    hide Flatten, Ascending, Separates, Bytewise.Less, FilterBlock.ReaderMatches, FilterBlock.Open;
    assert Flatten(st.blocks) + [] == Flatten(st.blocks);
    if st.pending {
      LastIsLast(st.blocks, all);
      FinishedIndex(st, t.index);
    }
    assert Offsets(t.offs, st.offset);
    forall i, x | 0 <= i < |t.blocks| && x in t.blocks[i]
      ensures Passes(t, t.offs[i], x.key.user)
    {
      assert FilterBlock.Added(t.offs[i], x.key.user) in added;
    }
  }

  lemma FinishedIndex(st: State, index: seq<IndexEntry>)
    requires Indexed(st.index, st.blocks, st.offs, []) && |index| == |st.blocks| == |st.index| + 1
    requires forall i :: 0 <= i < |st.index| ==> index[i] == st.index[i]
    ensures Indexes(index, st.blocks, st.offs, |st.blocks| - 1)
  {
    hide Separates;
    forall i, j | 0 <= i < |st.blocks| - 1 && i + 1 == j
      ensures Separates(index[i].sep, Last(st.blocks[i]), st.blocks[j][0].key)
    {
      assert Following(st.blocks, [], i) == st.blocks[j];
    }
  }

  lemma NotEmpty(st: State, all: seq<Item>)
    requires Sound(st, all) && st.pending
    ensures all != []
  {
    hide Flatten, Ascending, Separates;
    assert Flatten(st.blocks) + [] == Flatten(st.blocks);
    LastIsLast(st.blocks, all);
  }
}
