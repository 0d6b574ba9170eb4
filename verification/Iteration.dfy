/**
Iterating over the whole store (util/leveldb/db/db_impl.cc, NewInternalIterator and NewIterator;
util/leveldb/db/version_set.cc, Version::AddIterators): the memtables, the level-zero files and one
concatenation per deeper level are merged, and the result shown at one sequence number.
 */
module Iteration {
  import opened Keys
  import opened History
  import opened Versions
  import opened LevelIterators
  import opened Stores
  import Merger
  import DbIter

  // ---------------------------------------------------------------- the children

  function DeepChildren(v: Version, l: nat): (c: seq<seq<Entry>>)
    requires l <= |v|
    decreases |v| - l
  {
    if l == |v| then []
    else (if v[l] == [] then [] else [LevelEntries(v[l])]) + DeepChildren(v, l + 1)
  }

  function Children(st: State): (c: seq<seq<Entry>>)
    requires |st.version| == NUM_LEVELS
  {
    [st.mem] + (if st.imm.Some? then [st.imm.value] else [])
    + FileChildren(st.version[0]) + DeepChildren(st.version, 1)
  }

  ghost function DeepSet(v: Version, l: nat): set<Entry>
    requires l <= |v|
    decreases |v| - l
  {
    if l == |v| then {} else LevelSet(v[l]) + DeepSet(v, l + 1)
  }

  lemma {:induction false} DeepSetMembers(v: Version, l: nat, e: Entry)
    requires l <= |v|
    ensures e in DeepSet(v, l) <==> exists k :: l <= k < |v| && e in LevelSet(v[k])
    decreases |v| - l
  {
    if l < |v| {
      DeepSetMembers(v, l + 1, e);
    }
  }

  lemma LevelAboveIsApart(v: Version, l: nat)
    requires LevelsByAge(v) && l < |v|
    ensures LevelSet(v[l]) !! DeepSet(v, l + 1)
  {
    forall e, k | e in LevelSet(v[l]) && l + 1 <= k < |v|
      ensures e !in LevelSet(v[k])
    {
      assert Newer(LevelSet(v[l]), LevelSet(v[k]));
    }
    forall e | e in LevelSet(v[l])
      ensures e !in DeepSet(v, l + 1)
    {
      DeepSetMembers(v, l + 1, e);
    }
  }

  lemma {:induction false} DeepChildrenApart(v: Version, l: nat)
    requires ValidVersion(v) && LevelsByAge(v) && 1 <= l <= |v|
    ensures Apart(DeepChildren(v, l)) && Union(DeepChildren(v, l)) == DeepSet(v, l)
    decreases |v| - l
  {
    if l < |v| {
      DeepChildrenApart(v, l + 1);
      LevelAboveIsApart(v, l);
      if v[l] != [] {
        LevelEntriesSorted(v[l]);
        LevelChild(v[l]);
        UnionConcat([LevelEntries(v[l])], DeepChildren(v, l + 1));
        ApartConcat([LevelEntries(v[l])], DeepChildren(v, l + 1));
      } else {
        assert LevelSet(v[l]) == {};
      }
    }
  }

  // ---------------------------------------------------------------- the whole store

  lemma VersionChildren(v: Version)
    requires ValidVersion(v) && LevelsByAge(v)
    ensures |v| == 7
    ensures var c := FileChildren(v[0]) + DeepChildren(v, 1);
            Apart(c) && Union(c) == VersionSet(v)
  {
    hide *;
    LevelZeroParts(v);
    FileChildrenApart(v[0]);
    DeepChildrenApart(v, 1);
    LevelAboveIsApart(v, 0);
    UnionConcat(FileChildren(v[0]), DeepChildren(v, 1));
    ApartConcat(FileChildren(v[0]), DeepChildren(v, 1));
    WholeVersion(v);
  }

  lemma LevelZeroParts(v: Version)
    requires ValidVersion(v)
    ensures |v| == 7 && ValidFiles(v[0]) && NumberedByAge(v[0]) && Ordered(v[0])
  {
  }

  lemma WholeVersion(v: Version)
    requires |v| > 0
    ensures LevelSet(v[0]) + DeepSet(v, 1) == VersionSet(v)
  {
    assert DeepSet(v, 0) == LevelSet(v[0]) + DeepSet(v, 1);
    forall e
      ensures e in DeepSet(v, 0) <==> e in VersionSet(v)
    {
      DeepSetMembers(v, 0, e);
      if e in VersionSet(v) {
        var fs :| fs in v && e in LevelSet(fs);
        var k :| 0 <= k < |v| && v[k] == fs;
        assert e in LevelSet(v[k]);
      }
      if e in DeepSet(v, 0) {
        var k :| 0 <= k < |v| && e in LevelSet(v[k]);
        assert v[k] in v;
      }
    }
  }

  /** The merging iterator's children are sorted, share no key, and hold the store. */
  lemma StoreChildren(st: State)
    requires |st.version| == NUM_LEVELS && Inv(st)
    ensures Merger.ValidChildren(Children(st)) && Union(Children(st)) == AllEntries(st)
  {
    hide *;
    InvLayers(st);
    VersionChildren(st.version);
    var below := FileChildren(st.version[0]) + DeepChildren(st.version, 1);
    var imms := if st.imm.Some? then [st.imm.value] else [];
    ImmChildren(st, imms);
    AgedLayers(st);
    NewerIsApart(ImmSet(st), VersionSet(st.version));
    UnionConcat(imms, below);
    ApartConcat(imms, below);
    SingleChild(st.mem);
    NewerIsApart(Elements(st.mem), ImmSet(st) + VersionSet(st.version));
    UnionConcat([st.mem], imms + below);
    ApartConcat([st.mem], imms + below);
    ChildrenAre(st, imms, below);
    ApartIsValid(Children(st));
  }

  lemma ImmChildren(st: State, imms: seq<seq<Entry>>)
    requires st.imm.Some? ==> Sorted(st.imm.value)
    requires imms == if st.imm.Some? then [st.imm.value] else []
    ensures Apart(imms) && Union(imms) == ImmSet(st)
  {
    if st.imm.Some? {
      SingleChild(st.imm.value);
    }
  }

  lemma AgedLayers(st: State)
    requires Aged(st)
    ensures Newer(ImmSet(st), VersionSet(st.version))
    ensures Newer(Elements(st.mem), ImmSet(st) + VersionSet(st.version))
    ensures AllEntries(st) == Elements(st.mem) + (ImmSet(st) + VersionSet(st.version))
  {
  }

  lemma ChildrenAre(st: State, imms: seq<seq<Entry>>, below: seq<seq<Entry>>)
    requires |st.version| == NUM_LEVELS
    requires imms == if st.imm.Some? then [st.imm.value] else []
    requires below == FileChildren(st.version[0]) + DeepChildren(st.version, 1)
    ensures Children(st) == [st.mem] + (imms + below)
  {
  }

  /** An entry for `u` with value `value` is shown when iterating over `es` at `s`. */
  ghost predicate Shows(es: seq<Entry>, s: Sequence, u: UserKey, value: Payload) {
    exists i :: 0 <= i < |es| && DbIter.Yields(es, s, i) && es[i].key.user == u && es[i].value == value
  }

  /** What iteration at a live sequence shows is the history of writes, key by key. */
  lemma IterationShowsHistory(st: State, s: Sequence, u: UserKey, value: Payload)
    requires |st.version| == NUM_LEVELS && Inv(st) && LiveSequence(st, s)
    ensures Sorted(Merger.Merged(Children(st))) && UniqueSequences(st.history)
    ensures Shows(Merger.Merged(Children(st)), s, u, value) <==> Read(st.history, u, s) == Some(value)
  {
    hide *;
    StoreChildren(st);
    InvLayers(st);
    Merger.MergedSorted(Children(st));
    MergedElements(Children(st));
    ShowsIsRead(Merger.Merged(Children(st)), s, u, value);
    LiveReads(st, s, u);
  }

  lemma LiveReads(st: State, s: Sequence, u: UserKey)
    requires Inv(st) && LiveSequence(st, s)
    ensures UniqueSequences(AllEntries(st)) && UniqueSequences(st.history)
    ensures Read(AllEntries(st), u, s) == Read(st.history, u, s)
  {
    LiveIsCovered(st, s);
  }

  lemma ShowsIsRead(es: seq<Entry>, s: Sequence, u: UserKey, value: Payload)
    requires Sorted(es) && UniqueSequences(Elements(es))
    ensures Shows(es, s, u, value) <==> Read(Elements(es), u, s) == Some(value)
  {
    if Shows(es, s, u, value) {
      var i :| 0 <= i < |es| && DbIter.Yields(es, s, i) && es[i].key.user == u && es[i].value == value;
      DbIter.YieldsIsRead(es, s, i);
    }
    if Read(Elements(es), u, s) == Some(value) {
      var i := DbIter.ReadIsYielded(es, s, u);
    }
  }
}
