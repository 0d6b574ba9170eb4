/**
Files and levels as children of a merging iterator (util/leveldb/db/version_set.cc,
LevelFileNumIterator, AddIterators and MakeInputIterator).
 */
module LevelIterators {
  import opened Keys
  import opened History
  import opened Versions
  import Merger

  /** What the concatenating iterator of a sorted level walks over. */
  function LevelEntries(files: Level): (es: seq<Entry>) {
    if files == [] then [] else LevelEntries(files[..|files| - 1]) + files[|files| - 1].entries
  }

  function FileChildren(files: Level): (c: seq<seq<Entry>>) {
    if files == [] then [] else FileChildren(files[..|files| - 1]) + [files[|files| - 1].entries]
  }

  ghost function Union(c: seq<seq<Entry>>): set<Entry> {
    set es, e | es in c && e in es :: e
  }

  /** Sorted children that share no entry. */
  ghost predicate Apart(c: seq<seq<Entry>>) {
    && (forall i :: 0 <= i < |c| ==> Sorted(c[i]))
    && (forall i, j :: 0 <= i < j < |c| ==> Elements(c[i]) !! Elements(c[j]))
  }

  lemma UnionConcat(a: seq<seq<Entry>>, b: seq<seq<Entry>>)
    ensures Union(a + b) == Union(a) + Union(b)
  {
    assert forall es :: es in a + b <==> es in a || es in b;
  }

  lemma ApartConcat(a: seq<seq<Entry>>, b: seq<seq<Entry>>)
    requires Apart(a) && Apart(b) && Union(a) !! Union(b)
    ensures Apart(a + b)
  {
    forall i, j | 0 <= i < |a| && 0 <= j < |b|
      ensures Elements(a[i]) !! Elements(b[j])
    {
      assert a[i] in a && b[j] in b;
      assert Elements(a[i]) <= Union(a) && Elements(b[j]) <= Union(b);
    }
  }

  lemma ApartIsValid(c: seq<seq<Entry>>)
    requires Apart(c) && UniqueSequences(Union(c))
    ensures Merger.ValidChildren(c)
  {
    forall i, j | 0 <= i < j < |c|
      ensures Merger.Distinct(c[i], c[j])
    {
      assert c[i] in c && c[j] in c;
      forall x, y | x in c[i] && y in c[j]
        ensures x.key != y.key
      {
        assert x in Union(c) && y in Union(c);
        assert x in Elements(c[i]) && y in Elements(c[j]);
      }
    }
  }

  lemma SingleChild(es: seq<Entry>)
    requires Sorted(es)
    ensures Apart([es]) && Union([es]) == Elements(es)
  {
    assert es in [es];
  }

  // ---------------------------------------------------------------- levels as children

  lemma {:induction false} LevelEntriesMembers(files: Level, e: Entry)
    ensures e in LevelEntries(files) <==> e in LevelSet(files)
  {
    if files != [] {
      var n := |files| - 1;
      LevelEntriesMembers(files[..n], e);
      assert files == files[..n] + [files[n]];
      assert forall f :: f in files <==> f in files[..n] || f == files[n];
    }
  }

  lemma {:induction false} LevelEntriesSorted(files: Level)
    requires ValidFiles(files) && SortedLevel(files)
    ensures Sorted(LevelEntries(files))
  {
    if files != [] {
      var n := |files| - 1;
      LevelEntriesSorted(files[..n]);
      forall x, y | x in LevelEntries(files[..n]) && y in files[n].entries
        ensures Less(x.key, y.key)
      {
        LevelEntriesMembers(files[..n], x);
        var k := HoldingFile(files[..n], x);
        EntryInRange(files[k], x);
        EntryInRange(files[n], y);
      }
      SortedConcat(LevelEntries(files[..n]), files[n].entries);
    }
  }

  lemma SortedConcat(a: seq<Entry>, b: seq<Entry>)
    requires Sorted(a) && Sorted(b) && forall x, y :: x in a && y in b ==> Less(x.key, y.key)
    ensures Sorted(a + b)
  {
  }

  lemma {:induction false} FileChildrenApart(files: Level)
    requires ValidFiles(files) && NumberedByAge(files) && Ordered(files)
    ensures Apart(FileChildren(files)) && Union(FileChildren(files)) == LevelSet(files)
  {
    if files != [] {
      var n := |files| - 1;
      var init, f := files[..n], files[n];
      assert files == init + [f];
      assert forall g :: g in init ==> g in files;
      FileChildrenApart(init);
      SingleChild(f.entries);
      UnionConcat(FileChildren(init), [f.entries]);
      LevelSetGrows(init, f);
      forall e | e in LevelSet(init)
        ensures e !in Elements(f.entries)
      {
        var k := HoldingFile(init, e);
        assert Before(files[k], files[n]);
        FilesDisjoint(files, init[k], f, e);
      }
      ApartConcat(FileChildren(init), [f.entries]);
    }
  }

  lemma LevelSetGrows(files: Level, f: File)
    ensures LevelSet(files + [f]) == LevelSet(files) + Elements(f.entries)
  {
    assert forall g :: g in files + [f] <==> g in files || g == f;
  }

  lemma FilesDisjoint(files: Level, f: File, g: File, e: Entry)
    requires NumberedByAge(files) && f in files && g in files && Before(f, g) && e in f.entries
    ensures e !in g.entries
  {
    assert f != g;
    assert f.number > g.number ==> Newer(Elements(f.entries), Elements(g.entries));
    assert g.number > f.number ==> Newer(Elements(g.entries), Elements(f.entries));
    assert e in Elements(f.entries);
  }

  lemma LevelChild(files: Level)
    requires Sorted(LevelEntries(files))
    ensures Apart([LevelEntries(files)]) && Union([LevelEntries(files)]) == LevelSet(files)
  {
    SingleChild(LevelEntries(files));
    forall e
      ensures e in Elements(LevelEntries(files)) <==> e in LevelSet(files)
    {
      LevelEntriesMembers(files, e);
    }
  }

  lemma NewerIsApart(A: set<Entry>, B: set<Entry>)
    requires Newer(A, B)
    ensures A !! B
  {
  }

  lemma MergedElements(c: seq<seq<Entry>>)
    ensures Elements(Merger.Merged(c)) == Union(c)
  {
    forall e
      ensures e in Merger.Merged(c) <==> e in Union(c)
    {
      if e in Merger.Merged(c) {
        var i := Merger.MergedOwner(c, e);
        assert c[i] in c;
      }
      if e in Union(c) {
        var es :| es in c && e in es;
        var i :| 0 <= i < |c| && c[i] == es;
        Merger.MergedHolds(c, i, e);
      }
    }
  }
}
