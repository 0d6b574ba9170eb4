/**
What a compaction reads: the merging iterator over its input files, run from its first entry to its
last (util/leveldb/db/version_set.cc, VersionSet::MakeInputIterator).
 */
module CompactionInputs {
  import opened Keys
  import opened History
  import opened Versions
  import opened Inputs
  import opened Compactions
  import opened Cuts
  import opened LevelIterators
  import Merger

  /** One child per level-zero file, and one for all files of any other level. */
  function LevelChildren(level: nat, files: seq<File>): (c: seq<seq<Entry>>) {
    if files == [] then [] else if level == 0 then FileChildren(files) else [LevelEntries(files)]
  }

  function InputChildren(level: nat, inputs0: seq<File>, inputs1: seq<File>): (c: seq<seq<Entry>>) {
    LevelChildren(level, inputs0) + LevelChildren(level + 1, inputs1)
  }

  lemma RunIsSorted(files: Level, lo: nat, hi: nat)
    requires ValidFiles(files) && SortedLevel(files) && lo <= hi <= |files|
    ensures ValidFiles(files[lo..hi]) && SortedLevel(files[lo..hi])
  {
  }

  lemma SortedLevelChildren(level: nat, files: Level)
    requires level > 0 && ValidFiles(files) && SortedLevel(files)
    ensures Apart(LevelChildren(level, files)) && Union(LevelChildren(level, files)) == LevelSet(files)
  {
    hide Apart, Union, LevelEntries, Sorted, LevelSet;
    if files == [] {
      NoChildren();
    } else {
      LevelEntriesSorted(files);
      LevelChild(files);
    }
  }

  lemma NoChildren()
    ensures Apart([]) && Union([]) == {} && LevelSet([]) == {}
  {
  }

  /** Overlap queries keep the order of the files. */
  lemma {:induction false} OverlappingIsOrdered(files: seq<File>, r: Range)
    requires Ordered(files)
    ensures Ordered(Overlapping(files, r))
  {
    if files != [] {
      var n := |files| - 1;
      var front := files[..n];
      OverlappingIsOrdered(front, r);
      forall f | f in Overlapping(front, r)
        ensures Before(f, files[n])
      {
        var i :| 0 <= i < |front| && front[i] == f;
        assert Before(files[i], files[n]);
      }
    }
  }

  lemma LevelZeroChildren(files: Level, inputs: seq<File>, reach: Range)
    requires ValidFiles(files) && NumberedByAge(files) && Ordered(files) && inputs == Overlapping(files, reach)
    ensures Apart(LevelChildren(0, inputs)) && Union(LevelChildren(0, inputs)) == LevelSet(inputs)
  {
    OverlappingIsOrdered(files, reach);
    ValidByMembers(inputs);
    assert NumberedByAge(inputs);
    hide Apart, Union, LevelSet, NumberedByAge, Ordered, ValidFiles;
    if inputs == [] {
      NoChildren();
    } else {
      FileChildrenApart(inputs);
    }
  }

  lemma UpperChildren(v: Version, level: nat, inputs0: seq<File>)
    requires ValidVersion(v) && level + 1 < NUM_LEVELS && GoodPick(v, level, inputs0)
    ensures Apart(LevelChildren(level, inputs0)) && Union(LevelChildren(level, inputs0)) == LevelSet(inputs0)
  {
    hide Apart, Union, LevelSet, LevelChildren;
    if level == 0 {
      var reach :| Closed(v[0], reach) && inputs0 == Overlapping(v[0], reach);
      LevelZeroChildren(v[0], inputs0, reach);
    } else {
      var lo, hi :| IsRun(v[level], inputs0, lo, hi);
      RunIsSorted(v[level], lo, hi);
      SortedLevelChildren(level, inputs0);
    }
  }

  lemma LowerChildren(v: Version, level: nat, inputs0: seq<File>, inputs1: seq<File>)
    requires Chosen(v, level, inputs0, inputs1)
    ensures Apart(LevelChildren(level + 1, inputs1)) && Union(LevelChildren(level + 1, inputs1)) == LevelSet(inputs1)
  {
    hide *;
    var r := NextLevelRange(v, level, inputs0, inputs1);
    var lo, hi := OverlappingIsRun(v[level + 1], r);
    RunIsSorted(v[level + 1], lo, hi);
    SortedLevelChildren(level + 1, inputs1);
  }

  /** The children are sorted, share no key, and hold exactly the entries of the inputs. */
  lemma InputsAreChildren(v: Version, level: nat, inputs0: seq<File>, inputs1: seq<File>)
    requires Chosen(v, level, inputs0, inputs1) && UniqueSequences(VersionSet(v))
    ensures Merger.ValidChildren(InputChildren(level, inputs0, inputs1))
    ensures Union(InputChildren(level, inputs0, inputs1)) == LevelSet(inputs0) + LevelSet(inputs1)
  {
    var a, b := LevelChildren(level, inputs0), LevelChildren(level + 1, inputs1);
    hide *;
    ChosenParts(v, level, inputs0, inputs1);
    UpperChildren(v, level, inputs0);
    LowerChildren(v, level, inputs0, inputs1);
    InputInVersion(v, level, inputs0, inputs1);
    LevelsAreApart(v, level, inputs0, inputs1);
    UnionConcat(a, b);
    ApartConcat(a, b);
    FewerAreUnique(VersionSet(v), LevelSet(inputs0) + LevelSet(inputs1));
    ChildrenAre(level, inputs0, inputs1);
    ApartIsValid(a + b);
  }

  lemma ChildrenAre(level: nat, inputs0: seq<File>, inputs1: seq<File>)
    ensures InputChildren(level, inputs0, inputs1) == LevelChildren(level, inputs0) + LevelChildren(level + 1, inputs1)
  {
  }

  lemma FewerAreUnique(S: set<Entry>, T: set<Entry>)
    requires UniqueSequences(S) && T <= S
    ensures UniqueSequences(T)
  {
  }

  lemma LevelsAreApart(v: Version, level: nat, inputs0: seq<File>, inputs1: seq<File>)
    requires LevelsByAge(v) && level + 1 < |v|
    requires LevelSet(inputs0) <= LevelSet(v[level]) && LevelSet(inputs1) <= LevelSet(v[level + 1])
    ensures LevelSet(inputs0) !! LevelSet(inputs1)
  {
    assert Newer(LevelSet(v[level]), LevelSet(v[level + 1]));
  }

  /** Reads a merging iterator from its first entry to its last. */
  method Drain(children: seq<seq<Entry>>) returns (input: seq<Entry>)
    requires Merger.ValidChildren(children)
    ensures input == Merger.Merged(children)
  {
    hide *;
    var it := new Merger.MergingIterator(children);
    it.SeekToFirst();
    input := [];
    while it.current.Some?
      invariant it.Valid() && it.all == Merger.Merged(children) && it.cur <= |it.all|
      invariant input == it.all[..it.cur] && (it.current.None? <==> it.cur == |it.all|)
      decreases |it.all| - it.cur
    {
      var e := it.Current();
      input := input + [e];
      it.Next();
    }
    assert it.all[..it.cur] == it.all;
  }

  /** What the main loop of a compaction reads: the entries of its inputs, in order. */
  method MergeInputs(v: Version, level: nat, inputs0: seq<File>, inputs1: seq<File>) returns (input: seq<Entry>)
    requires Chosen(v, level, inputs0, inputs1) && UniqueSequences(VersionSet(v))
    ensures Sorted(input) && Elements(input) == LevelSet(inputs0) + LevelSet(inputs1)
  {
    hide *;
    InputsAreChildren(v, level, inputs0, inputs1);
    var children := InputChildren(level, inputs0, inputs1);
    input := Drain(children);
    Merger.MergedSorted(children);
    MergedElements(children);
  }
}
