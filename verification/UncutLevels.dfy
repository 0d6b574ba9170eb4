/**
Stores in which no user key is cut in two by a level below zero.  Flushes and moves keep it so, and
so does every compaction whose outputs are not cut between two versions of a key; without live
snapshots there is nothing to cut, because only one version of each key is kept.
 */
module UncutLevels {
  import opened Keys
  import opened Versions
  import opened Inputs
  import opened Compactions
  import opened Cuts
  import opened Flushes

  /** No user key is in two files of a level, as far as the ends of its files tell. */
  predicate Uncut(files: Level) {
    forall hi :: 0 < hi <= |files| ==> !Straddles(files, hi)
  }

  predicate AllUncut(v: Version) {
    forall l :: 0 < l < |v| ==> Uncut(v[l])
  }

  /** The user keys of one file end before those of the other begin. */
  predicate Apart(f: File, g: File) {
    f.largest.user < g.smallest.user || g.largest.user < f.smallest.user
  }

  lemma UncutIsOrdered(files: Level, i: nat, j: nat)
    requires ValidFiles(files) && SortedLevel(files) && Uncut(files) && i < j < |files|
    ensures files[i].largest.user < files[j].smallest.user
  {
    LevelUsersIncrease(files, i + 1, j);
    assert !Straddles(files, i + 1);
    assert Less(files[i].largest, files[i + 1].smallest);
  }

  /** In a sorted level, looking at neighbours is looking at all files. */
  lemma UncutIsApart(files: Level)
    requires ValidFiles(files) && SortedLevel(files)
    ensures Uncut(files) <==> forall f, g :: f in files && g in files && f != g ==> Apart(f, g)
  {
    if Uncut(files) {
      forall f, g | f in files && g in files && f != g
        ensures Apart(f, g)
      {
        var i :| 0 <= i < |files| && files[i] == f;
        var j :| 0 <= j < |files| && files[j] == g;
        if i < j {
          UncutIsOrdered(files, i, j);
        } else {
          UncutIsOrdered(files, j, i);
        }
      }
    } else {
      var hi :| 0 < hi <= |files| && Straddles(files, hi);
      var f, g := files[hi - 1], files[hi];
      assert Less(f.largest, g.smallest);
      EntryInRange(f, f.entries[0]);
      EntryInRange(g, g.entries[0]);
      assert f in files && g in files && !Apart(f, g);
    }
  }

  /** Without cut keys no run of files ends in a cut. */
  lemma UncutHasNoCut(v: Version, level: nat, inputs0: seq<File>, inputs1: seq<File>)
    requires AllUncut(v) && level + 1 < |v|
    ensures level > 0 ==> !EndsInCut(v[level], inputs0)
    ensures !EndsInCut(v[level + 1], inputs1)
  {
  }

  // ---------------------------------------------------------------- compactions and moves

  lemma StayingIsApartFromKey(v: Version, level: nat, inputs0: seq<File>, inputs1: seq<File>, g: File, e: Entry)
    requires ValidVersion(v) && level + 1 < NUM_LEVELS && ValidInputs(v, level, inputs0, inputs1)
    requires AllUncut(v) && g in v[level + 1] && g !in inputs1
    requires e in LevelSet(inputs0) || e in LevelSet(inputs1)
    ensures e.key.user < g.smallest.user || g.largest.user < e.key.user
  {
    assert ValidFiles(v[level + 1]) && SortedLevel(v[level + 1]) && Uncut(v[level + 1]);
    if e in LevelSet(inputs0) {
      var i := HoldingFile(inputs0, e);
      assert inputs0[i] in inputs0;
      MembersAreValid(v[level], inputs0[i]);
      EntryInRange(inputs0[i], e);
      hide *;
      NextLevelIsClear(v, level, inputs0, inputs1, inputs0[i], g);
    } else {
      var i := HoldingFile(inputs1, e);
      var h := inputs1[i];
      assert h in inputs1 && h in v[level + 1] && h != g;
      MembersAreValid(v[level + 1], h);
      EntryInRange(h, e);
      UncutIsApart(v[level + 1]);
      assert Apart(h, g);
    }
  }

  lemma OutputIsApart(v: Version, level: nat, inputs0: seq<File>, inputs1: seq<File>, g: File, o: File)
    requires ValidVersion(v) && level + 1 < NUM_LEVELS && ValidInputs(v, level, inputs0, inputs1)
    requires AllUncut(v) && g in v[level + 1] && g !in inputs1
    requires ValidFile(o) && Elements(o.entries) <= LevelSet(inputs0) + LevelSet(inputs1)
    ensures Apart(g, o)
  {
    var a, b := o.entries[0], o.entries[|o.entries| - 1];
    assert a in Elements(o.entries) && b in Elements(o.entries);
    assert o.smallest == a.key && o.largest == b.key;
    MembersAreValid(v[level + 1], g);
    EntryInRange(g, g.entries[0]);
    hide *;
    InputBesideStaying(v, level, inputs0, inputs1, g, a);
    InputBesideStaying(v, level, inputs0, inputs1, g, b);
    StayingIsApartFromKey(v, level, inputs0, inputs1, g, a);
    StayingIsApartFromKey(v, level, inputs0, inputs1, g, b);
    LessUsers(a.key, g.smallest);
    LessUsers(b.key, g.smallest);
    LessUsers(g.largest, a.key);
    LessUsers(g.largest, b.key);
  }

  lemma LessUsers(a: InternalKey, b: InternalKey)
    ensures Less(a, b) ==> a.user <= b.user
  {
  }

  lemma FilesApartAfter(v: Version, level: nat, inputs0: seq<File>, inputs1: seq<File>, out: seq<File>, f: File, g: File)
    requires ValidVersion(v) && level + 1 < NUM_LEVELS && ValidInputs(v, level, inputs0, inputs1) && AllUncut(v)
    requires ValidFiles(out) && SortedLevel(out) && Uncut(out)
    requires LevelSet(out) <= LevelSet(inputs0) + LevelSet(inputs1)
    requires (f in v[level + 1] && f !in inputs1) || f in out
    requires (g in v[level + 1] && g !in inputs1) || g in out
    requires f != g
    ensures Apart(f, g)
  {
    if f in out && g in out {
      UncutIsApart(out);
    } else if f in out && !(f in v[level + 1] && f !in inputs1) {
      OutputEntries(out, f);
      OutputIsApart(v, level, inputs0, inputs1, g, f);
    } else if g in out && !(g in v[level + 1] && g !in inputs1) {
      OutputEntries(out, g);
      OutputIsApart(v, level, inputs0, inputs1, f, g);
    } else {
      assert Uncut(v[level + 1]);
      UncutIsApart(v[level + 1]);
    }
  }

  lemma OutputEntries(out: seq<File>, f: File)
    requires ValidFiles(out) && f in out
    ensures ValidFile(f) && Elements(f.entries) <= LevelSet(out)
  {
  }

  /** Installing outputs that are not cut keeps every level uncut. */
  lemma InstalledIsUncut(v: Version, v': Version, level: nat, inputs0: seq<File>, inputs1: seq<File>, out: seq<File>)
    requires ValidVersion(v) && ValidVersion(v') && Installed(v, v', level, inputs0, inputs1, out)
    requires ValidInputs(v, level, inputs0, inputs1) && AllUncut(v)
    requires ValidFiles(out) && SortedLevel(out) && Uncut(out)
    requires LevelSet(out) <= LevelSet(inputs0) + LevelSet(inputs1)
    ensures AllUncut(v')
  {
    forall l | 0 < l < NUM_LEVELS
      ensures Uncut(v'[l])
    {
      if l == level {
        StayingIsUncut(v[l], v'[l], inputs0);
      } else if l == level + 1 {
        NextLevelIsUncut(v, v'[l], level, inputs0, inputs1, out);
      } else {
        assert v'[l] == v[l];
      }
    }
  }

  lemma StayingIsUncut(files: Level, files': Level, inputs: seq<File>)
    requires ValidFiles(files) && SortedLevel(files) && Uncut(files) && ValidFiles(files') && SortedLevel(files')
    requires forall f :: f in files' <==> f in files && f !in inputs
    ensures Uncut(files')
  {
    UncutIsApart(files);
    UncutIsApart(files');
  }

  lemma NextLevelIsUncut(v: Version, files': Level, level: nat, inputs0: seq<File>, inputs1: seq<File>, out: seq<File>)
    requires ValidVersion(v) && level + 1 < NUM_LEVELS && ValidInputs(v, level, inputs0, inputs1) && AllUncut(v)
    requires ValidFiles(out) && SortedLevel(out) && Uncut(out) && ValidFiles(files') && SortedLevel(files')
    requires LevelSet(out) <= LevelSet(inputs0) + LevelSet(inputs1)
    requires forall f :: f in files' <==> (f in v[level + 1] && f !in inputs1) || f in out
    ensures Uncut(files')
  {
    UncutIsApart(files');
    forall f, g | f in files' && g in files' && f != g
      ensures Apart(f, g)
    {
      hide *;
      FilesApartAfter(v, level, inputs0, inputs1, out, f, g);
    }
  }

  // ---------------------------------------------------------------- flushes

  /** A flush goes to a level whose files it does not meet. */
  lemma FlushedIsUncut(v: Version, v': Version, level: nat, f: File, next: nat)
    requires Flushable(v, level, f, next) && Flushed(v, v', level, f) && ValidVersion(v') && AllUncut(v)
    ensures AllUncut(v')
  {
    forall l | 0 < l < NUM_LEVELS
      ensures Uncut(v'[l])
    {
      if l == level {
        FlushedLevelIsUncut(v[l], v'[l], f);
      } else {
        assert v'[l] == v[l];
      }
    }
  }

  lemma FlushedLevelIsUncut(files: Level, files': Level, f: File)
    requires ValidFiles(files) && SortedLevel(files) && Uncut(files) && ValidFiles(files') && SortedLevel(files')
    requires ValidFile(f) && !SomeOverlap(files, Span(f.smallest.user, f.largest.user))
    requires forall g :: g in files' <==> g in files || g == f
    ensures Uncut(files')
  {
    UncutIsApart(files);
    UncutIsApart(files');
    forall g | g in files
      ensures Apart(f, g)
    {
      assert !Overlaps(g, Span(f.smallest.user, f.largest.user));
    }
  }

  // ---------------------------------------------------------------- one version of each key

  /** If every input is old enough, rule A leaves one version of each user key. */
  lemma OneVersionIsKept(input: seq<Entry>, v: Version, level: nat, m: Sequence)
    requires |v| == NUM_LEVELS && Sorted(input) && forall e :: e in Elements(input) ==> e.key.sn <= m
    ensures var K := Elements(input) - DroppedSet(input, v, level, m);
            forall a, b :: a in K && b in K && a.key.user == b.key.user ==> a == b
  {
    var D := DroppedSet(input, v, level, m);
    forall a, b | a in Elements(input) - D && b in Elements(input) - D && a.key.user == b.key.user
      ensures a == b
    {
      var i :| 0 <= i < |input| && input[i] == a;
      var j :| 0 <= j < |input| && input[j] == b;
      if i < j {
        LaterIsDropped(input, v, level, m, i, j);
      } else if j < i {
        LaterIsDropped(input, v, level, m, j, i);
      }
    }
  }

  lemma LaterIsDropped(input: seq<Entry>, v: Version, level: nat, m: Sequence, i: nat, j: nat)
    requires |v| == NUM_LEVELS && Sorted(input) && forall e :: e in Elements(input) ==> e.key.sn <= m
    requires i < j < |input| && input[i].key.user == input[j].key.user
    ensures input[j] in DroppedSet(input, v, level, m)
  {
    UsersOrdered(input, i, j - 1);
    UsersOrdered(input, j - 1, j);
    assert input[j - 1] in Elements(input);
    assert HiddenByNewer(input, m, j);
    assert Dropped(input, v, level, m, j);
  }

  lemma OneVersionIsUncut(out: seq<File>)
    requires ValidFiles(out) && SortedLevel(out)
    requires forall a, b :: a in LevelSet(out) && b in LevelSet(out) && a.key.user == b.key.user ==> a == b
    ensures Uncut(out)
  {
    forall hi | 0 < hi < |out|
      ensures !Straddles(out, hi)
    {
      var f, g := out[hi - 1], out[hi];
      var a, b := f.entries[|f.entries| - 1], g.entries[0];
      assert f in out && g in out && a in f.entries && b in g.entries;
      assert a in LevelSet(out) && b in LevelSet(out);
      assert Less(f.largest, g.smallest);
    }
  }
}
