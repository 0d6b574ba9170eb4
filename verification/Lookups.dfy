/**
What lookups find after a compaction or a move that leaves the order of levels by age behind
(util/leveldb/db/db_impl.cc, DBImpl::Get after InstallCompactionResults).
 */
module Lookups {
  import opened Keys
  import opened History
  import opened Versions
  import opened Layers
  import opened Compactions
  import opened Cuts
  import opened Installs
  import opened Moves
  import opened Stores

  /** The layers of a store in the order in which they are searched. */
  ghost function StoreLayers(st: State): seq<set<Entry>> {
    [Elements(st.mem), ImmSet(st)] + LevelSets(st.version)
  }

  /** What a search of the store relies on; the order of the layers by age is not part of it. */
  ghost predicate Searchable(st: State) {
    && Sorted(st.mem) && (st.imm.Some? ==> Sorted(st.imm.value)) && ValidVersion(st.version)
    && UniqueSequences(AllEntries(st))
  }

  ghost predicate StoreHit(st: State, u: UserKey, s: Sequence, r: Option<Entry>) {
    LayerHit(StoreLayers(st), u, s, r)
  }

  /** Every lookup at `m` or later finds the newest stored entry. */
  ghost predicate LooksUpNewest(st: State, m: Sequence) {
    forall u, s: Sequence, r :: s >= m && StoreHit(st, u, s, r) ==> FoundIn(AllEntries(st), u, s, r)
  }

  /** Every lookup at `m` or later answers as the history. */
  ghost predicate AnswersAsHistory(st: State, m: Sequence)
    requires UniqueSequences(st.history)
  {
    forall u, s: Sequence, r :: s >= m && StoreHit(st, u, s, r) ==> Answer(r) == Read(st.history, u, s)
  }

  /**
  From `st` to `st'`, lookups at the oldest live snapshot or later still find the newest entry exactly
  if `found`, and then they answer as the history exactly if `same`.
   */
  ghost predicate LookupsAre(st: State, st': State, found: bool, same: bool) {
    && Searchable(st') && UniqueSequences(st'.history) && (LooksUpNewest(st', Oldest(st)) <==> found)
    && (found ==> (AnswersAsHistory(st', Oldest(st)) <==> same))
  }

  lemma PackLookups(st: State, st': State, found: bool, same: bool)
    requires Searchable(st') && UniqueSequences(st'.history) && (LooksUpNewest(st', Oldest(st)) <==> found)
    requires found ==> (AnswersAsHistory(st', Oldest(st)) <==> same)
    ensures LookupsAre(st, st', found, same)
  {
  }

  lemma LayerAt(st: State, k: nat)
    requires |st.version| == NUM_LEVELS && k < NUM_LEVELS + 2
    ensures |StoreLayers(st)| == NUM_LEVELS + 2
    ensures StoreLayers(st)[k] == if k == 0 then Elements(st.mem) else if k == 1 then ImmSet(st)
                                  else LevelSet(st.version[k - 2])
  {
  }

  lemma UnionOfLayers(st: State)
    ensures Union(StoreLayers(st)) == AllEntries(st)
  {
    var layers := StoreLayers(st);
    assert layers[0] == Elements(st.mem) && layers[1] == ImmSet(st);
    hide Elements, LevelSet, ImmSet;
    forall e | e in VersionSet(st.version)
      ensures e in Union(layers)
    {
      var fs :| fs in st.version && e in LevelSet(fs);
      var l :| 0 <= l < |st.version| && st.version[l] == fs;
      assert e in layers[l + 2];
    }
    forall e | e in Union(layers)
      ensures e in AllEntries(st)
    {
      var k :| 0 <= k < |layers| && e in layers[k];
      if k >= 2 {
        assert st.version[k - 2] in st.version;
      }
    }
  }

  lemma SameNotions(st: State, m: Sequence)
    ensures LooksUpNewest(st, m) <==> FindsNewest(StoreLayers(st), m)
  {
    UnionOfLayers(st);
    hide StoreLayers, LayerHit, FoundIn, Union, AllEntries;
  }

  lemma InvIsByAge(st: State)
    requires Inv(st)
    ensures ByAge(StoreLayers(st)) && UniqueSequences(Union(StoreLayers(st)))
  {
    UnionOfLayers(st);
    var layers := StoreLayers(st);
    assert |st.version| == NUM_LEVELS;
    hide Elements, LevelSet, Refines, ValidVersion, NumbersOk, Union;
    forall i, j | 0 <= i < j < |layers|
      ensures Newer(layers[i], layers[j])
    {
      LayerAt(st, i);
      LayerAt(st, j);
      if i < 2 <= j {
        assert st.version[j - 2] in st.version;
        assert LevelSet(st.version[j - 2]) <= VersionSet(st.version);
      } else if i >= 2 {
        assert Newer(LevelSet(st.version[i - 2]), LevelSet(st.version[j - 2]));
      }
    }
  }

  // ---------------------------------------------------------------- installing as a move between layers

  lemma InstalledLevels(v: Version, v': Version, level: nat, inputs0: seq<File>, inputs1: seq<File>, out: seq<File>)
    requires Installed(v, v', level, inputs0, inputs1, out)
    ensures |v| == |v'| == NUM_LEVELS && level + 1 < NUM_LEVELS
    ensures LevelSet(v'[level]) == Contents(Others(v[level], inputs0))
    ensures LevelSet(v'[level + 1]) == Contents(Others(v[level + 1], inputs1)) + LevelSet(out)
  {
  }

  lemma StayingIs(files: seq<File>, inputs: seq<File>, e: Entry) returns (f: File)
    requires e in Contents(Others(files, inputs))
    ensures f in files && f !in inputs && e in f.entries && e in LevelSet(files)
  {
    f :| f in Others(files, inputs) && e in f.entries;
  }

  /** An entry of the level that comes down is one of the upper inputs. */
  lemma ComesFromAbove(v: Version, level: nat, inputs0: seq<File>, inputs1: seq<File>, out: seq<File>, x: Entry)
    requires Chosen(v, level, inputs0, inputs1) && |v| == NUM_LEVELS && level + 1 < NUM_LEVELS
    requires LevelSet(out) <= LevelSet(inputs0) + LevelSet(inputs1)
    requires x in Contents(Others(v[level + 1], inputs1)) + LevelSet(out) && x in LevelSet(v[level])
    ensures x in LevelSet(out) && x in LevelSet(inputs0)
  {
    var next := level + 1;
    hide *;
    ChosenParts(v, level, inputs0, inputs1);
    if x in LevelSet(v[next]) {
      AgeOfLevels(v, level, next, x, x);
    }
    if x in LevelSet(inputs1) {
      SubsetOfLevel(v[next], inputs1, x);
    }
    if x in Contents(Others(v[next], inputs1)) {
      var f := StayingIs(v[next], inputs1, x);
    }
  }

  lemma StayingIsNoInput(v: Version, level: nat, inputs0: seq<File>, inputs1: seq<File>, e: Entry)
    requires Chosen(v, level, inputs0, inputs1) && |v| == NUM_LEVELS && level + 1 < NUM_LEVELS
    requires e in Contents(Others(v[level], inputs0))
    ensures e in LevelSet(v[level]) && e !in LevelSet(inputs0) && e !in LevelSet(inputs1)
    ensures e !in LevelSet(v[level + 1])
  {
    var next := level + 1;
    hide *;
    ChosenParts(v, level, inputs0, inputs1);
    var f := StayingIs(v[level], inputs0, e);
    NotInInputs(v, level, inputs0, level, f, e);
    NotInInputs(v, next, inputs1, level, f, e);
    if e in LevelSet(v[next]) {
      AgeOfLevels(v, level, next, e, e);
    }
  }

  lemma InstalledMovesDown(st: State, v': Version, level: nat, inputs0: seq<File>, inputs1: seq<File>, out: seq<File>)
    requires |st.version| == NUM_LEVELS && level + 1 < NUM_LEVELS && Chosen(st.version, level, inputs0, inputs1)
    requires Installed(st.version, v', level, inputs0, inputs1, out)
    requires LevelSet(out) <= LevelSet(inputs0) + LevelSet(inputs1)
    ensures MovesDown(StoreLayers(st), StoreLayers(st.(version := v')), level + 2)
  {
    hide *;
    var v, st' := st.version, st.(version := v');
    var was, now := StoreLayers(st), StoreLayers(st');
    ChosenParts(v, level, inputs0, inputs1);
    InstalledLevels(v, v', level, inputs0, inputs1, out);
    OtherLayers(st, v', level, inputs0, inputs1, out);
    LayerAt(st, level + 2);
    LayerAt(st', level + 2);
    LayerAt(st, level + 3);
    LayerAt(st', level + 3);
    PiecesFit(v, v', level, inputs0, inputs1, out);
    PackMove(was, now, level + 2);
  }

  lemma OtherLayers(st: State, v': Version, level: nat, inputs0: seq<File>, inputs1: seq<File>, out: seq<File>)
    requires Installed(st.version, v', level, inputs0, inputs1, out)
    ensures |st.version| == |v'| == NUM_LEVELS && |StoreLayers(st)| == |StoreLayers(st.(version := v'))| == NUM_LEVELS + 2
    ensures forall k :: 0 <= k < NUM_LEVELS + 2 && k != level + 2 && k != level + 3 ==>
              StoreLayers(st.(version := v'))[k] == StoreLayers(st)[k]
  {
    hide Elements, LevelSet, Ordered;
    assert ImmSet(st.(version := v')) == ImmSet(st);
  }

  lemma PackMove(was: seq<set<Entry>>, now: seq<set<Entry>>, p: nat)
    requires |was| == |now| && p + 1 < |was|
    requires forall k :: 0 <= k < |was| && k != p && k != p + 1 ==> now[k] == was[k]
    requires now[p] <= was[p] && now[p + 1] <= was[p] + was[p + 1] && now[p] !! now[p + 1]
    ensures MovesDown(was, now, p)
  {
  }

  lemma PiecesFit(v: Version, v': Version, level: nat, inputs0: seq<File>, inputs1: seq<File>, out: seq<File>)
    requires |v| == |v'| == NUM_LEVELS && level + 1 < NUM_LEVELS && Chosen(v, level, inputs0, inputs1)
    requires LevelSet(out) <= LevelSet(inputs0) + LevelSet(inputs1)
    requires LevelSet(v'[level]) == Contents(Others(v[level], inputs0))
    requires LevelSet(v'[level + 1]) == Contents(Others(v[level + 1], inputs1)) + LevelSet(out)
    ensures LevelSet(v'[level]) <= LevelSet(v[level])
    ensures LevelSet(v'[level + 1]) <= LevelSet(v[level]) + LevelSet(v[level + 1])
    ensures LevelSet(v'[level]) !! LevelSet(v'[level + 1])
  {
    var next := level + 1;
    hide *;
    ChosenParts(v, level, inputs0, inputs1);
    forall e | e in LevelSet(v'[level])
      ensures e in LevelSet(v[level]) && e !in LevelSet(v'[next])
    {
      StayingIsNoInput(v, level, inputs0, inputs1, e);
      if e in LevelSet(v'[next]) {
        ComesFromAbove(v, level, inputs0, inputs1, out, e);
      }
    }
    forall e | e in LevelSet(v'[next])
      ensures e in LevelSet(v[level]) + LevelSet(v[next])
    {
      if e in LevelSet(inputs0) {
        SubsetOfLevel(v[level], inputs0, e);
      } else if e in LevelSet(inputs1) {
        SubsetOfLevel(v[next], inputs1, e);
      } else {
        var f := StayingIs(v[next], inputs1, e);
      }
    }
  }

  // ---------------------------------------------------------------- when a cut does not show

  /**
  At the oldest live snapshot and later, some entry that is not among the upper inputs is newer than
  all they hold of the user key they end with.
   */
  ghost predicate Masked(st: State, inputs0: seq<File>) {
    |inputs0| > 0 && exists e :: Masks(st, inputs0, e)
  }

  ghost predicate Masks(st: State, inputs0: seq<File>, e: Entry)
    requires |inputs0| > 0
  {
    var end := inputs0[|inputs0| - 1].largest;
    && e in AllEntries(st) && e !in LevelSet(inputs0)
    && e.key.user == end.user && end.sn < e.key.sn <= Oldest(st)
  }

  /** In a run, what has the last user key is not older than the run's end. */
  lemma NotOlderThanEnd(files: Level, inputs: seq<File>, lo: nat, hi: nat, x: Entry)
    requires ValidFiles(files) && IsRun(files, inputs, lo, hi) && SortedLevel(files)
    requires x in LevelSet(inputs) && |inputs| > 0 && x.key.user == EndKey(inputs)
    ensures x.key.sn >= inputs[|inputs| - 1].largest.sn
  {
    var k := HoldingFile(inputs, x);
    var last := |inputs| - 1;
    assert inputs[k] == files[lo + k] && inputs[last] == files[lo + last];
    FileInLevel(files, lo + k);
    FileInLevel(files, lo + last);
    EntryInRange(files[lo + k], x);
    if k < last {
      assert Less(files[lo + k].largest, files[lo + last].smallest);
      EndsInOrder(files[lo + last]);
    }
  }

  lemma EndsInOrder(f: File)
    requires ValidFile(f)
    ensures f.smallest == f.largest || Less(f.smallest, f.largest)
  {
    EntryInRange(f, f.entries[0]);
  }

  /** The run's end is the key of an input. */
  lemma EndIsInput(files: Level, inputs: seq<File>, lo: nat, hi: nat) returns (x: Entry)
    requires ValidFiles(files) && IsRun(files, inputs, lo, hi)
    ensures |inputs| > 0 && x in LevelSet(inputs) && x.key == inputs[|inputs| - 1].largest
  {
    var f := inputs[|inputs| - 1];
    assert f == files[hi - 1] && f in inputs;
    FileInLevel(files, hi - 1);
    x := f.entries[|f.entries| - 1];
    assert x in f.entries;
  }

  /** What stays and is newer than the run's end lies before the run, so it is newer than all of it. */
  lemma NewerThanEnd(files: Level, inputs: seq<File>, lo: nat, hi: nat, g: File, e: Entry, x: Entry)
    requires ValidFiles(files) && SortedLevel(files) && UniqueSequences(LevelSet(files)) && IsRun(files, inputs, lo, hi)
    requires g in files && g !in inputs && e in g.entries && x in LevelSet(inputs) && |inputs| > 0
    requires e.key.user == x.key.user == EndKey(inputs) && e.key.sn > inputs[|inputs| - 1].largest.sn
    ensures e.key.sn > x.key.sn
  {
    hide *;
    var j := OutsideRun(files, inputs, lo, hi, g);
    var k := PlaceInRun(files, inputs, lo, hi, x);
    if hi <= j {
      InOrder(files, hi - 1, j);
      AfterFile(files[j], files[hi - 1].largest, e);
    } else {
      InOrder(files, j, k);
      OneSequence(files, j, k, e, x);
      BetweenFiles(files[j], files[k], e, x);
    }
  }

  lemma PlaceInRun(files: Level, inputs: seq<File>, lo: nat, hi: nat, x: Entry) returns (k: nat)
    requires IsRun(files, inputs, lo, hi) && x in LevelSet(inputs)
    ensures lo <= k < hi <= |files| && x in files[k].entries
    ensures |inputs| > 0 && inputs[|inputs| - 1] == files[hi - 1] && EndKey(inputs) == files[hi - 1].largest.user
  {
    k := HoldingFile(inputs, x);
    assert inputs[k] == files[lo + k];
    k := lo + k;
  }

  lemma InOrder(files: Level, i: nat, j: nat)
    requires ValidFiles(files) && SortedLevel(files) && i < j < |files|
    ensures ValidFile(files[i]) && ValidFile(files[j]) && Less(files[i].largest, files[j].smallest)
  {
  }

  lemma OneSequence(files: Level, i: nat, j: nat, e: Entry, x: Entry)
    requires UniqueSequences(LevelSet(files)) && i < |files| && j < |files| && e in files[i].entries && x in files[j].entries
    ensures e.key.sn == x.key.sn ==> e == x
  {
    assert e in LevelSet(files) && x in LevelSet(files);
  }

  lemma AfterFile(f: File, end: InternalKey, e: Entry)
    requires ValidFile(f) && e in f.entries && Less(end, f.smallest) && e.key.user == end.user
    ensures e.key.sn <= end.sn
  {
    EntryInRange(f, e);
  }

  lemma BetweenFiles(f: File, g: File, e: Entry, x: Entry)
    requires ValidFile(f) && ValidFile(g) && e in f.entries && x in g.entries && Less(f.largest, g.smallest)
    requires e.key.user == x.key.user && (e.key.sn == x.key.sn ==> e == x)
    ensures e.key.sn > x.key.sn
  {
    EntryInRange(f, e);
    EntryInRange(g, x);
  }

  /** Whether what came down shows in a search is decided by the end of the upper run. */
  lemma ShowsIff(st: State, v': Version, level: nat, inputs0: seq<File>, inputs1: seq<File>, out: seq<File>)
    requires Inv(st) && |st.version| == NUM_LEVELS && level + 1 < NUM_LEVELS
    requires Chosen(st.version, level, inputs0, inputs1) && Installed(st.version, v', level, inputs0, inputs1, out)
    requires LevelSet(out) <= LevelSet(inputs0) + LevelSet(inputs1)
    requires |StoreLayers(st)| == |StoreLayers(st.(version := v'))| == NUM_LEVELS + 2
    ensures NothingShows(StoreLayers(st), StoreLayers(st.(version := v')), level + 2, Oldest(st))
            <==> MovedIsOlder(st.version[level], inputs0, out) || Masked(st, inputs0)
  {
    hide *;
    var v, m, p := st.version, Oldest(st), level + 2;
    var was, now := StoreLayers(st), StoreLayers(st.(version := v'));
    if MovedIsOlder(v[level], inputs0, out) {
      forall x, y
        ensures !IsOver(was, now, p, x, y)
      {
        if IsOver(was, now, p, x, y) {
          OverIs(st, v', level, inputs0, inputs1, out, x, y);
          NotOlderMoved(v[level], inputs0, out, x, y);
        }
      }
      ShowsNothing(was, now, p, m);
    } else if Masked(st, inputs0) {
      forall x, y | IsOver(was, now, p, x, y)
        ensures Hidden(now, p, m, x)
      {
        MaskHides(st, v', level, inputs0, inputs1, out, x, y);
      }
      ShowsNothing(was, now, p, m);
    } else if NothingShows(was, now, p, m) {
      var x, y := OlderMoved(st, v', level, inputs0, inputs1, out);
      HiddenOver(was, now, p, m, x, y);
      HiddenIsMasked(st, v', level, inputs0, inputs1, out, x, y);
    }
  }

  ghost predicate IsOver(was: seq<set<Entry>>, now: seq<set<Entry>>, p: nat, x: Entry, y: Entry)
    requires p + 1 < |was| == |now|
  {
    x in now[p + 1] && x in was[p] && y in now[p] && y.key.user == x.key.user && y.key.sn < x.key.sn
  }

  lemma ShowsNothing(was: seq<set<Entry>>, now: seq<set<Entry>>, p: nat, m: Sequence)
    requires p + 1 < |was| == |now| && forall x, y :: IsOver(was, now, p, x, y) ==> Hidden(now, p, m, x)
    ensures NothingShows(was, now, p, m)
  {
    hide Hidden;
    forall x, y | x in now[p + 1] && x in was[p] && y in now[p] && y.key.user == x.key.user && y.key.sn < x.key.sn
      ensures Hidden(now, p, m, x)
    {
      assert IsOver(was, now, p, x, y);
    }
  }

  lemma HiddenOver(was: seq<set<Entry>>, now: seq<set<Entry>>, p: nat, m: Sequence, x: Entry, y: Entry)
    requires p + 1 < |was| == |now| && NothingShows(was, now, p, m) && IsOver(was, now, p, x, y)
    ensures Hidden(now, p, m, x)
  {
  }

  lemma NotOlderMoved(files: seq<File>, inputs: seq<File>, out: seq<File>, x: Entry, y: Entry)
    requires MovedIsOlder(files, inputs, out) && x in LevelSet(out) && x in LevelSet(inputs)
    requires y in Contents(Others(files, inputs)) && x.key.user == y.key.user
    ensures y.key.sn > x.key.sn
  {
  }

  /** A pair out of order, in terms of files. */
  lemma OverIs(st: State, v': Version, level: nat, inputs0: seq<File>, inputs1: seq<File>, out: seq<File>,
               x: Entry, y: Entry)
    requires |st.version| == NUM_LEVELS && level + 1 < NUM_LEVELS
    requires Chosen(st.version, level, inputs0, inputs1) && Installed(st.version, v', level, inputs0, inputs1, out)
    requires LevelSet(out) <= LevelSet(inputs0) + LevelSet(inputs1)
    requires |StoreLayers(st)| == |StoreLayers(st.(version := v'))| == NUM_LEVELS + 2
    requires IsOver(StoreLayers(st), StoreLayers(st.(version := v')), level + 2, x, y)
    ensures x in LevelSet(out) && x in LevelSet(inputs0) && y in Contents(Others(st.version[level], inputs0))
    ensures y.key.user == x.key.user && y.key.sn < x.key.sn
  {
    hide *;
    var st' := st.(version := v');
    OverParts(StoreLayers(st), StoreLayers(st'), level + 2, x, y);
    InstalledLevels(st.version, v', level, inputs0, inputs1, out);
    LayerAt(st, level + 2);
    LayerAt(st', level + 2);
    LayerAt(st', level + 3);
    ComesFromAbove(st.version, level, inputs0, inputs1, out, x);
  }

  lemma OverParts(was: seq<set<Entry>>, now: seq<set<Entry>>, p: nat, x: Entry, y: Entry)
    requires p + 1 < |was| == |now| && IsOver(was, now, p, x, y)
    ensures x in now[p + 1] && x in was[p] && y in now[p] && y.key.user == x.key.user && y.key.sn < x.key.sn
  {
  }

  lemma LayerOf(st: State, e: Entry) returns (k: nat)
    requires e in AllEntries(st)
    ensures k < |StoreLayers(st)| && e in StoreLayers(st)[k]
  {
    UnionOfLayers(st);
    k :| 0 <= k < |StoreLayers(st)| && e in StoreLayers(st)[k];
  }

  lemma InLayers(st: State, k: nat, e: Entry)
    requires k < |StoreLayers(st)| && e in StoreLayers(st)[k]
    ensures e in AllEntries(st)
  {
    UnionOfLayers(st);
  }

  lemma PackHidden(now: seq<set<Entry>>, p: nat, m: Sequence, x: Entry, k: nat, e: Entry)
    requires k <= p && k < |now| && e in now[k] && e.key.user == x.key.user && x.key.sn < e.key.sn <= m
    ensures Hidden(now, p, m, x)
  {
    assert Hides(e, m, x);
  }

  lemma HiddenParts(now: seq<set<Entry>>, p: nat, m: Sequence, x: Entry) returns (k: nat, e: Entry)
    requires Hidden(now, p, m, x)
    ensures k <= p && k < |now| && e in now[k] && e.key.user == x.key.user && x.key.sn < e.key.sn <= m
  {
    k, e :| 0 <= k <= p && k < |now| && e in now[k] && Hides(e, m, x);
  }

  lemma MaskParts(st: State, inputs0: seq<File>) returns (e: Entry)
    requires Masked(st, inputs0)
    ensures |inputs0| > 0 && e in AllEntries(st) && e !in LevelSet(inputs0)
    ensures e.key.user == EndKey(inputs0) && inputs0[|inputs0| - 1].largest.sn < e.key.sn <= Oldest(st)
  {
    hide AllEntries, LevelSet;
    e :| Masks(st, inputs0, e);
  }

  lemma PackMask(st: State, inputs0: seq<File>, e: Entry)
    requires |inputs0| > 0 && e in AllEntries(st) && e !in LevelSet(inputs0)
    requires e.key.user == EndKey(inputs0) && inputs0[|inputs0| - 1].largest.sn < e.key.sn <= Oldest(st)
    ensures Masked(st, inputs0)
  {
    assert Masks(st, inputs0, e);
  }

  lemma FileOutside(files: seq<File>, inputs: seq<File>, e: Entry) returns (g: File)
    requires e in LevelSet(files) && e !in LevelSet(inputs)
    ensures g in files && g !in inputs && e in g.entries && e in Contents(Others(files, inputs))
  {
    g :| g in files && e in g.entries;
    assert g in Others(files, inputs);
  }

  /** The upper run ends in the key of an entry that came down over one that stays. */
  lemma OverIsEnd(st: State, level: nat, inputs0: seq<File>, inputs1: seq<File>, out: seq<File>, x: Entry, y: Entry)
    returns (lo: nat, hi: nat)
    requires Inv(st) && |st.version| == NUM_LEVELS && level + 1 < NUM_LEVELS
    requires Chosen(st.version, level, inputs0, inputs1)
    requires x in LevelSet(out) && x in LevelSet(inputs0) && y in Contents(Others(st.version[level], inputs0))
    requires y.key.user == x.key.user && y.key.sn < x.key.sn
    ensures IsRun(st.version[level], inputs0, lo, hi) && |inputs0| > 0 && EndKey(inputs0) == x.key.user
    ensures ValidFiles(st.version[level]) && SortedLevel(st.version[level])
    ensures UniqueSequences(LevelSet(st.version[level]))
  {
    hide *;
    var v := st.version;
    InvLayers(st);
    UniqueVersion(st);
    UniqueLevels(v, level);
    ChosenParts(v, level, inputs0, inputs1);
    if level == 0 {
      ClosedIsOlder(v, inputs0, out);
      NotOlderMoved(v[0], inputs0, out, x, y);
    } else {
      lo, hi := UpperRun(v, level, inputs0);
      var f := StayingIs(v[level], inputs0, y);
      BesideIsCut(v, level, inputs0, lo, hi, f, x, y);
    }
  }

  lemma MaskHides(st: State, v': Version, level: nat, inputs0: seq<File>, inputs1: seq<File>, out: seq<File>,
                  x: Entry, y: Entry)
    requires Inv(st) && |st.version| == NUM_LEVELS && level + 1 < NUM_LEVELS
    requires Chosen(st.version, level, inputs0, inputs1) && Installed(st.version, v', level, inputs0, inputs1, out)
    requires LevelSet(out) <= LevelSet(inputs0) + LevelSet(inputs1)
    requires |StoreLayers(st)| == |StoreLayers(st.(version := v'))| == NUM_LEVELS + 2
    requires IsOver(StoreLayers(st), StoreLayers(st.(version := v')), level + 2, x, y) && Masked(st, inputs0)
    ensures Hidden(StoreLayers(st.(version := v')), level + 2, Oldest(st), x)
  {
    hide *;
    var v, m, p, st' := st.version, Oldest(st), level + 2, st.(version := v');
    var was, now := StoreLayers(st), StoreLayers(st');
    InvIsByAge(st);
    OverIs(st, v', level, inputs0, inputs1, out, x, y);
    var lo, hi := OverIsEnd(st, level, inputs0, inputs1, out, x, y);
    var e := MaskParts(st, inputs0);
    var k := LayerOf(st, e);
    var z := EndIsInput(v[level], inputs0, lo, hi);
    EndIs(inputs0);
    ChosenParts(v, level, inputs0, inputs1);
    SubsetOfLevel(v[level], inputs0, z);
    SubsetOfLevel(v[level], inputs0, x);
    OtherLayers(st, v', level, inputs0, inputs1, out);
    LayerAt(st, p);
    LayerAt(st', p);
    if p < k {
      AgeOf(was, p, k, z, e);
    } else if k < p {
      AgeOf(was, k, p, e, x);
      PackHidden(now, p, m, x, k, e);
    } else {
      var g := FileOutside(v[level], inputs0, e);
      NewerThanEnd(v[level], inputs0, lo, hi, g, e, x);
      InstalledLevels(v, v', level, inputs0, inputs1, out);
      PackHidden(now, p, m, x, p, e);
    }
  }

  lemma EndIs(inputs: seq<File>)
    requires |inputs| > 0
    ensures EndKey(inputs) == inputs[|inputs| - 1].largest.user
  {
  }

  /** If age is lost, some entry came down over one that stays. */
  lemma OlderMoved(st: State, v': Version, level: nat, inputs0: seq<File>, inputs1: seq<File>, out: seq<File>)
    returns (x: Entry, y: Entry)
    requires Inv(st) && |st.version| == NUM_LEVELS && level + 1 < NUM_LEVELS
    requires Chosen(st.version, level, inputs0, inputs1) && Installed(st.version, v', level, inputs0, inputs1, out)
    requires |StoreLayers(st)| == |StoreLayers(st.(version := v'))| == NUM_LEVELS + 2
    requires !MovedIsOlder(st.version[level], inputs0, out)
    ensures IsOver(StoreLayers(st), StoreLayers(st.(version := v')), level + 2, x, y)
  {
    hide *;
    var v, st' := st.version, st.(version := v');
    x, y := NotAllOlder(v[level], inputs0, out);
    InvLayers(st);
    UniqueVersion(st);
    UniqueLevels(v, level);
    ChosenParts(v, level, inputs0, inputs1);
    StayingIsNoInput(v, level, inputs0, inputs1, y);
    SubsetOfLevel(v[level], inputs0, x);
    Apart(LevelSet(v[level]), x, y);
    InstalledLevels(v, v', level, inputs0, inputs1, out);
    LayerAt(st, level + 2);
    LayerAt(st', level + 2);
    LayerAt(st', level + 3);
    PackOver(StoreLayers(st), StoreLayers(st'), level + 2, x, y);
  }

  lemma NotAllOlder(files: seq<File>, inputs: seq<File>, out: seq<File>) returns (x: Entry, y: Entry)
    requires !MovedIsOlder(files, inputs, out)
    ensures y in Contents(Others(files, inputs)) && x in LevelSet(out) && x in LevelSet(inputs)
    ensures y.key.user == x.key.user && y.key.sn <= x.key.sn
  {
    y, x :| && y in Contents(Others(files, inputs)) && x in LevelSet(out) * LevelSet(inputs)
            && y.key.user == x.key.user && y.key.sn <= x.key.sn;
  }

  lemma Apart(S: set<Entry>, x: Entry, y: Entry)
    requires UniqueSequences(S) && x in S && y in S && x != y
    ensures x.key.sn != y.key.sn
  {
  }

  lemma PackOver(was: seq<set<Entry>>, now: seq<set<Entry>>, p: nat, x: Entry, y: Entry)
    requires p + 1 < |was| == |now|
    requires x in now[p + 1] && x in was[p] && y in now[p] && y.key.user == x.key.user && y.key.sn < x.key.sn
    ensures IsOver(was, now, p, x, y)
  {
  }

  lemma HiddenIsMasked(st: State, v': Version, level: nat, inputs0: seq<File>, inputs1: seq<File>, out: seq<File>,
                       x: Entry, y: Entry)
    requires Inv(st) && |st.version| == NUM_LEVELS && level + 1 < NUM_LEVELS
    requires Chosen(st.version, level, inputs0, inputs1) && Installed(st.version, v', level, inputs0, inputs1, out)
    requires LevelSet(out) <= LevelSet(inputs0) + LevelSet(inputs1)
    requires |StoreLayers(st)| == |StoreLayers(st.(version := v'))| == NUM_LEVELS + 2
    requires IsOver(StoreLayers(st), StoreLayers(st.(version := v')), level + 2, x, y)
    requires Hidden(StoreLayers(st.(version := v')), level + 2, Oldest(st), x)
    ensures Masked(st, inputs0)
  {
    hide *;
    var v, m, p, st' := st.version, Oldest(st), level + 2, st.(version := v');
    var was, now := StoreLayers(st), StoreLayers(st');
    InvIsByAge(st);
    OverIs(st, v', level, inputs0, inputs1, out, x, y);
    var lo, hi := OverIsEnd(st, level, inputs0, inputs1, out, x, y);
    var k, e := HiddenParts(now, p, m, x);
    NotOlderThanEnd(v[level], inputs0, lo, hi, x);
    ChosenParts(v, level, inputs0, inputs1);
    OtherLayers(st, v', level, inputs0, inputs1, out);
    LayerAt(st, p);
    LayerAt(st', p);
    InstalledLevels(v, v', level, inputs0, inputs1, out);
    if k == p {
      StayingIsNoInput(v, level, inputs0, inputs1, e);
    } else if e in LevelSet(inputs0) {
      SubsetOfLevel(v[level], inputs0, e);
      AgeOf(was, k, p, e, e);
    }
    InLayers(st, k, e);
    PackMask(st, inputs0, e);
  }

  // ---------------------------------------------------------------- the results

  /** After installing, lookups find the newest entry exactly if age is kept or the cut is masked. */
  lemma InstalledLookups(st: State, v': Version, level: nat, inputs0: seq<File>, inputs1: seq<File>, out: seq<File>)
    requires Inv(st) && |st.version| == NUM_LEVELS && level + 1 < NUM_LEVELS
    requires Chosen(st.version, level, inputs0, inputs1) && Installed(st.version, v', level, inputs0, inputs1, out)
    requires LevelSet(out) <= LevelSet(inputs0) + LevelSet(inputs1)
    ensures LooksUpNewest(st.(version := v'), Oldest(st))
            <==> MovedIsOlder(st.version[level], inputs0, out) || Masked(st, inputs0)
  {
    hide *;
    var st' := st.(version := v');
    InstalledMovesDown(st, v', level, inputs0, inputs1, out);
    OtherLayers(st, v', level, inputs0, inputs1, out);
    InvIsByAge(st);
    FindsNewestIff(StoreLayers(st), StoreLayers(st'), level + 2, Oldest(st));
    SameNotions(st', Oldest(st));
    ShowsIff(st, v', level, inputs0, inputs1, out);
  }

  /** If lookups find the newest entry, they answer as the history exactly if the stored entries do. */
  lemma AnswersIff(st: State, m: Sequence)
    requires UniqueSequences(AllEntries(st)) && UniqueSequences(st.history) && LooksUpNewest(st, m)
    ensures AnswersAsHistory(st, m) <==> SameReads(AllEntries(st), st.history, m)
  {
    hide StoreHit, AllEntries;
    forall u, s: Sequence | s >= m
      ensures exists r :: StoreHit(st, u, s, r) && Answer(r) == Read(AllEntries(st), u, s)
    {
      var r := SomeHit(st, u, s);
      FoundIsFind(AllEntries(st), u, s, r);
    }
    forall u, s: Sequence, r | s >= m && StoreHit(st, u, s, r)
      ensures Answer(r) == Read(AllEntries(st), u, s)
    {
      FoundIsFind(AllEntries(st), u, s, r);
    }
  }

  lemma SomeHit(st: State, u: UserKey, s: Sequence) returns (r: Option<Entry>)
    requires UniqueSequences(AllEntries(st))
    ensures StoreHit(st, u, s, r)
  {
    UnionOfLayers(st);
    var layers := StoreLayers(st);
    forall k | 0 <= k < |layers|
      ensures UniqueSequences(layers[k])
    {
      assert layers[k] <= Union(layers);
    }
    r := HitExists(layers, u, s);
  }

  lemma NumbersDoNotCount(st: State, next: nat)
    ensures StoreLayers(st.(nextFile := next)) == StoreLayers(st) && AllEntries(st.(nextFile := next)) == AllEntries(st)
  {
    assert ImmSet(st.(nextFile := next)) == ImmSet(st);
  }

  lemma NumbersDoNotMatter(st: State, next: nat, m: Sequence)
    ensures LooksUpNewest(st.(nextFile := next), m) <==> LooksUpNewest(st, m)
  {
    NumbersDoNotCount(st, next);
    hide StoreLayers, AllEntries, LayerHit, FoundIn;
  }

  /**
  After any compaction of inputs as the code selects them, every lookup at the oldest snapshot or later
  finds the newest stored entry if and only if no cut key is moved over its older half, or something
  newer masks it; and then every lookup answers as the history if and only if nothing is brought back.
   */
  lemma CompactLookups(st: State, v': Version, level: nat, inputs0: seq<File>, inputs1: seq<File>,
                       input: seq<Entry>, outputs: seq<seq<Entry>>, sizes: nat -> nat)
    requires |st.version| == NUM_LEVELS && level + 1 < NUM_LEVELS && Inv(st)
    requires Compacted(st, v', level, inputs0, inputs1, input, outputs, sizes)
    ensures LookupsAre(st, st.(version := v', nextFile := st.nextFile + |outputs|),
                       AgeSafe(st.version, level, inputs0, input, Oldest(st)) || Masked(st, inputs0),
                       BringsNothingBack(st, level, inputs0, inputs1, input))
  {
    hide *;
    var v, m, next', S := st.version, Oldest(st), st.nextFile + |outputs|, AllEntries(st);
    var st1, st' := st.(version := v'), st.(version := v', nextFile := next');
    InvLayers(st);
    HistoryIsUnique(st);
    CompactedParts(st, v', level, inputs0, inputs1, input, outputs, sizes);
    var out := OutputFiles(st.nextFile, sizes, outputs);
    CompactionReplaces(st, v', level, inputs0, inputs1, input, outputs, sizes, out);
    ReplacedParts(st, v', level, inputs0, inputs1, input, out);
    CompactionInstallsWell(st, v', level, inputs0, inputs1, input, outputs, sizes);
    UniqueVersion(st);
    AgeKeptIff(v, level, inputs0, inputs1, input, m, out);
    InstalledLookups(st, v', level, inputs0, inputs1, out);
    NumbersDoNotMatter(st1, next', m);
    var D := DroppedSet(input, v, level, m);
    CompactedLayers(st, v', D);
    FactsForCompaction(st, level, inputs0, inputs1, input);
    CompactionKeepsReads(S, Elements(st.mem) + ImmSet(st), v, level, inputs0, inputs1, input, m);
    UncoversIff(S, Elements(st.mem) + ImmSet(st), v, level, inputs0, inputs1, input, m);
    BringsNothingBackIs(st, level, inputs0, inputs1, input);
    HistoryReads(st);
    ReadsThrough(S, S - D, st.history, m);
    SearchableFrom(st');
    if LooksUpNewest(st', m) {
      AnswersIff(st', m);
    }
    PackLookups(st, st', AgeSafe(v, level, inputs0, input, m) || Masked(st, inputs0),
                BringsNothingBack(st, level, inputs0, inputs1, input));
  }

  lemma HistoryReads(st: State)
    requires Inv(st)
    ensures UniqueSequences(AllEntries(st)) && UniqueSequences(st.history)
    ensures SameReads(AllEntries(st), st.history, Oldest(st))
  {
  }

  lemma HistoryIsUnique(st: State)
    requires Inv(st)
    ensures UniqueSequences(st.history) && UniqueSequences(AllEntries(st))
  {
  }

  lemma SearchableFrom(st: State)
    requires Sorted(st.mem) && (st.imm.Some? ==> Sorted(st.imm.value)) && ValidVersion(st.version)
    requires UniqueSequences(AllEntries(st))
    ensures Searchable(st)
  {
  }

  lemma BringsNothingBackIs(st: State, level: nat, inputs0: seq<File>, inputs1: seq<File>, input: seq<Entry>)
    requires |st.version| == NUM_LEVELS && level + 1 < NUM_LEVELS
    ensures BringsNothingBack(st, level, inputs0, inputs1, input)
            <==> forall u :: IsCut(st.version, level, inputs0, inputs1, u) ==>
                   !BringsBack(AllEntries(st), st.version, level, inputs0, inputs1, input, Oldest(st), u)
  {
    hide IsCut, BringsBack, AllEntries, Oldest;
  }

  /** The same for a trivial move, which drops nothing. */
  lemma MoveLookups(st: State, v': Version, level: nat, f: File)
    requires |st.version| == NUM_LEVELS && level + 1 < NUM_LEVELS && Inv(st)
    requires Chosen(st.version, level, [f], [])
    requires Applied(st.version, v', CompactionEdit(level, [f], [], [f]))
    ensures LookupsAre(st, st.(version := v'), level == 0 || !EndsInCut(st.version[level], [f]) || Masked(st, [f]), true)
  {
    hide *;
    var v, m, st' := st.version, Oldest(st), st.(version := v');
    InvLayers(st);
    HistoryReads(st);
    ChosenParts(v, level, [f], []);
    MoveInstalls(v, v', level, f, st.nextFile);
    UniqueVersion(st);
    ChosenLeaveNoOlder(v, level, [f], []);
    OneMovedIsAll(v[level], f);
    InstalledIsValid(v, v', level, [f], [], [f]);
    InstalledContents(v, v', level, [f], [], [f]);
    InputInVersion(v, level, [f], []);
    MovedContents(v, v', level, f);
    SameVersionSet(st, v');
    SameStore(st, v');
    InstalledLookups(st, v', level, [f], [], [f]);
    SearchableFrom(st');
    if LooksUpNewest(st', m) {
      AnswersIff(st', m);
    }
    PackLookups(st, st', level == 0 || !EndsInCut(v[level], [f]) || Masked(st, [f]), true);
  }

  lemma SameStore(st: State, v': Version)
    requires VersionSet(v') == VersionSet(st.version)
    ensures AllEntries(st.(version := v')) == AllEntries(st)
  {
    assert ImmSet(st.(version := v')) == ImmSet(st);
  }

  lemma OneMovedIsAll(files: seq<File>, f: File)
    ensures MovedIsOlder(files, [f], [f]) <==> LeavesNoOlder(files, [f])
  {
    assert LevelSet([f]) * LevelSet([f]) == LevelSet([f]);
  }
}
