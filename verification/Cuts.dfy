/**
User keys cut in two by the end of a run of files.  Output files may be cut between two versions of
one key (util/leveldb/db/db_impl.cc:929-935 and 997-1003), and the input selection of levels above
zero does not pull the other half in (util/leveldb/db/version_set.cc:1296-1307).  What a compaction
keeps depends on the cuts at the ends of its two input runs, and on nothing else.
 */
module Cuts {
  import opened Keys
  import opened History
  import opened Versions
  import opened Inputs
  import opened Compactions

  // ---------------------------------------------------------------- runs of files

  /** The file after a contiguous run starts with the user key that the run ends with. */
  predicate Straddles(files: Level, hi: nat)
    requires 0 < hi <= |files|
  {
    hi < |files| && files[hi - 1].largest.user == files[hi].smallest.user
  }

  /** An entry outside a run is newer than the run's entries of its user key, but for the key cut at the end. */
  lemma RunNeighbour(files: Level, lo: nat, hi: nat, k: nat, j: nat, b: Entry, a: Entry)
    requires ValidFiles(files) && SortedLevel(files) && UniqueSequences(LevelSet(files))
    requires lo <= k < hi <= |files| && (j < lo || hi <= j < |files|)
    requires b in files[k].entries && a in files[j].entries && a.key.user == b.key.user
    ensures a.key.sn > b.key.sn || (Straddles(files, hi) && b.key.user == files[hi - 1].largest.user)
  {
    FileInLevel(files, k);
    FileInLevel(files, j);
    EntryInRange(files[k], b);
    EntryInRange(files[j], a);
    assert a in LevelSet(files) && b in LevelSet(files);
    if j < lo {
      assert Less(files[j].largest, files[k].smallest);
      assert a.key.sn != b.key.sn by {
        EntryInRange(files[j], a);
      }
    } else {
      LevelUsersIncrease(files, k, hi - 1);
      LevelUsersIncrease(files, hi, j);
      if hi - 1 < hi {
        assert Less(files[hi - 1].largest, files[hi].smallest);
      }
    }
  }

  lemma OutsideRun(files: Level, inputs: seq<File>, lo: nat, hi: nat, g: File) returns (j: nat)
    requires IsRun(files, inputs, lo, hi) && g in files && g !in inputs
    ensures j < |files| && files[j] == g && (j < lo || hi <= j)
  {
    j :| 0 <= j < |files| && files[j] == g;
    assert forall k :: lo <= k < hi ==> inputs[k - lo] == files[k];
  }

  /** The same for entries of files that are in the run and of files that are not. */
  lemma BesideRun(files: Level, inputs: seq<File>, lo: nat, hi: nat, g: File, b: Entry, a: Entry)
    requires ValidFiles(files) && SortedLevel(files) && UniqueSequences(LevelSet(files))
    requires IsRun(files, inputs, lo, hi) && g in files && g !in inputs
    requires b in LevelSet(inputs) && a in g.entries && a.key.user == b.key.user
    ensures a.key.sn > b.key.sn || (Straddles(files, hi) && b.key.user == files[hi - 1].largest.user)
  {
    var j := OutsideRun(files, inputs, lo, hi, g);
    var k := HoldingFile(inputs, b);
    assert inputs[k] == files[lo + k] && b in files[lo + k].entries;
    hide *;
    RunNeighbour(files, lo, hi, lo + k, j, b, a);
  }

  /** In a sorted level, a contiguous run leaves nothing older behind exactly if it cuts no key. */
  lemma RunLeavesNoOlder(files: Level, lo: nat, hi: nat)
    requires ValidFiles(files) && SortedLevel(files) && UniqueSequences(LevelSet(files))
    requires lo < hi <= |files|
    ensures LeavesNoOlder(files, files[lo..hi]) <==> !Straddles(files, hi)
  {
    var inputs := files[lo..hi];
    if Straddles(files, hi) {
      StraddleLeavesOlder(files, lo, hi);
    } else {
      forall a, b | a in Contents(Others(files, inputs)) && b in LevelSet(inputs) && a.key.user == b.key.user
        ensures a.key.sn > b.key.sn
      {
        var g :| g in Others(files, inputs) && a in g.entries;
        assert IsRun(files, inputs, lo, hi);
        assert g in files && g !in inputs;
        hide *;
        BesideRun(files, inputs, lo, hi, g, b, a);
      }
    }
  }

  lemma StraddleLeavesOlder(files: Level, lo: nat, hi: nat)
    requires ValidFiles(files) && SortedLevel(files)
    requires lo < hi <= |files| && Straddles(files, hi)
    ensures !LeavesNoOlder(files, files[lo..hi])
  {
    var f, g := files[hi - 1], files[hi];
    var b := f.entries[|f.entries| - 1];
    var a := g.entries[0];
    assert Less(b.key, a.key) && b in f.entries && a in g.entries;
    assert files[lo..hi][hi - 1 - lo] == f;
    assert f in files[lo..hi] && b in LevelSet(files[lo..hi]);
    NextIsOutside(files, lo, hi);
    assert g in Others(files, files[lo..hi]);
    assert a in Contents(Others(files, files[lo..hi]));
  }

  lemma NextIsOutside(files: Level, lo: nat, hi: nat)
    requires ValidFiles(files) && SortedLevel(files) && lo < hi < |files|
    ensures files[hi] in files && files[hi] !in files[lo..hi]
  {
    forall k | lo <= k < hi
      ensures files[k] != files[hi]
    {
      assert Less(files[k].largest, files[hi].smallest);
      EntryInRange(files[k], files[k].entries[0]);
    }
  }

  lemma {:induction false} OverlappingLast(files: seq<File>, r: Range)
    requires files != []
    ensures var n := |files| - 1;
            Overlapping(files, r) == Overlapping(files[..n], r) + if Overlaps(files[n], r) then [files[n]] else []
  {
  }

  lemma FrontIsSorted(files: Level, n: nat)
    requires ValidFiles(files) && SortedLevel(files) && n <= |files|
    ensures ValidFiles(files[..n]) && SortedLevel(files[..n])
  {
  }

  /** The files of a sorted level that meet a range are a contiguous run, or none. */
  lemma {:induction false} OverlappingIsRun(files: Level, r: Range) returns (lo: nat, hi: nat)
    requires ValidFiles(files) && SortedLevel(files)
    ensures lo <= hi <= |files| && Overlapping(files, r) == files[lo..hi]
    decreases |files|
  {
    hide *;
    if files == [] {
      lo, hi := 0, 0;
      NoFiles(r);
    } else {
      var n := |files| - 1;
      FrontIsSorted(files, n);
      OverlappingLast(files, r);
      lo, hi := OverlappingIsRun(files[..n], r);
      assert files[..n][lo..hi] == files[lo..hi];
      if Overlaps(files[n], r) {
        if lo == hi {
          lo, hi := n, n + 1;
          assert files[n..n + 1] == [files[n]];
        } else {
          NoGap(files, r, lo, hi, n);
          assert files[lo..n] + [files[n]] == files[lo..n + 1];
          hi := n + 1;
        }
      }
    }
  }

  lemma NoFiles(r: Range)
    ensures Overlapping([], r) == []
  {
  }

  lemma NoGap(files: Level, r: Range, lo: nat, hi: nat, n: nat)
    requires ValidFiles(files) && SortedLevel(files) && lo < hi <= n < |files| && Overlaps(files[n], r)
    requires Overlapping(files[..n], r) == files[lo..hi]
    ensures hi == n
  {
    hide *;
    if hi < n {
      RunMeets(files, r, lo, hi, n);
      BetweenMeets(files, r, hi, n);
      NextIsOutside(files, lo, hi);
      MetIsFound(files, r, lo, hi, n);
    }
  }

  lemma RunMeets(files: Level, r: Range, lo: nat, hi: nat, n: nat)
    requires lo < hi <= n < |files| && Overlapping(files[..n], r) == files[lo..hi]
    ensures Overlaps(files[hi - 1], r)
  {
    assert files[lo..hi][hi - 1 - lo] == files[hi - 1] && files[hi - 1] in files[lo..hi];
  }

  /** A file between two that meet a range meets it too. */
  lemma BetweenMeets(files: Level, r: Range, i: nat, n: nat)
    requires ValidFiles(files) && SortedLevel(files) && 0 < i < n < |files|
    requires Overlaps(files[i - 1], r) && Overlaps(files[n], r)
    ensures Overlaps(files[i], r)
  {
    LevelUsersIncrease(files, i - 1, i);
    LevelUsersIncrease(files, i, n);
  }

  lemma MetIsFound(files: Level, r: Range, lo: nat, hi: nat, n: nat)
    requires lo < hi < n < |files| && Overlapping(files[..n], r) == files[lo..hi] && Overlaps(files[hi], r)
    ensures files[hi] in files[lo..hi]
  {
    assert files[..n][hi] == files[hi] && files[hi] in files[..n];
  }

  // ---------------------------------------------------------------- cuts at the ends of the input runs

  /** The inputs are a run that ends in the middle of a user key's versions. */
  ghost predicate EndsInCut(files: Level, inputs: seq<File>) {
    exists lo, hi :: IsRun(files, inputs, lo, hi) && Straddles(files, hi)
  }

  function EndKey(inputs: seq<File>): (u: UserKey)
    requires |inputs| > 0
  {
    inputs[|inputs| - 1].largest.user
  }

  /** The user key `u` is cut at the end of one of the two input runs. */
  ghost predicate IsCut(v: Version, level: nat, inputs0: seq<File>, inputs1: seq<File>, u: UserKey)
    requires |v| == NUM_LEVELS && level + 1 < NUM_LEVELS
  {
    || (level > 0 && EndsInCut(v[level], inputs0) && |inputs0| > 0 && EndKey(inputs0) == u)
    || (EndsInCut(v[level + 1], inputs1) && |inputs1| > 0 && EndKey(inputs1) == u)
  }

  lemma RunEnd(files: Level, inputs: seq<File>, lo: nat, hi: nat)
    requires IsRun(files, inputs, lo, hi)
    ensures |inputs| > 0 && EndKey(inputs) == files[hi - 1].largest.user
    ensures Straddles(files, hi) ==> EndsInCut(files, inputs)
  {
  }

  /** A sorted level has one run for given inputs. */
  lemma OneRun(files: Level, inputs: seq<File>, lo: nat, hi: nat, lo': nat, hi': nat)
    requires ValidFiles(files) && SortedLevel(files) && IsRun(files, inputs, lo, hi) && IsRun(files, inputs, lo', hi')
    ensures lo == lo' && hi == hi'
  {
    assert inputs[0] == files[lo] == files[lo'];
    EntryInRange(files[lo], files[lo].entries[0]);
  }

  lemma CutIffStraddles(files: Level, inputs: seq<File>, lo: nat, hi: nat)
    requires ValidFiles(files) && SortedLevel(files) && IsRun(files, inputs, lo, hi)
    ensures EndsInCut(files, inputs) <==> Straddles(files, hi)
  {
    if EndsInCut(files, inputs) {
      var lo', hi' :| IsRun(files, inputs, lo', hi') && Straddles(files, hi');
      OneRun(files, inputs, lo, hi, lo', hi');
    }
  }

  lemma ChosenRuns(v: Version, level: nat, inputs0: seq<File>, inputs1: seq<File>) returns (lo: nat, hi: nat)
    requires Chosen(v, level, inputs0, inputs1)
    ensures level > 0 ==> exists lo, hi :: IsRun(v[level], inputs0, lo, hi)
    ensures inputs1 == [] || IsRun(v[level + 1], inputs1, lo, hi)
  {
    hide *;
    var r := NextLevelRange(v, level, inputs0, inputs1);
    lo, hi := OverlappingIsRun(v[level + 1], r);
    RunOrNothing(v[level + 1], inputs1, lo, hi);
  }

  lemma NextLevelRange(v: Version, level: nat, inputs0: seq<File>, inputs1: seq<File>) returns (r: Range)
    requires Chosen(v, level, inputs0, inputs1)
    ensures |v| == NUM_LEVELS && level + 1 < NUM_LEVELS && inputs1 == Overlapping(v[level + 1], r)
    ensures ValidFiles(v[level + 1]) && SortedLevel(v[level + 1])
    ensures level > 0 ==> exists lo, hi :: IsRun(v[level], inputs0, lo, hi)
  {
    hide IsRange, Overlapping, IsRun;
    var s, l :| IsRange(inputs0, s, l) && inputs1 == Overlapping(v[level + 1], Span(s.user, l.user));
    r := Span(s.user, l.user);
  }

  lemma RunOrNothing(files: Level, inputs: seq<File>, lo: nat, hi: nat)
    requires lo <= hi <= |files| && inputs == files[lo..hi]
    ensures inputs == [] || IsRun(files, inputs, lo, hi)
  {
  }

  /** Inputs as the code selects them leave nothing older behind if and only if neither run ends in a cut. */
  lemma ChosenLeaveNoOlder(v: Version, level: nat, inputs0: seq<File>, inputs1: seq<File>)
    requires Chosen(v, level, inputs0, inputs1) && UniqueSequences(VersionSet(v))
    ensures LeavesNoOlder(v[level], inputs0) <==> level == 0 || !EndsInCut(v[level], inputs0)
    ensures LeavesNoOlder(v[level + 1], inputs1) <==> !EndsInCut(v[level + 1], inputs1)
  {
    assert ValidVersion(v) && |v| == NUM_LEVELS && level + 1 < NUM_LEVELS && GoodPick(v, level, inputs0);
    UniqueLevels(v, level);
    UniqueLevels(v, level + 1);
    var lo1, hi1 := ChosenRuns(v, level, inputs0, inputs1);
    assert ValidFiles(v[level]) && ValidFiles(v[level + 1]) && SortedLevel(v[level + 1]);
    if level == 0 {
      var reach :| Closed(v[0], reach) && inputs0 == Overlapping(v[0], reach);
      ClosedLeavesNoOlder(v[0], reach);
    } else {
      assert SortedLevel(v[level]);
      var lo, hi :| IsRun(v[level], inputs0, lo, hi);
      RunIsUncutIff(v[level], inputs0, lo, hi);
    }
    if inputs1 == [] {
      NothingIsUncut(v[level + 1]);
    } else {
      RunIsUncutIff(v[level + 1], inputs1, lo1, hi1);
    }
  }

  lemma RunIsUncutIff(files: Level, inputs: seq<File>, lo: nat, hi: nat)
    requires ValidFiles(files) && SortedLevel(files) && UniqueSequences(LevelSet(files)) && IsRun(files, inputs, lo, hi)
    ensures LeavesNoOlder(files, inputs) <==> !EndsInCut(files, inputs)
  {
    hide LeavesNoOlder, EndsInCut;
    RunLeavesNoOlder(files, lo, hi);
    CutIffStraddles(files, inputs, lo, hi);
  }

  lemma NothingIsUncut(files: Level)
    ensures LeavesNoOlder(files, []) && !EndsInCut(files, [])
  {
    assert LevelSet([]) == {};
  }

  lemma UniqueLevels(v: Version, l: nat)
    requires l < |v| && UniqueSequences(VersionSet(v))
    ensures UniqueSequences(LevelSet(v[l]))
  {
    assert v[l] in v;
    assert LevelSet(v[l]) <= VersionSet(v);
  }

  // ---------------------------------------------------------------- which values can be uncovered

  /** Of an old deletion at its base level, only the older half of a cut key can stay behind. */
  lemma StayingOlderIsCut(v: Version, level: nat, inputs0: seq<File>, inputs1: seq<File>,
                          l: nat, f: File, d: Entry, e: Entry)
    requires Chosen(v, level, inputs0, inputs1) && UniqueSequences(VersionSet(v))
    requires d in LevelSet(inputs0) || d in LevelSet(inputs1)
    requires l <= level + 1 && f in v[l] && e in f.entries && e.key.user == d.key.user && e.key.sn < d.key.sn
    requires l == level ==> f !in inputs0
    requires l == level + 1 ==> f !in inputs1
    ensures IsCut(v, level, inputs0, inputs1, d.key.user)
  {
    var next := level + 1;
    hide *;
    ChosenParts(v, level, inputs0, inputs1);
    var lo, hi := ChosenRuns(v, level, inputs0, inputs1);
    EntryOfFile(v[l], f, e);
    if d in LevelSet(inputs1) {
      SubsetOfLevel(v[level + 1], inputs1, d);
      if l <= level {
        AgeOfLevels(v, l, next, e, d);
      } else {
        NonEmpty(inputs1, d);
        BesideIsCut(v, level + 1, inputs1, lo, hi, f, d, e);
        CutInNextLevel(v, level, inputs0, inputs1, d.key.user);
      }
    } else {
      SubsetOfLevel(v[level], inputs0, d);
      if l < level {
        AgeOfLevels(v, l, level, e, d);
      } else if l == level + 1 {
        StayingBelowComing(v, level, inputs0, inputs1, f, d, e);
      } else {
        BesideInLevel(v, level, inputs0, inputs1, f, d, e);
      }
    }
  }

  lemma ChosenParts(v: Version, level: nat, inputs0: seq<File>, inputs1: seq<File>)
    requires Chosen(v, level, inputs0, inputs1)
    ensures ValidVersion(v) && LevelsByAge(v) && |v| == NUM_LEVELS && level + 1 < NUM_LEVELS
    ensures GoodPick(v, level, inputs0) && ValidInputs(v, level, inputs0, inputs1)
    ensures forall f :: f in inputs0 ==> f in v[level]
    ensures forall f :: f in inputs1 ==> f in v[level + 1]
  {
  }

  lemma NonEmpty(inputs: seq<File>, d: Entry)
    requires d in LevelSet(inputs)
    ensures inputs != []
  {
  }

  lemma BesideIsCut(v: Version, l: nat, inputs: seq<File>, lo: nat, hi: nat, f: File, d: Entry, e: Entry)
    requires ValidVersion(v) && 0 < l < NUM_LEVELS && UniqueSequences(VersionSet(v)) && IsRun(v[l], inputs, lo, hi)
    requires f in v[l] && f !in inputs && d in LevelSet(inputs) && e in f.entries
    requires e.key.user == d.key.user && e.key.sn < d.key.sn
    ensures |inputs| > 0 && EndsInCut(v[l], inputs) && EndKey(inputs) == d.key.user
  {
    UniqueLevels(v, l);
    BesideRun(v[l], inputs, lo, hi, f, d, e);
    RunEnd(v[l], inputs, lo, hi);
  }

  lemma CutInNextLevel(v: Version, level: nat, inputs0: seq<File>, inputs1: seq<File>, u: UserKey)
    requires |v| == NUM_LEVELS && level + 1 < NUM_LEVELS
    requires EndsInCut(v[level + 1], inputs1) && |inputs1| > 0 && EndKey(inputs1) == u
    ensures IsCut(v, level, inputs0, inputs1, u)
  {
  }

  lemma BesideInLevel(v: Version, level: nat, inputs0: seq<File>, inputs1: seq<File>, f: File, d: Entry, e: Entry)
    requires ValidVersion(v) && level + 1 < NUM_LEVELS && GoodPick(v, level, inputs0) && UniqueSequences(VersionSet(v))
    requires f in v[level] && f !in inputs0 && d in LevelSet(inputs0) && e in f.entries
    requires e.key.user == d.key.user && e.key.sn < d.key.sn
    ensures IsCut(v, level, inputs0, inputs1, d.key.user)
  {
    if level == 0 {
      var reach :| Closed(v[0], reach) && inputs0 == Overlapping(v[0], reach);
      ClosedLeavesNoOlder(v[0], reach);
      StayingBesideInput(v[0], inputs0, f, d, e);
    } else {
      var lo, hi :| IsRun(v[level], inputs0, lo, hi);
      BesideIsCut(v, level, inputs0, lo, hi, f, d, e);
    }
  }

  /** A compaction can uncover a value only of a user key that is cut at the end of one of its input runs. */
  lemma UncoveredIsCut(S: set<Entry>, M: set<Entry>, v: Version, level: nat, inputs0: seq<File>,
                       inputs1: seq<File>, input: seq<Entry>, m: Sequence, d: Entry)
    requires CompactionFacts(S, M, v, level, inputs0, inputs1, input)
    requires |v| == NUM_LEVELS && d in DroppedSet(input, v, level, m)
    requires Uncovers(S, DroppedSet(input, v, level, m), m, d)
    ensures level + 1 < NUM_LEVELS && IsCut(v, level, inputs0, inputs1, d.key.user)
  {
    hide *;
    var e := UncoveredEntry(S, DroppedSet(input, v, level, m), m, d);
    var i := DroppedAt(input, v, level, m, d);
    DropsAreExplained(S, M, v, level, inputs0, inputs1, input, m, d);
    OlderLeftIsCut(S, M, v, level, inputs0, inputs1, input, m, i, e);
  }

  lemma UncoveredEntry(S: set<Entry>, D: set<Entry>, m: Sequence, d: Entry) returns (e: Entry)
    requires Uncovers(S, D, m, d) && d in D
    ensures e in S && e !in D && e.key.user == d.key.user && e.key.sn < d.key.sn <= m && !Shadowed(S, m, d)
  {
    e :| IsNewest(S - D, d.key.user, m, e) && e.key.kind.Value?;
  }

  lemma DroppedAt(input: seq<Entry>, v: Version, level: nat, m: Sequence, d: Entry) returns (i: nat)
    requires |v| == NUM_LEVELS && d in DroppedSet(input, v, level, m)
    ensures i < |input| && input[i] == d
  {
    hide Dropped;
    i :| 0 <= i < |input| && input[i] == d && Dropped(input, v, level, m, i);
  }

  lemma OlderLeftIsCut(S: set<Entry>, M: set<Entry>, v: Version, level: nat, inputs0: seq<File>,
                       inputs1: seq<File>, input: seq<Entry>, m: Sequence, i: nat, e: Entry)
    requires CompactionFacts(S, M, v, level, inputs0, inputs1, input)
    requires |v| == NUM_LEVELS && i < |input| && ObsoleteMarker(v, level, m, input[i]) && input[i].key.sn <= m
    requires e in S && e !in DroppedSet(input, v, level, m)
    requires e.key.user == input[i].key.user && e.key.sn < input[i].key.sn
    ensures level + 1 < NUM_LEVELS && IsCut(v, level, inputs0, inputs1, e.key.user)
  {
    var d := input[i];
    FactsParts(S, M, v, level, inputs0, inputs1, input);
    MarkerParts(v, level, m, d);
    assert d in Elements(input);
    hide *;
    OnlyVersionIsOlder(S, M, v, level, inputs0, inputs1, input, d, e);
    var l, f := LevelOfEntry(v, e);
    DeepIsClear(v, level, l, f, e);
    if e in Elements(input) {
      FollowersAreHidden(input, v, level, m, i, e);
    } else {
      if l == level && f in inputs0 {
        EntryOfFile(inputs0, f, e);
      } else if l == level + 1 && f in inputs1 {
        EntryOfFile(inputs1, f, e);
      } else {
        StayingOlderIsCut(v, level, inputs0, inputs1, l, f, d, e);
      }
    }
  }

  // ---------------------------------------------------------------- the same, told from the files

  /** What stays in the two levels of a compaction. */
  ghost function LeftBehind(v: Version, level: nat, inputs0: seq<File>, inputs1: seq<File>): set<Entry>
    requires |v| == NUM_LEVELS && level + 1 < NUM_LEVELS
  {
    Contents(Others(v[level], inputs0)) + Contents(Others(v[level + 1], inputs1))
  }

  /** Position `i` is the newest input entry of `u` at `m`. */
  ghost predicate FirstVisible(input: seq<Entry>, u: UserKey, m: Sequence, i: nat) {
    && i < |input| && Visible(input[i], u, m)
    && forall k :: 0 <= k < i ==> !Visible(input[k], u, m)
  }

  /**
  The newest entry of `u` at `m` in the whole store is an input and a deletion that rule B drops, and
  the newest one that stays in the two levels is a value.
   */
  ghost predicate BringsBack(S: set<Entry>, v: Version, level: nat, inputs0: seq<File>, inputs1: seq<File>,
                             input: seq<Entry>, m: Sequence, u: UserKey)
    requires |v| == NUM_LEVELS && level + 1 < NUM_LEVELS
  {
    exists i: nat, e: Entry ::
      && FirstVisible(input, u, m, i) && ObsoleteMarker(v, level, m, input[i]) && IsNewest(S, u, m, input[i])
      && IsNewest(LeftBehind(v, level, inputs0, inputs1), u, m, e) && e.key.kind.Value?
  }

  lemma BehindIs(v: Version, level: nat, inputs0: seq<File>, inputs1: seq<File>, l: nat, f: File, e: Entry)
    requires |v| == NUM_LEVELS && level + 1 < NUM_LEVELS && (l == level || l == level + 1)
    requires f in v[l] && e in f.entries && f !in if l == level then inputs0 else inputs1
    ensures e in LeftBehind(v, level, inputs0, inputs1)
  {
    assert f in Others(v[l], if l == level then inputs0 else inputs1);
  }

  lemma FileOfBehind(v: Version, level: nat, inputs0: seq<File>, inputs1: seq<File>, e: Entry) returns (l: nat, f: File)
    requires |v| == NUM_LEVELS && level + 1 < NUM_LEVELS && e in LeftBehind(v, level, inputs0, inputs1)
    ensures (l == level || l == level + 1) && f in v[l] && e in f.entries
    ensures f !in if l == level then inputs0 else inputs1
  {
    if e in Contents(Others(v[level], inputs0)) {
      l := level;
      f :| f in Others(v[level], inputs0) && e in f.entries;
    } else {
      l := level + 1;
      f :| f in Others(v[level + 1], inputs1) && e in f.entries;
    }
  }

  /** What stays is stored and is no input. */
  lemma BehindIsKept(S: set<Entry>, M: set<Entry>, v: Version, level: nat, inputs0: seq<File>,
                     inputs1: seq<File>, input: seq<Entry>, m: Sequence, e: Entry)
    requires CompactionFacts(S, M, v, level, inputs0, inputs1, input) && |v| == NUM_LEVELS && level + 1 < NUM_LEVELS
    requires e in LeftBehind(v, level, inputs0, inputs1)
    ensures e in S - DroppedSet(input, v, level, m)
  {
    hide *;
    FactsParts(S, M, v, level, inputs0, inputs1, input);
    ChosenParts(v, level, inputs0, inputs1);
    var l, f := FileOfBehind(v, level, inputs0, inputs1, e);
    NotInInputs(v, level, inputs0, l, f, e);
    NotInInputs(v, level + 1, inputs1, l, f, e);
    EntryOfFile(v[l], f, e);
    StoredIs(S, M, v, level, inputs0, inputs1, input, l, e);
    DroppedIsInput(input, v, level, m);
  }

  lemma StoredIs(S: set<Entry>, M: set<Entry>, v: Version, level: nat, inputs0: seq<File>,
                 inputs1: seq<File>, input: seq<Entry>, l: nat, e: Entry)
    requires CompactionFacts(S, M, v, level, inputs0, inputs1, input) && l < |v| && e in LevelSet(v[l])
    ensures e in S
  {
    assert v[l] in v;
  }

  lemma DroppedIsInput(input: seq<Entry>, v: Version, level: nat, m: Sequence)
    requires |v| == NUM_LEVELS
    ensures DroppedSet(input, v, level, m) <= Elements(input)
  {
  }

  /** Below a deletion at its base level, only what stays in the two levels is kept. */
  lemma OlderKeptIsBehind(S: set<Entry>, M: set<Entry>, v: Version, level: nat, inputs0: seq<File>,
                          inputs1: seq<File>, input: seq<Entry>, m: Sequence, i: nat, e: Entry)
    requires CompactionFacts(S, M, v, level, inputs0, inputs1, input)
    requires |v| == NUM_LEVELS && i < |input| && ObsoleteMarker(v, level, m, input[i])
    requires e in S && e !in DroppedSet(input, v, level, m)
    requires e.key.user == input[i].key.user && e.key.sn < input[i].key.sn
    ensures level + 1 < NUM_LEVELS && e in LeftBehind(v, level, inputs0, inputs1)
  {
    var d := input[i];
    FactsParts(S, M, v, level, inputs0, inputs1, input);
    MarkerParts(v, level, m, d);
    assert d in Elements(input);
    hide *;
    ChosenParts(v, level, inputs0, inputs1);
    OnlyVersionIsOlder(S, M, v, level, inputs0, inputs1, input, d, e);
    var l, f := LevelOfEntry(v, e);
    DeepIsClear(v, level, l, f, e);
    EntryOfFile(v[l], f, e);
    if e in Elements(input) {
      FollowersAreHidden(input, v, level, m, i, e);
    } else if l < level {
      NotAbove(v, level, inputs0, inputs1, l, d, e);
    } else {
      if l == level && f in inputs0 {
        EntryOfFile(inputs0, f, e);
      } else if l == level + 1 && f in inputs1 {
        EntryOfFile(inputs1, f, e);
      } else {
        BehindIs(v, level, inputs0, inputs1, l, f, e);
      }
    }
  }

  lemma NotAbove(v: Version, level: nat, inputs0: seq<File>, inputs1: seq<File>, l: nat, d: Entry, e: Entry)
    requires LevelsByAge(v) && |v| == NUM_LEVELS && level + 1 < NUM_LEVELS && l < level
    requires forall f :: f in inputs0 ==> f in v[level]
    requires forall f :: f in inputs1 ==> f in v[level + 1]
    requires d in LevelSet(inputs0) + LevelSet(inputs1) && e in LevelSet(v[l]) && e.key.user == d.key.user
    ensures e.key.sn > d.key.sn
  {
    var next := level + 1;
    hide LevelsByAge, LevelSet;
    if d in LevelSet(inputs0) {
      SubsetOfLevel(v[level], inputs0, d);
      AgeOfLevels(v, l, level, e, d);
    } else {
      SubsetOfLevel(v[next], inputs1, d);
      AgeOfLevels(v, l, next, e, d);
    }
  }

  lemma EarlierIsNewer(input: seq<Entry>, k: nat, i: nat)
    requires Sorted(input) && k < i < |input| && input[k].key.user == input[i].key.user
    ensures input[k].key.sn >= input[i].key.sn
  {
    assert Less(input[k].key, input[i].key);
  }

  /** What a dropped deletion uncovers can be seen from the files before the compaction. */
  lemma UncoveredIsBroughtBack(S: set<Entry>, M: set<Entry>, v: Version, level: nat, inputs0: seq<File>,
                               inputs1: seq<File>, input: seq<Entry>, m: Sequence, d: Entry)
    requires CompactionFacts(S, M, v, level, inputs0, inputs1, input)
    requires |v| == NUM_LEVELS && level + 1 < NUM_LEVELS && d in DroppedSet(input, v, level, m)
    requires Uncovers(S, DroppedSet(input, v, level, m), m, d)
    ensures BringsBack(S, v, level, inputs0, inputs1, input, m, d.key.user)
  {
    var D, B := DroppedSet(input, v, level, m), LeftBehind(v, level, inputs0, inputs1);
    var u := d.key.user;
    var e :| IsNewest(S - D, u, m, e) && e.key.kind.Value?;
    assert IsNewest(S, u, m, d);
    hide *;
    var i := DroppedAt(input, v, level, m, d);
    var _ := UncoveredEntry(S, D, m, d);
    DropsAreExplained(S, M, v, level, inputs0, inputs1, input, m, d);
    NewestIsFirst(S, M, v, level, inputs0, inputs1, input, m, i);
    NewestIsOlder(S, D, u, m, d, e);
    OlderKeptIsBehind(S, M, v, level, inputs0, inputs1, input, m, i, e);
    forall o | o in B
      ensures o in S - D
    {
      BehindIsKept(S, M, v, level, inputs0, inputs1, input, m, o);
    }
    NewestOfFewer(S - D, B, u, m, e);
    PackBringsBack(S, v, level, inputs0, inputs1, input, m, u, i, e);
  }

  lemma NewestIsOlder(S: set<Entry>, D: set<Entry>, u: UserKey, m: Sequence, d: Entry, e: Entry)
    requires IsNewest(S, u, m, d) && d in D && IsNewest(S - D, u, m, e)
    ensures e in S && e !in D && e.key.user == d.key.user && e.key.sn < d.key.sn
  {
  }

  lemma NewestOfFewer(A: set<Entry>, B: set<Entry>, u: UserKey, m: Sequence, e: Entry)
    requires IsNewest(A, u, m, e) && e in B && forall o :: o in B ==> o in A
    ensures IsNewest(B, u, m, e)
  {
  }

  lemma PackBringsBack(S: set<Entry>, v: Version, level: nat, inputs0: seq<File>, inputs1: seq<File>,
                       input: seq<Entry>, m: Sequence, u: UserKey, i: nat, e: Entry)
    requires |v| == NUM_LEVELS && level + 1 < NUM_LEVELS && FirstVisible(input, u, m, i) && i < |input|
    requires ObsoleteMarker(v, level, m, input[i]) && IsNewest(S, u, m, input[i])
    requires IsNewest(LeftBehind(v, level, inputs0, inputs1), u, m, e) && e.key.kind.Value?
    ensures BringsBack(S, v, level, inputs0, inputs1, input, m, u)
  {
    hide FirstVisible, ObsoleteMarker, IsNewest, LeftBehind;
  }

  lemma NewestIsFirst(S: set<Entry>, M: set<Entry>, v: Version, level: nat, inputs0: seq<File>,
                      inputs1: seq<File>, input: seq<Entry>, m: Sequence, i: nat)
    requires CompactionFacts(S, M, v, level, inputs0, inputs1, input)
    requires i < |input| && IsNewest(S, input[i].key.user, m, input[i])
    ensures FirstVisible(input, input[i].key.user, m, i)
  {
    FactsParts(S, M, v, level, inputs0, inputs1, input);
    ChosenParts(v, level, inputs0, inputs1);
    InputInVersion(v, level, inputs0, inputs1);
    assert Elements(input) <= S;
    hide CompactionFacts, Chosen, ValidVersion, LevelsByAge, GoodPick, ValidInputs, VersionSet, LevelSet;
    forall k | 0 <= k < i
      ensures !Visible(input[k], input[i].key.user, m)
    {
      assert input[k] in Elements(input) && Less(input[k].key, input[i].key);
      if input[k].key.user == input[i].key.user {
        EarlierIsNewer(input, k, i);
      }
    }
  }

  /** And the other way round. */
  lemma BroughtBackIsUncovered(S: set<Entry>, M: set<Entry>, v: Version, level: nat, inputs0: seq<File>,
                               inputs1: seq<File>, input: seq<Entry>, m: Sequence, u: UserKey) returns (d: Entry)
    requires CompactionFacts(S, M, v, level, inputs0, inputs1, input)
    requires |v| == NUM_LEVELS && level + 1 < NUM_LEVELS
    requires BringsBack(S, v, level, inputs0, inputs1, input, m, u)
    ensures d in DroppedSet(input, v, level, m) && d.key.user == u
    ensures Uncovers(S, DroppedSet(input, v, level, m), m, d)
  {
    hide *;
    var D, B := DroppedSet(input, v, level, m), LeftBehind(v, level, inputs0, inputs1);
    var i, e := BringsBackParts(S, v, level, inputs0, inputs1, input, m, u);
    d := input[i];
    MarkerIsDropped(input, v, level, m, i);
    NewestParts(B, u, m, e);
    BehindIsKept(S, M, v, level, inputs0, inputs1, input, m, e);
    forall o | o in S - D && Visible(o, u, m) && o != e
      ensures o.key.sn < e.key.sn
    {
      OlderThanNewest(S, u, m, d, o);
      OlderKeptIsBehind(S, M, v, level, inputs0, inputs1, input, m, i, o);
      OlderThanNewest(B, u, m, e, o);
    }
    PackUncovers(S, D, m, d, e);
  }

  /** A compaction changes no read exactly if it brings back the value of no user key that its inputs cut. */
  lemma UncoversIff(S: set<Entry>, M: set<Entry>, v: Version, level: nat, inputs0: seq<File>,
                    inputs1: seq<File>, input: seq<Entry>, m: Sequence)
    requires CompactionFacts(S, M, v, level, inputs0, inputs1, input) && |v| == NUM_LEVELS && level + 1 < NUM_LEVELS
    ensures var D := DroppedSet(input, v, level, m);
            (forall d :: d in D ==> !Uncovers(S, D, m, d))
            <==> forall u :: IsCut(v, level, inputs0, inputs1, u) ==>
                   !BringsBack(S, v, level, inputs0, inputs1, input, m, u)
  {
    hide *;
    var D := DroppedSet(input, v, level, m);
    if d :| d in D && Uncovers(S, D, m, d) {
      UncoveredIsCut(S, M, v, level, inputs0, inputs1, input, m, d);
      UncoveredIsBroughtBack(S, M, v, level, inputs0, inputs1, input, m, d);
    } else if u :| IsCut(v, level, inputs0, inputs1, u) && BringsBack(S, v, level, inputs0, inputs1, input, m, u) {
      var d := BroughtBackIsUncovered(S, M, v, level, inputs0, inputs1, input, m, u);
    }
  }

  lemma BringsBackParts(S: set<Entry>, v: Version, level: nat, inputs0: seq<File>, inputs1: seq<File>,
                        input: seq<Entry>, m: Sequence, u: UserKey) returns (i: nat, e: Entry)
    requires |v| == NUM_LEVELS && level + 1 < NUM_LEVELS && BringsBack(S, v, level, inputs0, inputs1, input, m, u)
    ensures i < |input| && Visible(input[i], u, m) && input[i].key.user == u
    ensures ObsoleteMarker(v, level, m, input[i]) && IsNewest(S, u, m, input[i])
    ensures IsNewest(LeftBehind(v, level, inputs0, inputs1), u, m, e) && e.key.kind.Value?
  {
    hide ObsoleteMarker, IsNewest, LeftBehind;
    i, e :| && FirstVisible(input, u, m, i) && ObsoleteMarker(v, level, m, input[i]) && IsNewest(S, u, m, input[i])
            && IsNewest(LeftBehind(v, level, inputs0, inputs1), u, m, e) && e.key.kind.Value?;
  }

  lemma MarkerIsDropped(input: seq<Entry>, v: Version, level: nat, m: Sequence, i: nat)
    requires |v| == NUM_LEVELS && i < |input| && ObsoleteMarker(v, level, m, input[i])
    ensures input[i] in DroppedSet(input, v, level, m)
  {
    assert Dropped(input, v, level, m, i);
  }

  lemma NewestParts(S: set<Entry>, u: UserKey, m: Sequence, e: Entry)
    requires IsNewest(S, u, m, e)
    ensures e in S && Visible(e, u, m) && e.key.user == u
  {
  }

  lemma OlderThanNewest(S: set<Entry>, u: UserKey, m: Sequence, d: Entry, o: Entry)
    requires IsNewest(S, u, m, d) && o in S && Visible(o, u, m) && o != d
    ensures o.key.sn < d.key.sn && o.key.user == d.key.user == u
  {
  }

  lemma PackUncovers(S: set<Entry>, D: set<Entry>, m: Sequence, d: Entry, e: Entry)
    requires IsNewest(S, d.key.user, m, d) && e in S - D && Visible(e, d.key.user, m) && e.key.kind.Value?
    requires forall o :: o in S - D && Visible(o, d.key.user, m) && o != e ==> o.key.sn < e.key.sn
    ensures Uncovers(S, D, m, d)
  {
    assert IsNewest(S - D, d.key.user, m, e);
  }

  lemma FactsParts(S: set<Entry>, M: set<Entry>, v: Version, level: nat, inputs0: seq<File>,
                   inputs1: seq<File>, input: seq<Entry>)
    requires CompactionFacts(S, M, v, level, inputs0, inputs1, input)
    ensures Chosen(v, level, inputs0, inputs1) && ValidVersion(v) && |v| == NUM_LEVELS && level + 1 < NUM_LEVELS
    ensures Sorted(input) && Elements(input) == LevelSet(inputs0) + LevelSet(inputs1)
    ensures UniqueSequences(VersionSet(v))
  {
  }

  lemma MarkerParts(v: Version, level: nat, m: Sequence, d: Entry)
    requires |v| == NUM_LEVELS && ObsoleteMarker(v, level, m, d)
    ensures BaseLevel(v, level, d.key.user) && d.key.sn <= m
  {
  }

  // ---------------------------------------------------------------- when levels stay ordered by age

  /** The newest entry of `u` among the inputs is a deletion that rule B drops. */
  ghost predicate KeyIsGone(input: seq<Entry>, v: Version, level: nat, m: Sequence, u: UserKey)
    requires |v| == NUM_LEVELS
  {
    exists i :: 0 <= i < |input| && input[i].key.user == u && (i == 0 || input[i - 1].key.user != u)
                && ObsoleteMarker(v, level, m, input[i])
  }

  /** Nothing comes down that is newer than what stays. */
  ghost predicate AgeSafe(v: Version, level: nat, inputs0: seq<File>, input: seq<Entry>, m: Sequence)
    requires |v| == NUM_LEVELS && level + 1 < NUM_LEVELS
  {
    || level == 0
    || !EndsInCut(v[level], inputs0)
    || (|inputs0| > 0 && KeyIsGone(input, v, level, m, EndKey(inputs0)))
  }

  /** The first entry of a user key that has one in the input. */
  lemma FirstOfKey(input: seq<Entry>, x: Entry) returns (i: nat)
    requires Sorted(input) && x in Elements(input)
    ensures i < |input| && input[i].key.user == x.key.user && (i == 0 || input[i - 1].key.user != x.key.user)
    ensures input[i] == x || Less(input[i].key, x.key)
  {
    var k :| 0 <= k < |input| && input[k] == x;
    i := k;
    while i > 0 && input[i - 1].key.user == x.key.user
      invariant 0 <= i <= k && input[i].key.user == x.key.user
      decreases i
    {
      i := i - 1;
    }
  }

  /** All versions of a user key are dropped exactly if rule B drops the newest of them. */
  lemma GoneIffMarker(input: seq<Entry>, v: Version, level: nat, m: Sequence, x: Entry)
    requires |v| == NUM_LEVELS && Sorted(input) && UniqueSequences(Elements(input)) && x in Elements(input)
    ensures KeyIsGone(input, v, level, m, x.key.user)
            <==> forall e :: e in Elements(input) && e.key.user == x.key.user ==> e in DroppedSet(input, v, level, m)
  {
    var u := x.key.user;
    if KeyIsGone(input, v, level, m, u) {
      var i :| 0 <= i < |input| && input[i].key.user == u && (i == 0 || input[i - 1].key.user != u)
               && ObsoleteMarker(v, level, m, input[i]);
      forall e | e in Elements(input) && e.key.user == u
        ensures e in DroppedSet(input, v, level, m)
      {
        MarkerTakesAll(input, v, level, m, i, e);
      }
    } else {
      var i := FirstOfKey(input, x);
      assert input[i] in Elements(input);
      FirstIsKept(input, v, level, m, i);
    }
  }

  lemma FirstIsKept(input: seq<Entry>, v: Version, level: nat, m: Sequence, i: nat)
    requires |v| == NUM_LEVELS && Sorted(input) && i < |input|
    requires i == 0 || input[i - 1].key.user != input[i].key.user
    requires !KeyIsGone(input, v, level, m, input[i].key.user)
    ensures input[i] !in DroppedSet(input, v, level, m)
  {
    hide ObsoleteMarker;
    assert !ObsoleteMarker(v, level, m, input[i]);
    NotDropped(input, v, level, m, i);
  }

  lemma UsersOrdered(input: seq<Entry>, j: nat, k: nat)
    requires Sorted(input) && j <= k < |input|
    ensures input[j].key.user <= input[k].key.user
  {
    if j < k {
      assert Less(input[j].key, input[k].key);
    }
  }

  lemma NotBeforeFirst(input: seq<Entry>, i: nat, k: nat)
    requires Sorted(input) && i < |input| && k < |input| && input[k].key.user == input[i].key.user
    requires i == 0 || input[i - 1].key.user != input[i].key.user
    ensures i <= k
  {
    hide Sorted;
    if k < i {
      UsersOrdered(input, k, i - 1);
      UsersOrdered(input, i - 1, i);
    }
  }

  lemma NotDropped(input: seq<Entry>, v: Version, level: nat, m: Sequence, i: nat)
    requires |v| == NUM_LEVELS && Sorted(input) && i < |input| && !Dropped(input, v, level, m, i)
    ensures input[i] !in DroppedSet(input, v, level, m)
  {
    assert forall j :: 0 <= j < |input| && input[j] == input[i] ==> j == i;
  }

  lemma MarkerTakesAll(input: seq<Entry>, v: Version, level: nat, m: Sequence, i: nat, e: Entry)
    requires |v| == NUM_LEVELS && Sorted(input) && UniqueSequences(Elements(input))
    requires i < |input| && (i == 0 || input[i - 1].key.user != input[i].key.user)
    requires ObsoleteMarker(v, level, m, input[i])
    requires e in Elements(input) && e.key.user == input[i].key.user
    ensures e in DroppedSet(input, v, level, m)
  {
    var k :| 0 <= k < |input| && input[k] == e;
    assert input[i] in Elements(input);
    NotBeforeFirst(input, i, k);
    if k == i {
      assert Dropped(input, v, level, m, i);
    } else {
      assert Less(input[i].key, input[k].key);
      FollowersAreHidden(input, v, level, m, i, e);
    }
  }

  /** Levels stay ordered by age if and only if a key cut at the end of the upper run is gone altogether. */
  lemma AgeKeptIff(v: Version, level: nat, inputs0: seq<File>, inputs1: seq<File>, input: seq<Entry>,
                   m: Sequence, out: seq<File>)
    requires Chosen(v, level, inputs0, inputs1) && UniqueSequences(VersionSet(v)) && |v| == NUM_LEVELS
    requires Sorted(input) && Elements(input) == LevelSet(inputs0) + LevelSet(inputs1)
    requires LevelSet(out) == Elements(input) - DroppedSet(input, v, level, m)
    ensures level + 1 < NUM_LEVELS && (MovedIsOlder(v[level], inputs0, out) <==> AgeSafe(v, level, inputs0, input, m))
  {
    ChosenParts(v, level, inputs0, inputs1);
    InputInVersion(v, level, inputs0, inputs1);
    UniqueInput(v, level, inputs0, inputs1, input);
    hide *;
    if level == 0 {
      ClosedIsOlder(v, inputs0, out);
      AgeSafeAtZero(v, inputs0, input, m);
    } else {
      var lo, hi := UpperRun(v, level, inputs0);
      RunAgeIff(v, level, inputs0, inputs1, input, m, out, lo, hi);
    }
  }

  /** Of a user key in the upper inputs, only other upper inputs can be newer. */
  lemma NewerIsUpper(v: Version, level: nat, inputs0: seq<File>, inputs1: seq<File>, input: seq<Entry>, x: Entry)
    requires LevelsByAge(v) && level + 1 < |v| && Elements(input) == LevelSet(inputs0) + LevelSet(inputs1)
    requires LevelSet(inputs0) <= LevelSet(v[level]) && LevelSet(inputs1) <= LevelSet(v[level + 1])
    requires x in LevelSet(inputs0)
    ensures forall e :: e in Elements(input) && e.key.user == x.key.user && e.key.sn >= x.key.sn ==> e in LevelSet(inputs0)
  {
    assert Newer(LevelSet(v[level]), LevelSet(v[level + 1]));
  }

  lemma UniqueInput(v: Version, level: nat, inputs0: seq<File>, inputs1: seq<File>, input: seq<Entry>)
    requires UniqueSequences(VersionSet(v)) && Elements(input) == LevelSet(inputs0) + LevelSet(inputs1)
    requires LevelSet(inputs0) <= VersionSet(v) && LevelSet(inputs1) <= VersionSet(v)
    ensures UniqueSequences(Elements(input))
  {
  }

  lemma ClosedIsOlder(v: Version, inputs0: seq<File>, out: seq<File>)
    requires ValidVersion(v) && GoodPick(v, 0, inputs0)
    ensures MovedIsOlder(v[0], inputs0, out)
  {
    var reach :| Closed(v[0], reach) && inputs0 == Overlapping(v[0], reach);
    ClosedLeavesNoOlder(v[0], reach);
  }

  lemma AgeSafeAtZero(v: Version, inputs0: seq<File>, input: seq<Entry>, m: Sequence)
    requires |v| == NUM_LEVELS
    ensures AgeSafe(v, 0, inputs0, input, m)
  {
  }

  lemma UpperRun(v: Version, level: nat, inputs0: seq<File>) returns (lo: nat, hi: nat)
    requires ValidVersion(v) && 0 < level && level + 1 < NUM_LEVELS && GoodPick(v, level, inputs0)
    ensures IsRun(v[level], inputs0, lo, hi) && ValidFiles(v[level]) && SortedLevel(v[level])
  {
    lo, hi :| IsRun(v[level], inputs0, lo, hi);
  }

  lemma RunAgeIff(v: Version, level: nat, inputs0: seq<File>, inputs1: seq<File>, input: seq<Entry>,
                  m: Sequence, out: seq<File>, lo: nat, hi: nat)
    requires |v| == NUM_LEVELS && 0 < level && level + 1 < NUM_LEVELS && ValidVersion(v)
    requires UniqueSequences(VersionSet(v)) && UniqueSequences(Elements(input))
    requires ValidFiles(v[level]) && SortedLevel(v[level]) && IsRun(v[level], inputs0, lo, hi)
    requires Sorted(input) && Elements(input) == LevelSet(inputs0) + LevelSet(inputs1) && LevelsByAge(v)
    requires LevelSet(inputs0) <= LevelSet(v[level]) && LevelSet(inputs1) <= LevelSet(v[level + 1])
    requires LevelSet(out) == Elements(input) - DroppedSet(input, v, level, m)
    ensures MovedIsOlder(v[level], inputs0, out) <==> AgeSafe(v, level, inputs0, input, m)
  {
    var files := v[level];
    hide *;
    UniqueLevels(v, level);
    CutIffStraddles(files, inputs0, lo, hi);
    RunEnd(files, inputs0, lo, hi);
    var x := LastOfRun(files, inputs0, lo, hi);
    GoneIffMarker(input, v, level, m, x);
    NewerIsUpper(v, level, inputs0, inputs1, input, x);
    AgeSafeIs(v, level, inputs0, input, m);
    if !Straddles(files, hi) {
      UncutRunIsOlder(files, inputs0, lo, hi, out);
    } else if KeyIsGone(input, v, level, m, x.key.user) {
      GoneRunIsOlder(files, inputs0, lo, hi, out, Elements(input), x.key.user);
    } else {
      CutRunIsNewer(files, inputs0, lo, hi, out, input, v, level, m, x);
    }
  }

  lemma AgeSafeIs(v: Version, level: nat, inputs0: seq<File>, input: seq<Entry>, m: Sequence)
    requires |v| == NUM_LEVELS && 0 < level && level + 1 < NUM_LEVELS && |inputs0| > 0
    ensures AgeSafe(v, level, inputs0, input, m)
            <==> (EndsInCut(v[level], inputs0) ==> KeyIsGone(input, v, level, m, EndKey(inputs0)))
  {
  }

  /** The last entry of the last file of a run. */
  lemma LastOfRun(files: Level, inputs: seq<File>, lo: nat, hi: nat) returns (x: Entry)
    requires ValidFiles(files) && IsRun(files, inputs, lo, hi)
    ensures x in files[hi - 1].entries && x.key == files[hi - 1].largest && x in LevelSet(inputs)
    ensures |inputs| > 0 && x.key.user == EndKey(inputs)
  {
    var f := files[hi - 1];
    x := f.entries[|f.entries| - 1];
    assert inputs[hi - 1 - lo] == f && f in inputs;
  }

  lemma UncutRunIsOlder(files: Level, inputs: seq<File>, lo: nat, hi: nat, out: seq<File>)
    requires ValidFiles(files) && SortedLevel(files) && UniqueSequences(LevelSet(files))
    requires IsRun(files, inputs, lo, hi) && !Straddles(files, hi)
    ensures MovedIsOlder(files, inputs, out)
  {
    RunLeavesNoOlder(files, lo, hi);
  }

  lemma GoneRunIsOlder(files: Level, inputs: seq<File>, lo: nat, hi: nat, out: seq<File>, all: set<Entry>, u: UserKey)
    requires ValidFiles(files) && SortedLevel(files) && UniqueSequences(LevelSet(files))
    requires IsRun(files, inputs, lo, hi) && u == files[hi - 1].largest.user
    requires LevelSet(out) <= all && forall e :: e in all && e.key.user == u ==> e !in LevelSet(out)
    ensures MovedIsOlder(files, inputs, out)
  {
    forall a, b | a in Contents(Others(files, inputs)) && b in LevelSet(out) * LevelSet(inputs) && a.key.user == b.key.user
      ensures a.key.sn > b.key.sn
    {
      var g :| g in Others(files, inputs) && a in g.entries;
      assert g in files && g !in inputs && b.key.user != u;
      hide *;
      BesideRun(files, inputs, lo, hi, g, b, a);
    }
  }

  lemma CutRunIsNewer(files: Level, inputs: seq<File>, lo: nat, hi: nat, out: seq<File>, input: seq<Entry>,
                      v: Version, level: nat, m: Sequence, x: Entry)
    requires ValidFiles(files) && SortedLevel(files) && IsRun(files, inputs, lo, hi) && Straddles(files, hi)
    requires |v| == NUM_LEVELS && Sorted(input) && LevelSet(inputs) <= Elements(input)
    requires LevelSet(out) == Elements(input) - DroppedSet(input, v, level, m)
    requires x in LevelSet(inputs) && x.key == files[hi - 1].largest
    requires !KeyIsGone(input, v, level, m, x.key.user)
    requires forall e :: e in Elements(input) && e.key.user == x.key.user && e.key.sn >= x.key.sn ==> e in LevelSet(inputs)
    ensures !MovedIsOlder(files, inputs, out)
  {
    var i := FirstOfKey(input, x);
    var b := input[i];
    assert b in Elements(input);
    FirstIsKept(input, v, level, m, i);
    assert b in LevelSet(out) && b in LevelSet(inputs);
    var g := files[hi];
    var a := g.entries[0];
    NextIsOutside(files, lo, hi);
    assert g in Others(files, inputs) && a in g.entries;
    assert a in Contents(Others(files, inputs));
    assert Less(files[hi - 1].largest, g.smallest);
    assert a.key.user == b.key.user && a.key.sn <= b.key.sn;
  }
}
