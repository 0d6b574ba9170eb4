/**
One compaction from picking its inputs to writing its outputs
(util/leveldb/db/version_set.cc, class Compaction and VersionSet::SetupOtherInputs;
util/leveldb/db/db_impl.cc, DBImpl::DoCompactionWork).
 */
module CompactionJob {
  import opened Common
  import opened Keys
  import opened Versions
  import opened Inputs
  import opened Compactions
  import opened Cuts
  import opened OutputCuts

  /** The files two levels down that meet the range of all inputs. */
  ghost predicate AreGrandparents(files: seq<File>, v: Version, level: nat, inputs: seq<File>)
    requires |v| == NUM_LEVELS
  {
    if level + 2 < NUM_LEVELS then
      exists s, l :: IsRange(inputs, s, l) && files == Overlapping(v[level + 2], Span(s.user, l.user))
    else files == []
  }

  /**
  The final inputs hold the picked files and exactly the next level's files that meet them.  More
  files of this level are taken only within the byte limit and if the picked files alone would
  have met the same files of the next level.
   */
  ghost predicate ChosenFrom(v: Version, level: nat, picked: seq<File>, inputs0: seq<File>, inputs1: seq<File>)
    requires |v| == NUM_LEVELS && level + 1 < NUM_LEVELS
  {
    && GoodPick(v, level, inputs0)
    && ValidInputs(v, level, inputs0, inputs1)
    && ValidInputs(v, level, picked, inputs1)
    && (forall f :: f in picked ==> f in inputs0)
    && (inputs0 != picked ==>
          && |inputs0| > |picked|
          && TotalFileSize(inputs1) + TotalFileSize(inputs0) < EXPANDED_COMPACTION_BYTE_LIMIT)
  }

  /** `expanded` is what an overlap query of this level finds for the range of all inputs. */
  ghost predicate IsExpansion(v: Version, level: nat, inputs0: seq<File>, inputs1: seq<File>, expanded: seq<File>)
    requires level < |v|
  {
    exists s, l, reach :: IsRange(inputs0 + inputs1, s, l) && Reached(level, v[level], Span(s.user, l.user), reach)
                          && expanded == Overlapping(v[level], reach)
  }

  ghost predicate Reached(level: nat, files: seq<File>, r: Range, reach: Range) {
    if level == 0 then IsClosure(files, r, reach) else reach == r
  }

  lemma ReachCovers(level: nat, files: seq<File>, r: Range, reach: Range)
    requires Reached(level, files, r, reach)
    ensures Covers(reach, r)
  {
  }

  /** An expansion pays if it has more files, fits the byte limit and needs the same next-level files. */
  ghost predicate Pays(v: Version, level: nat, picked: seq<File>, inputs1: seq<File>, expanded: seq<File>)
    requires |v| == NUM_LEVELS && level + 1 < NUM_LEVELS
  {
    && |expanded| > |picked|
    && TotalFileSize(inputs1) + TotalFileSize(expanded) < EXPANDED_COMPACTION_BYTE_LIMIT
    && ValidInputs(v, level, expanded, inputs1)
  }

  /** The expansion is adopted exactly if it pays. */
  ghost predicate BestInputs(v: Version, level: nat, picked: seq<File>, inputs0: seq<File>, inputs1: seq<File>)
    requires |v| == NUM_LEVELS && level + 1 < NUM_LEVELS
  {
    if inputs1 == [] then inputs0 == picked
    else exists e :: IsExpansion(v, level, picked, inputs1, e)
                     && inputs0 == if Pays(v, level, picked, inputs1, e) then e else picked
  }

  lemma ExpansionDecides(v: Version, level: nat, picked: seq<File>, inputs0: seq<File>, inputs1: seq<File>, e: seq<File>)
    requires |v| == NUM_LEVELS && level + 1 < NUM_LEVELS && inputs1 != []
    requires IsExpansion(v, level, picked, inputs1, e)
    requires inputs0 == if Pays(v, level, picked, inputs1, e) then e else picked
    ensures BestInputs(v, level, picked, inputs0, inputs1)
  {
  }

  lemma OtherNextLevel(v: Version, level: nat, e: seq<File>, inputs1: seq<File>, s: InternalKey, l: InternalKey)
    requires |v| == NUM_LEVELS && level + 1 < NUM_LEVELS && IsRange(e, s, l)
    requires |Overlapping(v[level + 1], Span(s.user, l.user))| != |inputs1|
    ensures !ValidInputs(v, level, e, inputs1)
  {
    hide IsRange, Overlapping;
    if ValidInputs(v, level, e, inputs1) {
      var s', l' :| IsRange(e, s', l') && inputs1 == Overlapping(v[level + 1], Span(s'.user, l'.user));
      RangeIsUnique(e, s, l, s', l');
    }
  }

  lemma DoesNotPay(v: Version, level: nat, picked: seq<File>, inputs1: seq<File>, e: seq<File>)
    requires |v| == NUM_LEVELS && level + 1 < NUM_LEVELS
    requires || |e| <= |picked|
             || TotalFileSize(inputs1) + TotalFileSize(e) >= EXPANDED_COMPACTION_BYTE_LIMIT
             || !ValidInputs(v, level, e, inputs1)
    ensures !Pays(v, level, picked, inputs1, e)
  {
  }

  lemma NextLevelInputs(v: Version, level: nat, inputs0: seq<File>, s: InternalKey, l: InternalKey)
    requires |v| == NUM_LEVELS && level + 1 < NUM_LEVELS
    requires GoodPick(v, level, inputs0) && IsRange(inputs0, s, l)
    ensures ValidInputs(v, level, inputs0, Overlapping(v[level + 1], Span(s.user, l.user)))
  {
  }

  /** The equal-size test of an expansion accepts only the same files of the next level. */
  lemma EqualSizeIsEqual(v: Version, level: nat, picked: seq<File>, expanded: seq<File>, s: InternalKey,
                         l: InternalKey, s': InternalKey, l': InternalKey)
    requires |v| == NUM_LEVELS && level + 1 < NUM_LEVELS
    requires IsRange(picked, s, l) && IsRange(expanded, s', l') && forall f :: f in picked ==> f in expanded
    requires |Overlapping(v[level + 1], Span(s'.user, l'.user))| == |Overlapping(v[level + 1], Span(s.user, l.user))|
    ensures Overlapping(v[level + 1], Span(s'.user, l'.user)) == Overlapping(v[level + 1], Span(s.user, l.user))
  {
    SpanCovers(picked, expanded, s, l, s', l');
    OverlappingGrows(v[level + 1], Span(s.user, l.user), Span(s'.user, l'.user));
  }

  /**
  Adds the next level's files and, if it costs no more of those and stays within the byte limit,
  more files of this level.
   */
  method ChooseInputs(v: Version, level: nat, picked: seq<File>)
    returns (inputs0: seq<File>, inputs1: seq<File>, pointer: InternalKey)
    requires ValidVersion(v) && level + 1 < NUM_LEVELS && GoodPick(v, level, picked)
    ensures ChosenFrom(v, level, picked, inputs0, inputs1) && BestInputs(v, level, picked, inputs0, inputs1)
    ensures exists s :: IsRange(inputs0, s, pointer)
  {
    assert |v| == NUM_LEVELS && |picked| > 0;
    hide *;
    inputs0 := picked;
    var smallest, largest := GetRange(inputs0);
    var next := GetOverlappingInputs(false, v[level + 1], Span(smallest.user, largest.user));
    NextLevelInputs(v, level, inputs0, smallest, largest);
    inputs1 := next;
    pointer := largest;
    KeepPicked(v, level, picked, inputs1);
    if |inputs1| > 0 {
      var expanded0 := Expand(v, level, inputs0, inputs1);
      if |expanded0| > |inputs0| &&
         TotalFileSize(inputs1) + TotalFileSize(expanded0) < EXPANDED_COMPACTION_BYTE_LIMIT {
        var newStart, newLimit := GetRange(expanded0);
        var expanded1 := GetOverlappingInputs(false, v[level + 1], Span(newStart.user, newLimit.user));
        if |expanded1| == |inputs1| {
          EqualSizeIsEqual(v, level, picked, expanded0, smallest, largest, newStart, newLimit);
          NextLevelInputs(v, level, expanded0, newStart, newLimit);
          AdoptExpansion(v, level, picked, expanded0, inputs1);
          inputs0, inputs1 := expanded0, expanded1;
          pointer := newLimit;
        } else {
          OtherNextLevel(v, level, expanded0, inputs1, newStart, newLimit);
          DoesNotPay(v, level, picked, inputs1, expanded0);
        }
      } else {
        DoesNotPay(v, level, picked, inputs1, expanded0);
      }
      ExpansionDecides(v, level, picked, inputs0, inputs1, expanded0);
    }
  }

  lemma KeepPicked(v: Version, level: nat, picked: seq<File>, inputs1: seq<File>)
    requires |v| == NUM_LEVELS && level + 1 < NUM_LEVELS
    requires GoodPick(v, level, picked) && ValidInputs(v, level, picked, inputs1)
    ensures ChosenFrom(v, level, picked, picked, inputs1)
    ensures inputs1 == [] ==> BestInputs(v, level, picked, picked, inputs1)
  {
  }

  lemma AdoptExpansion(v: Version, level: nat, picked: seq<File>, expanded: seq<File>, inputs1: seq<File>)
    requires |v| == NUM_LEVELS && level + 1 < NUM_LEVELS
    requires GoodPick(v, level, expanded) && ValidInputs(v, level, expanded, inputs1)
    requires ValidInputs(v, level, picked, inputs1) && |expanded| > |picked|
    requires forall f :: f in picked ==> f in expanded
    requires TotalFileSize(inputs1) + TotalFileSize(expanded) < EXPANDED_COMPACTION_BYTE_LIMIT
    ensures ChosenFrom(v, level, picked, expanded, inputs1) && Pays(v, level, picked, inputs1, expanded)
  {
  }

  /** The files of this level that meet the whole range of the compaction. */
  method Expand(v: Version, level: nat, inputs0: seq<File>, inputs1: seq<File>) returns (expanded: seq<File>)
    requires ValidVersion(v) && level + 1 < NUM_LEVELS && GoodPick(v, level, inputs0)
    ensures GoodPick(v, level, expanded) && IsExpansion(v, level, inputs0, inputs1, expanded)
    ensures |expanded| > 0 && forall f :: f in inputs0 ==> f in expanded
  {
    var start, limit := GetRange(inputs0 + inputs1);
    expanded := GetOverlappingInputs(level == 0, v[level], Span(start.user, limit.user));
    ghost var reach :| Reached(level, v[level], Span(start.user, limit.user), reach)
                       && expanded == Overlapping(v[level], reach);
    ReachCovers(level, v[level], Span(start.user, limit.user), reach);
    forall f | f in inputs0
      ensures f in expanded
    {
      InputIsMet(v[level], inputs0 + inputs1, start, limit, reach, f);
    }
    assert inputs0[0] in expanded;
    if level > 0 {
      var lo, hi := OverlappingIsRun(v[level], reach);
      RunOrNothing(v[level], expanded, lo, hi);
    }
  }

  lemma InputIsMet(files: seq<File>, inputs: seq<File>, s: InternalKey, l: InternalKey, reach: Range, f: File)
    requires ValidFiles(files) && IsRange(inputs, s, l) && f in inputs && f in files
    requires Covers(reach, Span(s.user, l.user))
    ensures f in Overlapping(files, reach)
  {
    MembersAreValid(files, f);
    EntryInRange(f, f.entries[0]);
    SpanContains(inputs, s, l);
  }

  method FindGrandparents(v: Version, level: nat, inputs: seq<File>) returns (files: seq<File>)
    requires |v| == NUM_LEVELS && |inputs| > 0
    ensures AreGrandparents(files, v, level, inputs)
  {
    files := [];
    if level + 2 < NUM_LEVELS {
      var start, limit := GetRange(inputs);
      files := GetOverlappingInputs(false, v[level + 2], Span(start.user, limit.user));
    }
  }

  /** What a trivial move looks like from the version: one file that meets nothing in the next level and little in the one after it. */
  ghost predicate IsLoneFile(v: Version, level: nat, f: File)
    requires |v| == NUM_LEVELS && level + 1 < NUM_LEVELS
  {
    && (forall g :: g in v[level + 1] ==> !Meets(g, f.smallest.user, f.largest.user))
    && (level + 2 < NUM_LEVELS ==>
          MeetingBytes(v[level + 2], f.smallest.user, f.largest.user) <= MAX_GRANDPARENT_OVERLAP_BYTES)
  }

  /** Selected inputs are moved exactly if they are one such file. */
  lemma MoveIff(c: Compaction)
    requires c.Valid() && ValidInputs(c.version, c.level, c.inputs0, c.inputs1)
    requires AreGrandparents(c.grandparents, c.version, c.level, c.inputs0 + c.inputs1)
    ensures c.IsTrivialMove() <==> |c.inputs0| == 1 && IsLoneFile(c.version, c.level, c.inputs0[0])
  {
    assert |c.version| == NUM_LEVELS && c.level + 1 < NUM_LEVELS;
    if |c.inputs0| == 1 {
      LoneFile(c.version, c.level, c.inputs0[0], c.inputs0, c.inputs1, c.grandparents);
    }
  }

  lemma LoneFile(v: Version, level: nat, f: File, inputs0: seq<File>, inputs1: seq<File>, grandparents: seq<File>)
    requires |v| == NUM_LEVELS && level + 1 < NUM_LEVELS && inputs0 == [f]
    requires ValidInputs(v, level, inputs0, inputs1) && AreGrandparents(grandparents, v, level, inputs0 + inputs1)
    ensures inputs1 == [] && TotalFileSize(grandparents) <= MAX_GRANDPARENT_OVERLAP_BYTES <==> IsLoneFile(v, level, f)
  {
    hide Overlapping, TotalFileSize, MeetingBytes;
    var u, w := f.smallest.user, f.largest.user;
    RangeOfOne(inputs0, f);
    forall g
      ensures g in inputs1 <==> g in v[level + 1] && Meets(g, u, w)
    {
      MeetsIsOverlaps(g, u, w);
    }
    assert inputs1 == [] <==> forall g :: g in v[level + 1] ==> !Meets(g, u, w) by {
      if inputs1 != [] {
        assert inputs1[0] in inputs1;
      }
    }
    if inputs1 == [] {
      assert inputs0 + inputs1 == inputs0;
      if level + 2 < NUM_LEVELS {
        MeetingBytesAre(v[level + 2], u, w);
      } else {
        NoBytes();
      }
    }
  }

  lemma NoBytes()
    ensures TotalFileSize([]) == 0
  {
  }

  lemma RangeOfOne(files: seq<File>, f: File)
    requires files == [f]
    ensures forall s, l :: IsRange(files, s, l) ==> s == f.smallest && l == f.largest
  {
  }

  class Compaction {
    const version: Version
    const level: nat
    var inputs0: seq<File>
    var inputs1: seq<File>
    var grandparents: seq<File>
    var levelPtrs: seq<nat>

    ghost predicate Valid()
      reads this
    {
      && ValidVersion(version) && level + 1 < NUM_LEVELS
      && GoodPick(version, level, inputs0)
      && |levelPtrs| == NUM_LEVELS
    }

    constructor (version: Version, level: nat, inputs: seq<File>)
      requires ValidVersion(version) && level + 1 < NUM_LEVELS && GoodPick(version, level, inputs)
      ensures Valid() && this.version == version && this.level == level && inputs0 == inputs
      ensures inputs1 == [] && grandparents == []
      ensures PtrsAtStart()
    {
      this.version, this.level := version, level;
      inputs0, inputs1, grandparents := inputs, [], [];
      levelPtrs := seq(NUM_LEVELS, _ => 0);
    }

    /** Returns the new compaction pointer. */
    method SetupOtherInputs() returns (pointer: InternalKey)
      requires Valid()
      modifies this`inputs0, this`inputs1, this`grandparents
      ensures Valid() && ChosenFrom(version, level, old(inputs0), inputs0, inputs1)
      ensures BestInputs(version, level, old(inputs0), inputs0, inputs1)
      ensures AreGrandparents(grandparents, version, level, inputs0 + inputs1)
      ensures exists s :: IsRange(inputs0, s, pointer)
    {
      assert |version| == NUM_LEVELS;
      hide BestInputs, IsRange, AreGrandparents, ValidVersion, Overlapping, GoodPick, ValidInputs, TotalFileSize;
      inputs0, inputs1, pointer := ChooseInputs(version, level, inputs0);
      grandparents := FindGrandparents(version, level, inputs0 + inputs1);
    }

    /** A single file that meets nothing in the next level and little in the one after it. */
    predicate IsTrivialMove()
      reads this
    {
      |inputs0| == 1 && |inputs1| == 0 && TotalFileSize(grandparents) <= MAX_GRANDPARENT_OVERLAP_BYTES
    }

    ghost predicate PtrsAtStart()
      reads this
    {
      |version| == |levelPtrs| == NUM_LEVELS && forall l :: 0 <= l < NUM_LEVELS ==> levelPtrs[l] == 0
    }

    lemma StartIsBehind(u: UserKey)
      requires PtrsAtStart()
      ensures PtrsBehind(u)
    {
    }

    /** The files skipped so far in the deep levels all end before `u`. */
    ghost predicate PtrsBehind(u: UserKey)
      reads this
    {
      && |version| == |levelPtrs| == NUM_LEVELS
      && forall l :: level + 2 <= l < NUM_LEVELS ==>
           && levelPtrs[l] <= |version[l]|
           && forall i :: 0 <= i < levelPtrs[l] ==> version[l][i].largest.user < u
    }

    /** Over nondecreasing queries the moving pointers answer the plain question. */
    method IsBaseLevelForKey(u: UserKey) returns (base: bool)
      requires ValidVersion(version) && PtrsBehind(u)
      modifies this`levelPtrs
      ensures base <==> BaseLevel(version, level, u)
      ensures PtrsBehind(u)
    {
      var lvl := level + 2;
      while lvl < NUM_LEVELS
        invariant level + 2 <= lvl
        invariant PtrsBehind(u)
        invariant forall l, f :: level + 2 <= l < lvl && l < NUM_LEVELS && f in version[l] ==> !InRange(f, u)
      {
        var files := version[lvl];
        while levelPtrs[lvl] < |files|
          invariant PtrsBehind(u)
          decreases |files| - levelPtrs[lvl]
        {
          var f := files[levelPtrs[lvl]];
          if u <= f.largest.user {
            if u >= f.smallest.user {
              assert f in version[lvl] && InRange(f, u);
              return false;
            }
            break;
          }
          levelPtrs := levelPtrs[lvl := levelPtrs[lvl] + 1];
        }
        PointerDecides(files, levelPtrs[lvl], u);
        lvl := lvl + 1;
      }
      return true;
    }

    lemma PtrsStayBehind(u: UserKey, u': UserKey)
      requires PtrsBehind(u) && u <= u'
      ensures PtrsBehind(u')
    {
    }

    /** Both drop rules for one entry; `last` is the sequence of the entry before it for its key. */
    method ShouldDrop(e: Entry, last: Sequence, m: Sequence) returns (drop: bool)
      requires ValidVersion(version) && PtrsBehind(e.key.user)
      modifies this`levelPtrs
      ensures drop <==> last <= m || ObsoleteMarker(version, level, m, e)
      ensures PtrsBehind(e.key.user)
    {
      drop := false;
      if last <= m {
        drop := true;
      } else if e.key.kind.Deletion? && e.key.sn <= m {
        drop := IsBaseLevelForKey(e.key.user);
      }
    }

    lemma LoopStarts(input: seq<Entry>, m: Sequence)
      requires ValidVersion(version) && PtrsAtStart()
      ensures |version| == NUM_LEVELS && Emitted(Outputs([], []), Kept(input, version, level, m, 0))
      ensures |input| > 0 ==> PtrsBehind(input[0].key.user)
    {
      if |input| > 0 { StartIsBehind(input[0].key.user); }
    }

    /**
    The main loop.  `input` is what the merging iterator over the inputs yields, `m` the smallest
    live snapshot.  Where an output file ends depends on grandparent overlap and byte sizes:
    `stopBefore` and `bigEnough` stand for those tests and may answer anything.
     */
    method DoCompactionWork(input: seq<Entry>, m: Sequence, stopBefore: nat -> bool, bigEnough: seq<Entry> -> bool)
      returns (outputs: seq<seq<Entry>>)
      requires ValidVersion(version) && Sorted(input) && m < MAX_SEQUENCE
      requires PtrsAtStart()
      modifies this`levelPtrs
      ensures Flatten(outputs) == Kept(input, version, level, m, |input|)
      ensures Lean(Flatten(outputs), version, level, m)
      ensures (forall o :: o in outputs ==> |o| > 0) && CutWhereTold(outputs, input, |input|, stopBefore, bigEnough)
    {
      hide *;
      var out := Outputs([], []);
      LoopStarts(input, m);
      NothingCut(input, stopBefore, bigEnough);
      var hasCurrentUserKey, currentUserKey := false, 0;
      var lastSequenceForKey: Sequence := MAX_SEQUENCE;
      var i := 0;
      while i < |input|
        invariant 0 <= i <= |input|
        invariant Emitted(out, Kept(input, version, level, m, i)) && CutSoFar(out, input, i, stopBefore, bigEnough)
        invariant hasCurrentUserKey == (i > 0)
        invariant i > 0 ==> currentUserKey == input[i - 1].key.user && lastSequenceForKey == input[i - 1].key.sn
        invariant i < |input| ==> PtrsBehind(input[i].key.user)
      {
        var e := input[i];
        if stopBefore(i) {
          KeptComesBefore(input, version, level, m, i);
          OutputsFinish(out, Kept(input, version, level, m, i));
          StopCuts(out, Kept(input, version, level, m, i), input, i, stopBefore, bigEnough);
          out := FinishOutput(out);
        } else {
          NoStop(out, input, i, stopBefore, bigEnough);
        }
        if !hasCurrentUserKey || e.key.user != currentUserKey {
          currentUserKey := e.key.user;
          hasCurrentUserKey := true;
          lastSequenceForKey := MAX_SEQUENCE;
        }
        var drop := ShouldDrop(e, lastSequenceForKey, m);
        KeptStep(input, version, level, m, i, lastSequenceForKey);
        lastSequenceForKey := e.key.sn;
        if !drop {
          OutputsAdd(out, e, Kept(input, version, level, m, i));
          AddKeepsCuts(out, input, i, stopBefore, bigEnough);
          out := AddToOutput(out, e);
          if bigEnough(out.builder) {
            OutputsFinish(out, Kept(input, version, level, m, i + 1));
            out := FinishOutput(out);
          }
        }
        if i + 1 < |input| {
          UsersIncrease(input, i);
          PtrsStayBehind(e.key.user, input[i + 1].key.user);
        }
        i := i + 1;
      }
      OutputsEnd(out, Kept(input, version, level, m, |input|));
      AllCut(out, input, |input|, stopBefore, bigEnough);
      KeptIsLean(input, version, level, m);
      outputs := FinishOutput(out).files;
    }
  }

  lemma KeptComesBefore(input: seq<Entry>, v: Version, level: nat, m: Sequence, i: nat)
    requires |v| == NUM_LEVELS && i < |input| && Sorted(input)
    ensures AllBefore(Kept(input, v, level, m, i), input[i].key)
  {
    KeptIsSorted(input, v, level, m, i);
  }

  lemma UsersIncrease(input: seq<Entry>, i: nat)
    requires Sorted(input) && i + 1 < |input|
    ensures input[i].key.user <= input[i + 1].key.user
  {
    assert Less(input[i].key, input[i + 1].key);
  }

  /** `last` as the loop keeps it decides rule A. */
  lemma KeptStep(input: seq<Entry>, v: Version, level: nat, m: Sequence, i: nat, last: Sequence)
    requires |v| == NUM_LEVELS && i < |input| && m < MAX_SEQUENCE
    requires last == if i > 0 && input[i - 1].key.user == input[i].key.user then input[i - 1].key.sn
                     else MAX_SEQUENCE
    ensures Kept(input, v, level, m, i + 1)
            == if last <= m || ObsoleteMarker(v, level, m, input[i]) then Kept(input, v, level, m, i)
               else Kept(input, v, level, m, i) + [input[i]]
  {
    assert HiddenByNewer(input, m, i) <==> last <= m;
  }

  lemma PointerDecides(files: Level, p: nat, u: UserKey)
    requires ValidFiles(files) && SortedLevel(files) && p <= |files|
    requires forall i :: 0 <= i < p ==> files[i].largest.user < u
    requires p < |files| ==> u <= files[p].largest.user && u < files[p].smallest.user
    ensures forall f :: f in files ==> !InRange(f, u)
  {
    forall f | f in files
      ensures !InRange(f, u)
    {
      var i :| 0 <= i < |files| && files[i] == f;
      if p < i {
        LevelUsersIncrease(files, p, i);
      }
    }
  }
}
