/**
The database object (util/leveldb/db/db_impl.cc).  A background compaction, a flush and a write
are each one atomic step on the current version.  `Valid` ties the object to the ghost history of
all writes, so what `Get` returns after any sequence of calls is a read of that history.
 */
module Engine {
  import opened Common
  import opened Keys
  import opened History
  import opened Versions
  import opened Inputs
  import opened Edits
  import opened Compactions
  import opened Cuts
  import opened Installs
  import opened CompactionJob
  import opened OutputCuts
  import opened Flushes
  import opened Layers
  import opened Lookups
  import opened UncutLevels
  import opened CompactionInputs
  import opened Stores

  ghost function Written(ops: seq<Op>, first: nat): set<Entry>
    requires first + |ops| <= MAX_SEQUENCE
  {
    set i | 0 <= i < |ops| :: OpEntry(ops[i], first + i)
  }

  class DB {
    var mem: seq<Entry>
    var imm: Option<seq<Entry>>
    var version: Version
    var last: Sequence
    var snapshots: seq<Sequence>
    var nextFile: nat
    var compactPointers: seq<Option<InternalKey>>
    ghost var history: set<Entry>

    ghost function View(): State
      reads this
    {
      State(mem, imm, version, last, snapshots, nextFile, history)
    }

    ghost predicate Valid()
      reads this
    {
      Inv(View()) && |compactPointers| == NUM_LEVELS
    }

    constructor ()
      ensures Valid() && history == {} && snapshots == [] && last == 0 && mem == [] && imm == None
      ensures AllUncut(version) && forall l :: 0 <= l < NUM_LEVELS ==> version[l] == []
    {
      mem, imm, last, snapshots, nextFile, history := [], None, 0, [], 2, {};
      version := seq(NUM_LEVELS, _ => []);
      compactPointers := seq(NUM_LEVELS, _ => None);
      new;
      FreshStore(View());
    }

    /** The store that a replayed manifest describes, with nothing in memory yet. */
    constructor Recovered(version: Version, nextFile: nat, last: Sequence, ghost history: set<Entry>)
      requires Inv(OnDisk(version, nextFile, last, history))
      ensures Valid() && View() == OnDisk(version, nextFile, last, history)
    {
      mem, imm, snapshots := [], None, [];
      this.version, this.nextFile, this.last, this.history := version, nextFile, last, history;
      compactPointers := seq(NUM_LEVELS, _ => None);
    }

    /** Sequence numbers up to `s` count as used. */
    method SetLastSequence(s: Sequence)
      requires Valid() && snapshots == [] && last <= s < MAX_SEQUENCE
      modifies this`last
      ensures Valid() && last == s
    {
      hide Inv;
      LaterKeepsInv(View(), s);
      last := s;
    }

    /** The search of DBImpl::Get: memtable, immutable memtable, version, stopping at the first hit. */
    method Search(u: UserKey, s: Sequence) returns (r: Option<Entry>)
      requires Searchable(View())
      ensures StoreHit(View(), u, s, r)
    {
      ghost var st := View();
      SearchParts(st);
      hide *;
      ViewIs();
      TableGetFindsNewest(mem, u, s);
      r := TableGet(mem, u, s);
      if r.Some? {
        HitInMem(st, u, s, r.value);
        return;
      }
      MissInMem(st, u, s);
      if imm.Some? {
        TableGetFindsNewest(imm.value, u, s);
        r := TableGet(imm.value, u, s);
        ImmIs(st);
        if r.Some? {
          HitInImm(st, u, s, r.value);
          return;
        }
        MissIs(Elements(imm.value), u, s);
      } else {
        NoImm(st, u, s);
        MissIs(ImmSet(st), u, s);
      }
      r := VersionGet(version, u, s);
      HitBelow(st, u, s, r);
    }

    lemma ViewIs()
      ensures View() == State(mem, imm, version, last, snapshots, nextFile, history)
    {
    }

    /** DBImpl::Get at the latest sequence or at a live snapshot. */
    method Get(u: UserKey, s: Sequence) returns (value: Option<Payload>)
      requires Valid() && LiveSequence(View(), s)
      ensures value == Read(history, u, s)
    {
      hide *;
      ghost var st := View();
      ValidIs();
      InvIsSearchable(st);
      var r := Search(u, s);
      HitIsFound(st, u, s, r);
      GetIsRead(st, u, s, r);
      value := Answer(r);
    }

    /** A batch becomes visible as a whole: its entries take the next sequence numbers in order. */
    method Write(ops: seq<Op>)
      requires Valid() && last + |ops| < MAX_SEQUENCE
      modifies this`mem, this`last, this`history
      ensures Valid() && last == old(last) + |ops|
      ensures history == old(history) + Written(ops, old(last) + 1)
      ensures Elements(mem) == old(Elements(mem)) + Written(ops, old(last) + 1)
    {
      hide Inv, Elements;
      assert Written(ops[..0], old(last) + 1) == {};
      for i := 0 to |ops|
        invariant Valid() && last == old(last) + i
        invariant history == old(history) + Written(ops[..i], old(last) + 1)
        invariant Elements(mem) == old(Elements(mem)) + Written(ops[..i], old(last) + 1)
      {
        hide Written, Valid;
        WrittenGrows(ops, i, old(last) + 1);
        WriteOne(ops[i]);
      }
      assert ops[..|ops|] == ops;
    }

    method WriteOne(op: Op)
      requires Valid() && last + 1 < MAX_SEQUENCE
      modifies this`mem, this`last, this`history
      ensures Valid() && last == old(last) + 1
      ensures history == old(history) + {OpEntry(op, old(last) + 1)}
      ensures Elements(mem) == old(Elements(mem)) + {OpEntry(op, old(last) + 1)}
    {
      hide Inv, MemInsert;
      WriteKeepsInv(View(), op);
      WriteAddsEntry(View(), op);
      var e := OpEntry(op, last + 1);
      mem := MemInsert(mem, e);
      last := last + 1;
      history := history + {e};
    }

    /** MakeRoomForWrite: the full memtable becomes the immutable one. */
    method SwitchMemTable()
      requires Valid() && imm.None?
      modifies this`mem, this`imm
      ensures Valid() && mem == [] && imm == Some(old(mem))
    {
      hide Inv;
      SwitchKeepsInv(View());
      imm := Some(mem);
      mem := [];
    }

    method GetSnapshot() returns (s: Sequence)
      requires Valid()
      modifies this`snapshots
      ensures Valid() && s == last && snapshots == old(snapshots) + [s]
    {
      hide Inv;
      SnapshotKeepsInv(View());
      s := last;
      snapshots := snapshots + [s];
    }

    method ReleaseSnapshot(i: nat)
      requires Valid() && i < |snapshots|
      modifies this`snapshots
      ensures Valid() && snapshots == Removed(old(snapshots), i)
    {
      hide Inv;
      ReleaseKeepsInv(View(), i);
      snapshots := Removed(snapshots, i);
    }

    /**
    CompactMemTable: the immutable memtable becomes a table at the level picked for it, or at level
    zero while the store is being recovered.
     */
    method CompactMemTable(size: nat, recovering: bool) returns (edit: Edit, ghost level: nat)
      requires Valid() && imm.Some?
      modifies this`imm, this`version, this`nextFile
      ensures Valid() && imm == None && (AllUncut(old(version)) ==> AllUncut(version)) && (recovering ==> level == 0)
      ensures if old(imm.value) == [] then edit == EMPTY_EDIT && version == old(version) && nextFile == old(nextFile)
              else IsFlush(old(View()), version, nextFile, level, size, edit)
      ensures !recovering && old(imm.value) != [] ==>
                var es := old(imm.value);
                |old(version)| == NUM_LEVELS && DeepestFree(old(version), es[0].key.user, es[|es| - 1].key.user, level)
    {
      hide *;
      ghost var st := View();
      ValidIs();
      InvLayers(st);
      if |imm.value| > 0 {
        var f := TableFile(nextFile, size, imm.value);
        TableIsValid(nextFile, size, imm.value);
        TableEnds(nextFile, size, imm.value);
        var picked := 0;
        if !recovering {
          picked := PickLevelForMemTableOutput(version, f.smallest.user, f.largest.user);
        }
        level := picked;
        PickedIsFree(version, picked, f);
        FlushLevels(version, picked, f);
        edit := FlushEdit(picked, f);
        var v' := ApplyToVersion(version, edit);
        FlushKeepsInv(st, v', picked, size);
        FlushIs(st, v', picked, size);
        imm, version, nextFile := None, v', nextFile + 1;
      } else {
        EmptyFlushKeepsInv(st);
        imm := None;
        edit, level := EMPTY_EDIT, 0;
      }
      ValidIs();
    }

    /** The first file past the level's compaction pointer, or the first of all behind its end. */
    method NextFile(level: nat) returns (i: nat)
      requires Valid() && level < |version| && level < |compactPointers| && |version[level]| > 0
      ensures i < |version[level]| && IsNextFile(version[level], compactPointers[level], i)
    {
      hide Inv, Less;
      i := 0;
      if compactPointers[level].Some? {
        var pointer := compactPointers[level].value;
        while i < |version[level]| && !Less(pointer, version[level][i].largest)
          invariant i <= |version[level]|
          invariant forall k :: 0 <= k < i ==> !Less(pointer, version[level][k].largest)
        {
          i := i + 1;
        }
        if i == |version[level]| {
          i := 0;
        }
      }
    }

    /** PickCompaction for a chosen file: at level zero all files its overlaps pull in come along. */
    method PickCompaction(level: nat, i: nat) returns (c: Compaction, ghost picked: seq<File>)
      requires Valid() && level + 1 < NUM_LEVELS && |version| == NUM_LEVELS && i < |version[level]|
      modifies this`compactPointers
      ensures IsPick(version, level, i, picked)
      ensures Valid() && fresh(c) && c.Valid() && c.version == version && c.level == level && c.PtrsAtStart()
      ensures ChosenFrom(version, level, picked, c.inputs0, c.inputs1)
      ensures BestInputs(version, level, picked, c.inputs0, c.inputs1)
      ensures AreGrandparents(c.grandparents, version, level, c.inputs0 + c.inputs1)
      ensures exists s, l :: IsRange(c.inputs0, s, l) && compactPointers == old(compactPointers)[level := Some(l)]
    {
      hide *;
      ValidIs();
      InvLayers(View());
      var files := [version[level][i]];
      if level == 0 {
        files := PullIn(version, i);
      } else {
        OneFileIsPick(version, level, i);
      }
      PickIsGood(version, level, i, files);
      picked := files;
      c := Prepare(level, files);
    }

    /** What picked and manual compactions have in common: the other inputs and the new pointer. */
    method Prepare(level: nat, files: seq<File>) returns (c: Compaction)
      requires Valid() && level + 1 < NUM_LEVELS && |version| == NUM_LEVELS && GoodPick(version, level, files)
      modifies this`compactPointers
      ensures Valid() && fresh(c) && c.Valid() && c.version == version && c.level == level && c.PtrsAtStart()
      ensures ChosenFrom(version, level, files, c.inputs0, c.inputs1)
      ensures BestInputs(version, level, files, c.inputs0, c.inputs1)
      ensures AreGrandparents(c.grandparents, version, level, c.inputs0 + c.inputs1)
      ensures exists s, l :: IsRange(c.inputs0, s, l) && compactPointers == old(compactPointers)[level := Some(l)]
    {
      hide Inv, GoodPick, ValidVersion, ChosenFrom, BestInputs, AreGrandparents, IsRange;
      InvLayers(View());
      c := new Compaction(version, level, files);
      var pointer := c.SetupOtherInputs();
      compactPointers := compactPointers[level := Some(pointer)];
    }

    /** A manual compaction: below level zero only the first files of the range, up to a file's worth of bytes. */
    method CompactRange(level: nat, r: Range) returns (c: Compaction?, ghost picked: seq<File>)
      requires Valid() && level + 1 < NUM_LEVELS && |version| == NUM_LEVELS
      modifies this`compactPointers
      ensures Valid() && (c == null <==> Overlapping(version[level], r) == [])
      ensures c == null ==> compactPointers == old(compactPointers)
      ensures c != null ==>
                && IsManualPick(version, level, r, picked)
                && fresh(c) && c.Valid() && c.version == version && c.level == level && c.PtrsAtStart()
                && ChosenFrom(version, level, picked, c.inputs0, c.inputs1)
                && BestInputs(version, level, picked, c.inputs0, c.inputs1)
                && AreGrandparents(c.grandparents, version, level, c.inputs0 + c.inputs1)
                && exists s, l :: IsRange(c.inputs0, s, l) && compactPointers == old(compactPointers)[level := Some(l)]
    {
      hide *;
      ValidIs();
      InvLayers(View());
      var files := GetOverlappingInputs(level == 0, version[level], r);
      EmptyOrNot(level, version[level], r, files);
      if files == [] {
        c, picked := null, [];
      } else {
        if level > 0 {
          var n := FitSize(files);
          TruncatedRun(version, level, r, n);
          files := files[..n];
        } else {
          ClosedPick(version, r, files);
        }
        picked := files;
        c := Prepare(level, files);
      }
    }

    /**
    BackgroundCompaction and InstallCompactionResults on the version the inputs were chosen from.
    The outcome is a store of the same history exactly if no user key that the inputs cut needs its
    other half, and always if no level is cut; then the new version is uncut too if the outputs are,
    as they are without snapshots.
     */
    method RunCompaction(c: Compaction, isManual: bool, stopBefore: nat -> bool,
                         bigEnough: seq<Entry> -> bool, sizes: nat -> nat)
      returns (edit: Edit, ghost input: seq<Entry>, ghost outputs: seq<seq<Entry>>, ghost out: seq<File>)
      requires Valid() && c.Valid() && c.version == version && c.PtrsAtStart()
      requires ValidInputs(version, c.level, c.inputs0, c.inputs1)
      modifies this`version, this`nextFile, c`levelPtrs
      ensures edit == CompactionEdit(c.level, c.inputs0, c.inputs1, out) && Applied(old(version), version, edit)
      ensures if !isManual && c.IsTrivialMove()
              then && out == c.inputs0 && Installed(old(version), version, c.level, out, [], out)
                   && nextFile == old(nextFile)
                   && (Valid() <==> c.level == 0 || !EndsInCut(old(version)[c.level], c.inputs0))
                   && LookupsAre(old(View()), View(), c.level == 0 || !EndsInCut(old(version)[c.level], c.inputs0)
                                                      || Masked(old(View()), c.inputs0), true)
              else && Sorted(input) && Elements(input) == LevelSet(c.inputs0) + LevelSet(c.inputs1)
                   && IsCompaction(old(View()), version, nextFile, c.level, c.inputs0, c.inputs1, input, outputs, sizes, out)
                   && CutWhereTold(outputs, input, |input|, stopBefore, bigEnough)
                   && Replaced(old(View()), version, c.level, c.inputs0, c.inputs1, input, out)
                   && (Valid() <==> SafeToCompact(old(View()), c.level, c.inputs0, c.inputs1, input))
                   && LookupsAre(old(View()), View(),
                                 AgeSafe(old(version), c.level, c.inputs0, input, Oldest(old(View())))
                                 || Masked(old(View()), c.inputs0),
                                 BringsNothingBack(old(View()), c.level, c.inputs0, c.inputs1, input))
      ensures AllUncut(old(version)) ==> Valid()
      ensures AllUncut(old(version)) && (snapshots == [] || Uncut(out)) ==> AllUncut(version)
    {
      hide Inv, ValidInputs, GoodPick, ValidVersion, Sorted, Elements, LevelSet, Installed, Replaced, SafeToCompact,
           EndsInCut, AllUncut, Uncut, TotalFileSize, Applied, CompactionEdit, IsCompaction, LookupsAre, Masked, AgeSafe,
           BringsNothingBack, CutWhereTold;
      if !isManual && c.IsTrivialMove() {
        assert c.inputs0 == [c.inputs0[0]] && c.inputs1 == [];
        edit := MoveFile(c.level, c.inputs0[0]);
        input, outputs, out := [], [], c.inputs0;
      } else {
        edit, input, outputs, out := CompactFiles(c, stopBefore, bigEnough, sizes);
      }
    }

    method MoveFile(level: nat, f: File) returns (edit: Edit)
      requires Valid() && |version| == NUM_LEVELS && level + 1 < NUM_LEVELS
      requires GoodPick(version, level, [f]) && ValidInputs(version, level, [f], [])
      modifies this`version
      ensures edit == CompactionEdit(level, [f], [], [f]) && Applied(old(version), version, edit)
      ensures Installed(old(version), version, level, [f], [], [f])
      ensures Valid() <==> level == 0 || !EndsInCut(old(version)[level], [f])
      ensures LookupsAre(old(View()), View(),
                         level == 0 || !EndsInCut(old(version)[level], [f]) || Masked(old(View()), [f]), true)
      ensures AllUncut(old(version)) ==> Valid() && AllUncut(version)
    {
      hide *;
      ghost var st := View();
      ValidIs();
      ChosenHere(st, level, [f], []);
      var v' := InstallOutputs(version, level, [f], [], [f]);
      MoveKeepsInv(st, v', level, f);
      MoveLookups(st, v', level, f);
      UncutHasNoEnd(version, level, [f]);
      edit := CompactionEdit(level, [f], [], [f]);
      version := v';
      ValidIs();
    }

    method CompactFiles(c: Compaction, stopBefore: nat -> bool, bigEnough: seq<Entry> -> bool, sizes: nat -> nat)
      returns (edit: Edit, ghost input: seq<Entry>, ghost outputs: seq<seq<Entry>>, ghost out: seq<File>)
      requires Valid() && c.Valid() && c.version == version && c.PtrsAtStart()
      requires ValidInputs(version, c.level, c.inputs0, c.inputs1)
      modifies this`version, this`nextFile, c`levelPtrs
      ensures edit == CompactionEdit(c.level, c.inputs0, c.inputs1, out) && Applied(old(version), version, edit)
      ensures Sorted(input) && Elements(input) == LevelSet(c.inputs0) + LevelSet(c.inputs1)
      ensures IsCompaction(old(View()), version, nextFile, c.level, c.inputs0, c.inputs1, input, outputs, sizes, out)
      ensures CutWhereTold(outputs, input, |input|, stopBefore, bigEnough)
      ensures Replaced(old(View()), version, c.level, c.inputs0, c.inputs1, input, out)
      ensures Valid() <==> SafeToCompact(old(View()), c.level, c.inputs0, c.inputs1, input)
      ensures LookupsAre(old(View()), View(),
                         AgeSafe(old(version), c.level, c.inputs0, input, Oldest(old(View())))
                         || Masked(old(View()), c.inputs0),
                         BringsNothingBack(old(View()), c.level, c.inputs0, c.inputs1, input))
      ensures AllUncut(old(version)) ==> Valid()
      ensures AllUncut(old(version)) && (snapshots == [] || Uncut(out)) ==> AllUncut(version)
    {
      hide *;
      ghost var st := View();
      ValidIs();
      JobFacts(c);
      ChosenHere(st, c.level, c.inputs0, c.inputs1);
      var m := if snapshots == [] then last else snapshots[0];
      OldestIs(st);
      InvLayers(st);
      var merged := MergeInputs(version, c.level, c.inputs0, c.inputs1);
      var parts := c.DoCompactionWork(merged, m, stopBefore, bigEnough);
      var files := OutputFiles(nextFile, sizes, parts);
      edit := CompactionEdit(c.level, c.inputs0, c.inputs1, files);
      var v' := InstallOutputs(version, c.level, c.inputs0, c.inputs1, files);
      CompactionOutcome(st, v', c.level, c.inputs0, c.inputs1, merged, parts, sizes, files);
      input, outputs, out := merged, parts, files;
      version, nextFile := v', nextFile + |parts|;
      ValidIs();
    }

    lemma LevelsAre()
      requires Valid()
      ensures |version| == NUM_LEVELS
    {
    }

    lemma ValidIs()
      ensures View() == State(mem, imm, version, last, snapshots, nextFile, history)
      ensures Valid() <==> Inv(View()) && |compactPointers| == NUM_LEVELS
    {
    }
  }

  /** A store as a replayed manifest leaves it. */
  ghost function OnDisk(version: Version, nextFile: nat, last: Sequence, history: set<Entry>): State {
    State([], None, version, last, [], nextFile, history)
  }

  /** What a flush of the immutable memtable puts on disk. */
  ghost predicate IsFlush(st: State, v': Version, next': nat, level: nat, size: nat, edit: Edit) {
    && st.imm.Some? && |st.imm.value| > 0 && |st.version| == NUM_LEVELS && next' == st.nextFile + 1
    && var f := TableFile(st.nextFile, size, st.imm.value);
       && FreeFor(st.version, level, f) && edit == FlushEdit(level, f)
       && Applied(st.version, v', edit) && Flushed(st.version, v', level, f)
  }

  lemma FlushIs(st: State, v': Version, level: nat, size: nat)
    requires st.imm.Some? && |st.imm.value| > 0 && |st.version| == NUM_LEVELS
    requires FreeFor(st.version, level, TableFile(st.nextFile, size, st.imm.value))
    requires Applied(st.version, v', FlushEdit(level, TableFile(st.nextFile, size, st.imm.value)))
    requires Flushed(st.version, v', level, TableFile(st.nextFile, size, st.imm.value))
    ensures IsFlush(st, v', st.nextFile + 1, level, size, FlushEdit(level, TableFile(st.nextFile, size, st.imm.value)))
  {
    hide FreeFor, Applied, Flushed, FlushEdit, TableFile;
  }

  /** What a compaction that is not a move puts on disk. */
  ghost predicate IsCompaction(st: State, v': Version, next': nat, level: nat, inputs0: seq<File>, inputs1: seq<File>,
                               input: seq<Entry>, outputs: seq<seq<Entry>>, sizes: nat -> nat, out: seq<File>) {
    && |st.version| == NUM_LEVELS && next' == st.nextFile + |outputs|
    && Compacted(st, v', level, inputs0, inputs1, input, outputs, sizes)
    && (forall o :: o in outputs ==> |o| > 0) && out == OutputFiles(st.nextFile, sizes, outputs)
  }

  lemma CompactionIs(st: State, v': Version, level: nat, inputs0: seq<File>, inputs1: seq<File>,
                     input: seq<Entry>, outputs: seq<seq<Entry>>, sizes: nat -> nat, out: seq<File>)
    requires |st.version| == NUM_LEVELS && Compacted(st, v', level, inputs0, inputs1, input, outputs, sizes)
    requires (forall o :: o in outputs ==> |o| > 0) && out == OutputFiles(st.nextFile, sizes, outputs)
    ensures IsCompaction(st, v', st.nextFile + |outputs|, level, inputs0, inputs1, input, outputs, sizes, out)
  {
    hide Compacted, OutputFiles;
  }

  lemma JobFacts(c: Compaction)
    requires c.Valid()
    ensures ValidVersion(c.version) && |c.version| == NUM_LEVELS && c.level + 1 < NUM_LEVELS && GoodPick(c.version, c.level, c.inputs0)
  {
  }

  lemma OldestIs(st: State)
    ensures Oldest(st) == if st.snapshots == [] then st.last else st.snapshots[0]
  {
  }

  lemma ChosenIsValid(v: Version, level: nat, picked: seq<File>, inputs0: seq<File>, inputs1: seq<File>)
    requires |v| == NUM_LEVELS && level + 1 < NUM_LEVELS && ChosenFrom(v, level, picked, inputs0, inputs1)
    ensures ValidInputs(v, level, inputs0, inputs1)
  {
  }

  /** The chosen file alone, or at level zero all files in the closure of its range. */
  /** The first file that ends above the pointer; the first of all if there is no pointer or no such file. */
  ghost predicate IsNextFile(files: Level, pointer: Option<InternalKey>, i: nat)
    requires i < |files|
  {
    match pointer
    case None => i == 0
    case Some(p) =>
      if exists k :: 0 <= k < |files| && Less(p, files[k].largest)
      then Less(p, files[i].largest) && forall k :: 0 <= k < i ==> !Less(p, files[k].largest)
      else i == 0
  }

  ghost predicate IsPick(v: Version, level: nat, i: nat, picked: seq<File>)
    requires level < |v| && i < |v[level]|
  {
    var f := v[level][i];
    if level == 0 then
      exists reach :: IsClosure(v[0], Span(f.smallest.user, f.largest.user), reach) && picked == Overlapping(v[0], reach)
    else picked == [f]
  }

  ghost predicate IsManualPick(v: Version, level: nat, r: Range, picked: seq<File>)
    requires level < |v|
  {
    if level == 0 then exists reach :: IsClosure(v[0], r, reach) && picked == Overlapping(v[0], reach)
    else
      var all := Overlapping(v[level], r);
      && 0 < |picked| <= |all| && picked == all[..|picked|]
      && TotalFileSize(picked[..|picked| - 1]) < TARGET_FILE_SIZE
      && (|picked| < |all| ==> TotalFileSize(picked) >= TARGET_FILE_SIZE)
  }

  lemma HandOver(st: State, v': Version, level: nat, inputs0: seq<File>, inputs1: seq<File>,
                 input: seq<Entry>, outputs: seq<seq<Entry>>, sizes: nat -> nat)
    requires |st.version| == NUM_LEVELS && Chosen(st.version, level, inputs0, inputs1)
    requires Sorted(input) && Elements(input) == LevelSet(inputs0) + LevelSet(inputs1)
    requires Flatten(outputs) == Kept(input, st.version, level, Oldest(st), |input|)
    requires forall o :: o in outputs ==> |o| > 0
    requires Applied(st.version, v', CompactionEdit(level, inputs0, inputs1, OutputFiles(st.nextFile, sizes, outputs)))
    ensures Compacted(st, v', level, inputs0, inputs1, input, outputs, sizes)
  {
  }

  method InstallOutputs(v: Version, level: nat, inputs0: seq<File>, inputs1: seq<File>, out: seq<File>)
    returns (v': Version)
    requires |v| == NUM_LEVELS && level + 1 < NUM_LEVELS
    ensures Applied(v, v', CompactionEdit(level, inputs0, inputs1, out))
  {
    v' := ApplyToVersion(v, CompactionEdit(level, inputs0, inputs1, out));
  }

  lemma SearchParts(st: State)
    requires Searchable(st)
    ensures Sorted(st.mem) && (st.imm.Some? ==> Sorted(st.imm.value)) && ValidVersion(st.version)
    ensures UniqueSequences(Elements(st.mem)) && UniqueSequences(ImmSet(st)) && UniqueSequences(VersionSet(st.version))
    ensures st.imm.Some? ==> UniqueSequences(Elements(st.imm.value))
  {
  }

  lemma InvIsSearchable(st: State)
    requires Inv(st)
    ensures Searchable(st)
  {
  }

  lemma ImmIs(st: State)
    requires st.imm.Some?
    ensures ImmSet(st) == Elements(st.imm.value)
  {
  }

  lemma HitInMem(st: State, u: UserKey, s: Sequence, e: Entry)
    requires FoundIn(Elements(st.mem), u, s, Some(e))
    ensures StoreHit(st, u, s, Some(e))
  {
    assert HitsAt(StoreLayers(st), u, s, e, 0);
  }

  lemma MissInMem(st: State, u: UserKey, s: Sequence)
    requires FoundIn(Elements(st.mem), u, s, None)
    ensures NoneVisible(Elements(st.mem), u, s)
  {
  }

  lemma MissIs(S: set<Entry>, u: UserKey, s: Sequence)
    requires FoundIn(S, u, s, None)
    ensures NoneVisible(S, u, s)
  {
  }

  lemma HitInImm(st: State, u: UserKey, s: Sequence, e: Entry)
    requires NoneVisible(Elements(st.mem), u, s) && FoundIn(ImmSet(st), u, s, Some(e))
    ensures StoreHit(st, u, s, Some(e))
  {
    assert HitsAt(StoreLayers(st), u, s, e, 1);
  }

  lemma HitBelow(st: State, u: UserKey, s: Sequence, r: Option<Entry>)
    requires NoneVisible(Elements(st.mem), u, s) && NoneVisible(ImmSet(st), u, s)
    requires LayerHit(LevelSets(st.version), u, s, r)
    ensures StoreHit(st, u, s, r)
  {
    HitBehind(Elements(st.mem), ImmSet(st), LevelSets(st.version), u, s, r);
  }

  /** In a good state the first hit is the newest stored entry. */
  lemma HitIsFound(st: State, u: UserKey, s: Sequence, r: Option<Entry>)
    requires Inv(st) && StoreHit(st, u, s, r)
    ensures FoundIn(AllEntries(st), u, s, r)
  {
    hide *;
    InvIsByAge(st);
    UnionOfLayers(st);
    StoreHitIs(st, u, s, r);
    FirstHitIsNewest(StoreLayers(st), u, s, r);
  }

  lemma StoreHitIs(st: State, u: UserKey, s: Sequence, r: Option<Entry>)
    ensures StoreHit(st, u, s, r) <==> LayerHit(StoreLayers(st), u, s, r)
  {
  }

  lemma NoImm(st: State, u: UserKey, s: Sequence)
    requires st.imm.None?
    ensures FoundIn(ImmSet(st), u, s, None)
  {
  }

  lemma WrittenGrows(ops: seq<Op>, i: nat, first: nat)
    requires i < |ops| && first + |ops| <= MAX_SEQUENCE
    ensures Written(ops[..i + 1], first) == Written(ops[..i], first) + {OpEntry(ops[i], first + i)}
  {
    assert forall k :: 0 <= k < i ==> ops[..i + 1][k] == ops[..i][k];
    assert ops[..i + 1][i] == ops[i];
  }

  lemma TableEnds(number: nat, size: nat, es: seq<Entry>)
    requires |es| > 0
    ensures var f := TableFile(number, size, es);
            f.smallest == es[0].key && f.largest == es[|es| - 1].key
  {
  }

  lemma PickedIsFree(v: Version, level: nat, f: File)
    requires |v| == NUM_LEVELS && level <= MAX_MEM_COMPACT_LEVEL
    requires level > 0 ==> forall k :: 0 <= k <= level ==> !SomeOverlap(v[k], Span(f.smallest.user, f.largest.user))
    ensures FreeFor(v, level, f) && level < NUM_LEVELS
  {
  }

  lemma FlushLevels(v: Version, level: nat, f: File)
    requires level < NUM_LEVELS
    ensures forall p :: p in FlushEdit(level, f).deleted ==> p.0 < NUM_LEVELS
    ensures forall p :: p in FlushEdit(level, f).added ==> p.0 < NUM_LEVELS
  {
  }

  method PullIn(v: Version, i: nat) returns (picked: seq<File>)
    requires ValidVersion(v) && i < |v[0]|
    ensures IsPick(v, 0, i, picked)
  {
    var f := v[0][i];
    var smallest, largest := GetRange([f]);
    assert smallest == f.smallest && largest == f.largest;
    picked := GetOverlappingInputs(true, v[0], Span(smallest.user, largest.user));
  }

  lemma OneFileIsPick(v: Version, level: nat, i: nat)
    requires 0 < level < |v| && i < |v[level]|
    ensures IsPick(v, level, i, [v[level][i]])
  {
  }

  lemma PickIsGood(v: Version, level: nat, i: nat, picked: seq<File>)
    requires ValidVersion(v) && level + 1 < NUM_LEVELS && i < |v[level]| && IsPick(v, level, i, picked)
    ensures GoodPick(v, level, picked) && v[level][i] in picked
  {
    var f := v[level][i];
    if level == 0 {
      hide Overlapping, Least, Closed;
      var r := Span(f.smallest.user, f.largest.user);
      var reach :| IsClosure(v[0], r, reach) && picked == Overlapping(v[0], reach);
      assert f in v[0];
      MetByOwnSpan(f, reach);
      assert f in picked;
    } else {
      assert IsRun(v[level], picked, i, i + 1);
    }
  }

  lemma MetByOwnSpan(f: File, reach: Range)
    requires Covers(reach, Span(f.smallest.user, f.largest.user)) && f.smallest.user <= f.largest.user
    ensures Overlaps(f, reach)
  {
  }

  lemma EmptyOrNot(level: nat, files: seq<File>, r: Range, found: seq<File>)
    requires if level == 0 then exists reach :: IsClosure(files, r, reach) && found == Overlapping(files, reach)
             else found == Overlapping(files, r)
    ensures found == [] <==> Overlapping(files, r) == []
  {
    if level == 0 {
      var reach :| IsClosure(files, r, reach) && found == Overlapping(files, reach);
      if f :| f in Overlapping(files, r) {
        assert Overlaps(f, reach);
        assert f in found;
      } else {
        assert forall f :: f in files ==> f in Overlapping(files, r) || !Overlaps(f, r);
        assert Closed(files, r);
        assert Covers(r, reach);
        assert forall f :: f in files && Overlaps(f, reach) ==> Overlaps(f, r);
      }
    }
  }

  lemma ClosedPick(v: Version, r: Range, found: seq<File>)
    requires |v| == NUM_LEVELS && found != []
    requires exists reach :: IsClosure(v[0], r, reach) && found == Overlapping(v[0], reach)
    ensures GoodPick(v, 0, found) && IsManualPick(v, 0, r, found)
  {
  }

  lemma TruncatedRun(v: Version, level: nat, r: Range, n: nat)
    requires ValidVersion(v) && 0 < level && level + 1 < NUM_LEVELS
    requires IsFitting(Overlapping(v[level], r), n)
    ensures GoodPick(v, level, Overlapping(v[level], r)[..n])
    ensures IsManualPick(v, level, r, Overlapping(v[level], r)[..n])
  {
    hide *;
    LevelIsSorted(v, level);
    FittingIsPick(v, level, r, n);
    var all := Overlapping(v[level], r);
    var lo, hi := OverlappingIsRun(v[level], r);
    PrefixOfRun(v[level], lo, hi, n);
    RunOrNothing(v[level], all[..n], lo, lo + n);
    RunIsGood(v, level, all[..n], lo, lo + n);
  }

  lemma PrefixOfRun(files: seq<File>, lo: nat, hi: nat, n: nat)
    requires lo <= hi <= |files| && n <= hi - lo
    ensures files[lo..hi][..n] == files[lo..lo + n]
  {
  }

  lemma LevelIsSorted(v: Version, level: nat)
    requires ValidVersion(v) && 0 < level < NUM_LEVELS
    ensures |v| == NUM_LEVELS && ValidFiles(v[level]) && SortedLevel(v[level])
  {
  }

  lemma RunIsGood(v: Version, level: nat, inputs: seq<File>, lo: nat, hi: nat)
    requires |v| == NUM_LEVELS && 0 < level && level + 1 < NUM_LEVELS && IsRun(v[level], inputs, lo, hi)
    ensures GoodPick(v, level, inputs)
  {
  }

  lemma FittingIsPick(v: Version, level: nat, r: Range, n: nat)
    requires 0 < level < |v| && IsFitting(Overlapping(v[level], r), n)
    ensures 0 < n <= |Overlapping(v[level], r)|
    ensures IsManualPick(v, level, r, Overlapping(v[level], r)[..n])
  {
    var all := Overlapping(v[level], r);
    hide Overlapping, TotalFileSize;
    assert all[..n][..n - 1] == all[..n - 1];
  }

  /** The shortest prefix with a file's worth of bytes, or all files. */
  ghost predicate IsFitting(files: seq<File>, n: nat) {
    && 0 < n <= |files| && TotalFileSize(files[..n - 1]) < TARGET_FILE_SIZE
    && (n < |files| ==> TotalFileSize(files[..n]) >= TARGET_FILE_SIZE)
  }

  method FitSize(files: seq<File>) returns (n: nat)
    requires files != []
    ensures IsFitting(files, n)
  {
    n := 1;
    var total := files[0].size;
    SizeGrows(files, 0);
    while total < TARGET_FILE_SIZE && n < |files|
      invariant 0 < n <= |files| && total == TotalFileSize(files[..n])
      invariant TotalFileSize(files[..n - 1]) < TARGET_FILE_SIZE
    {
      SizeGrows(files, n);
      total := total + files[n].size;
      n := n + 1;
    }
  }

  lemma SizeGrows(files: seq<File>, n: nat)
    requires n < |files|
    ensures TotalFileSize(files[..n + 1]) == TotalFileSize(files[..n]) + files[n].size
    ensures TotalFileSize(files[..0]) == 0
  {
    assert files[..n + 1][..n] == files[..n];
  }

  lemma ChosenHere(st: State, level: nat, inputs0: seq<File>, inputs1: seq<File>)
    requires Inv(st) && |st.version| == NUM_LEVELS && level + 1 < NUM_LEVELS
    requires GoodPick(st.version, level, inputs0) && ValidInputs(st.version, level, inputs0, inputs1)
    ensures Chosen(st.version, level, inputs0, inputs1) && UniqueSequences(VersionSet(st.version))
  {
    hide GoodPick, ValidInputs, ValidVersion, LevelsByAge, VersionSet;
  }

  lemma UncutHasNoEnd(v: Version, level: nat, inputs: seq<File>)
    requires level < |v|
    ensures AllUncut(v) ==> level == 0 || !EndsInCut(v[level], inputs)
  {
  }

  /** What running a compaction comes to, for the state as a whole. */
  lemma CompactionOutcome(st: State, v': Version, level: nat, inputs0: seq<File>, inputs1: seq<File>,
                          input: seq<Entry>, outputs: seq<seq<Entry>>, sizes: nat -> nat, out: seq<File>)
    requires |st.version| == NUM_LEVELS && level + 1 < NUM_LEVELS && Inv(st)
    requires Chosen(st.version, level, inputs0, inputs1)
    requires Sorted(input) && Elements(input) == LevelSet(inputs0) + LevelSet(inputs1)
    requires Flatten(outputs) == Kept(input, st.version, level, Oldest(st), |input|)
    requires (forall o :: o in outputs ==> |o| > 0) && out == OutputFiles(st.nextFile, sizes, outputs)
    requires Applied(st.version, v', CompactionEdit(level, inputs0, inputs1, out))
    ensures Inv(st.(version := v', nextFile := st.nextFile + |outputs|)) <==> SafeToCompact(st, level, inputs0, inputs1, input)
    ensures Replaced(st, v', level, inputs0, inputs1, input, out)
    ensures LookupsAre(st, st.(version := v', nextFile := st.nextFile + |outputs|),
                       AgeSafe(st.version, level, inputs0, input, Oldest(st)) || Masked(st, inputs0),
                       BringsNothingBack(st, level, inputs0, inputs1, input))
    ensures IsCompaction(st, v', st.nextFile + |outputs|, level, inputs0, inputs1, input, outputs, sizes, out)
    ensures AllUncut(st.version) ==> SafeToCompact(st, level, inputs0, inputs1, input)
    ensures AllUncut(st.version) && (st.snapshots == [] || Uncut(out)) ==> AllUncut(v')
  {
    hide *;
    HandOver(st, v', level, inputs0, inputs1, input, outputs, sizes);
    CompactionIs(st, v', level, inputs0, inputs1, input, outputs, sizes, out);
    CompactKeepsInv(st, v', level, inputs0, inputs1, input, outputs, sizes);
    CompactionReplaces(st, v', level, inputs0, inputs1, input, outputs, sizes, out);
    CompactKeepsUncut(st, v', level, inputs0, inputs1, input, outputs, sizes, out);
    CompactLookups(st, v', level, inputs0, inputs1, input, outputs, sizes);
    if AllUncut(st.version) {
      UncutStoreIsSafe(st, level, inputs0, inputs1, input);
    }
  }

  lemma FreshStore(st: State)
    requires st.mem == [] && st.imm == None && st.last == 0 && st.snapshots == [] && st.history == {}
    requires |st.version| == NUM_LEVELS && forall l :: 0 <= l < NUM_LEVELS ==> st.version[l] == []
    ensures Inv(st)
  {
    EmptyVersion(st.version);
    assert AllEntries(st) == {};
    hide VersionSet, LevelSet, ValidVersion, LevelsByAge, NumbersOk;
  }

  lemma EmptyVersion(v: Version)
    requires |v| == NUM_LEVELS && forall l :: 0 <= l < NUM_LEVELS ==> v[l] == []
    ensures VersionSet(v) == {} && ValidVersion(v) && LevelsByAge(v)
    ensures forall next :: NumbersOk(v, next)
  {
    assert forall fs :: fs in v ==> fs == [];
    assert forall l :: 0 <= l < NUM_LEVELS ==> LevelSet(v[l]) == {};
    hide LevelSet;
  }
}
