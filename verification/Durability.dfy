/**
A store and its files: the manifest and the logs that still matter, next to the database object.
Opening what a crash leaves behind gives a store of the groups that survived
(util/leveldb/db/db_impl.cc, DBImpl::Write, MakeRoomForWrite, CompactMemTable, BackgroundCompaction,
Recover and RecoverLogFile; util/leveldb/db/version_set.cc, LogAndApply and Recover).
 */
module Durability {
  import opened Common
  import opened Keys
  import opened History
  import opened Versions
  import opened Inputs
  import opened Edits
  import opened Compactions
  import opened Cuts
  import opened Installs
  import opened CompactionJob
  import opened Flushes
  import opened UncutLevels
  import opened Manifests
  import opened Stores
  import opened Engine
  import opened Lookups
  import opened Ledgers

  // ---------------------------------------------------------------- the part that is on disk

  /** Entries newer than everything else change both sides of the relation alike. */
  lemma AddedKeepsReads(A: set<Entry>, H: set<Entry>, E: set<Entry>, last: Sequence, m: Sequence)
    requires UpTo(A, last) && UpTo(H, last) && (forall e :: e in E ==> e.key.sn > last)
    requires UniqueSequences(A) && UniqueSequences(H) && UniqueSequences(E) && SameReads(A, H, m)
    ensures UniqueSequences(A + E) && UniqueSequences(H + E) && SameReads(A + E, H + E, m)
  {
    forall u, s: Sequence | s >= m
      ensures Read(A + E, u, s) == Read(H + E, u, s)
    {
      LayeredRead(A, E, last, u, s);
      LayeredRead(H, E, last, u, s);
      assert Read(A, u, s) == Read(H, u, s);
    }
  }

  lemma LayeredRead(A: set<Entry>, E: set<Entry>, last: Sequence, u: UserKey, s: Sequence)
    requires UpTo(A, last) && (forall e :: e in E ==> e.key.sn > last)
    requires UniqueSequences(A) && UniqueSequences(E)
    ensures UniqueSequences(A + E)
    ensures Read(A + E, u, s) == if Find(E, u, s).Some? then Answer(Find(E, u, s)) else Read(A, u, s)
  {
    var a, e := Find(A, u, s), Find(E, u, s);
    assert Newer(E, A);
    LayersCompose(E, A, u, s, e, a);
    assert E + A == A + E;
    assert FoundIn(A + E, u, s, if e.Some? then e else a);
    FoundIsFind(A + E, u, s, if e.Some? then e else a);
  }

  /**
  The store on disk as a store of its own.  `floor` is the oldest sequence number at which it must still
  answer, as if a snapshot were live there.
   */
  ghost function Disk(version: Version, nextFile: nat, last: Sequence, history: set<Entry>, floor: Sequence): State {
    OnDisk(version, nextFile, last, history).(snapshots := [floor])
  }

  ghost predicate IsDisk(disk: State) {
    disk.mem == [] && disk.imm == None && |disk.snapshots| == 1
  }

  /** The oldest live snapshot, or the last flushed sequence number if that is older. */
  ghost function Floor(st: State, flushed: Sequence): Sequence {
    if Oldest(st) < flushed then Oldest(st) else flushed
  }

  /** The store on disk takes the closed memtable in, as if its operations had just been written. */
  lemma ImmJoins(disk: State, es: seq<Entry>, last: Sequence)
    requires Inv(disk) && IsDisk(disk)
    requires Sorted(es) && UniqueSequences(Elements(es)) && disk.last <= last < MAX_SEQUENCE
    requires forall e :: e in Elements(es) ==> disk.last < e.key.sn <= last
    ensures Inv(disk.(imm := Some(es), last := last, history := disk.history + Elements(es)))
  {
    var st := disk.(imm := Some(es), last := last, history := disk.history + Elements(es));
    var V, E := VersionSet(disk.version), Elements(es);
    hide ValidVersion, LevelsByAge, NumbersOk, VersionSet, SameReads, Sorted;
    assert AllEntries(disk) == V && AllEntries(st) == V + E;
    assert Structured(st) && Aged(st) && SnapshotsOrdered(st);
    AddedKeepsReads(V, disk.history, E, disk.last, Oldest(disk));
    assert Counted(st);
  }

  /** Flushing brings the store on disk up to the closed memtable. */
  lemma FlushOnDisk(disk: State, st: State, v': Version, level: nat, size: nat, edit: Edit, last: Sequence)
    requires Inv(disk) && IsDisk(disk)
    requires st.version == disk.version && st.nextFile == disk.nextFile && st.imm.Some? && Sorted(st.imm.value)
    requires UniqueSequences(Elements(st.imm.value)) && disk.last <= last < MAX_SEQUENCE
    requires forall e :: e in Elements(st.imm.value) ==> disk.last < e.key.sn <= last
    requires IsFlush(st, v', st.nextFile + 1, level, size, edit)
    ensures Inv(Disk(v', st.nextFile + 1, last, disk.history + Elements(st.imm.value), Oldest(disk)))
  {
    hide *;
    var joined := disk.(imm := st.imm, last := last, history := disk.history + Elements(st.imm.value));
    ImmJoins(disk, st.imm.value, last);
    FlushParts(st, v', level, size, edit);
    FlushKeepsInv(joined, v', level, size);
    FlushedDisk(disk, joined, v', last);
  }

  lemma FlushParts(st: State, v': Version, level: nat, size: nat, edit: Edit)
    requires IsFlush(st, v', st.nextFile + 1, level, size, edit)
    ensures st.imm.Some? && |st.imm.value| > 0 && |st.version| == NUM_LEVELS
    ensures FreeFor(st.version, level, TableFile(st.nextFile, size, st.imm.value))
    ensures edit == FlushEdit(level, TableFile(st.nextFile, size, st.imm.value)) && Applied(st.version, v', edit)
    ensures Flushed(st.version, v', level, TableFile(st.nextFile, size, st.imm.value))
  {
  }

  lemma FlushedDisk(disk: State, joined: State, v': Version, last: Sequence)
    requires IsDisk(disk)
    requires joined.mem == disk.mem && joined.snapshots == disk.snapshots && joined.last == last
    ensures joined.(imm := None, version := v', nextFile := joined.nextFile + 1)
            == Disk(v', joined.nextFile + 1, last, joined.history, Oldest(disk))
  {
  }

  /** Rules that compare with two bounds above all inputs drop the same. */
  lemma {:induction false} SameKept(input: seq<Entry>, v: Version, level: nat, m: Sequence, m': Sequence, n: nat)
    requires |v| == NUM_LEVELS && n <= |input|
    requires forall e :: e in Elements(input) ==> e.key.sn <= m && e.key.sn <= m'
    ensures Kept(input, v, level, m, n) == Kept(input, v, level, m', n)
  {
    if n > 0 {
      SameKept(input, v, level, m, m', n - 1);
      assert input[n - 1] in input && (n > 1 ==> input[n - 2] in input);
    }
  }

  /** A compaction whose inputs end in no cut does to the store on disk what it does to the whole store. */
  lemma CompactOnDisk(disk: State, st: State, v': Version, next': nat, level: nat, inputs0: seq<File>,
                      inputs1: seq<File>, input: seq<Entry>, outputs: seq<seq<Entry>>, sizes: nat -> nat, out: seq<File>)
    requires Inv(disk) && IsDisk(disk) && |st.version| == NUM_LEVELS && level + 1 < NUM_LEVELS
    requires EndsWhole(st.version, level, inputs0, inputs1)
    requires st.version == disk.version && st.nextFile == disk.nextFile && Oldest(disk) == Floor(st, disk.last)
    requires IsCompaction(st, v', next', level, inputs0, inputs1, input, outputs, sizes, out)
    ensures Inv(disk.(version := v', nextFile := next'))
  {
    hide *;
    CompactionParts(st, v', next', level, inputs0, inputs1, input, outputs, sizes, out);
    CompactedParts(st, v', level, inputs0, inputs1, input, outputs, sizes);
    InputsUpTo(disk, level, inputs0, inputs1, input);
    FloorIs(st, disk.last);
    if Oldest(st) >= disk.last {
      OldIsOlder(input, disk.last, Oldest(st));
      SameKept(input, st.version, level, Oldest(st), disk.last, |input|);
    }
    HandOver(disk, v', level, inputs0, inputs1, input, outputs, sizes);
    WholeParts(st.version, level, inputs0, inputs1);
    UncutInputsAreSafe(disk, level, inputs0, inputs1, input);
    CompactKeepsInv(disk, v', level, inputs0, inputs1, input, outputs, sizes);
  }

  /** Neither input run ends between two versions of a user key. */
  ghost predicate EndsWhole(v: Version, level: nat, inputs0: seq<File>, inputs1: seq<File>)
    requires |v| == NUM_LEVELS && level + 1 < NUM_LEVELS
  {
    (level == 0 || !EndsInCut(v[level], inputs0)) && !EndsInCut(v[level + 1], inputs1)
  }

  /** The inputs are gone and some files have come one level down. */
  ghost predicate InputsReplaced(v: Version, v': Version, level: nat, inputs0: seq<File>, inputs1: seq<File>) {
    exists out :: Applied(v, v', CompactionEdit(level, inputs0, inputs1, out))
  }

  /** The inputs selected for `picked` are compacted if they end in no cut. */
  ghost predicate Attempted(v: Version, v': Version, level: nat, picked: seq<File>)
    requires |v| == NUM_LEVELS && level + 1 < NUM_LEVELS
  {
    exists inputs0, inputs1 ::
      && ChosenFrom(v, level, picked, inputs0, inputs1) && BestInputs(v, level, picked, inputs0, inputs1)
      && if EndsWhole(v, level, inputs0, inputs1) then InputsReplaced(v, v', level, inputs0, inputs1) else v' == v
  }

  ghost predicate NextAttempted(v: Version, v': Version, pointer: Option<InternalKey>, level: nat)
    requires |v| == NUM_LEVELS && level + 1 < NUM_LEVELS
  {
    exists i: nat, picked ::
      i < |v[level]| && IsNextFile(v[level], pointer, i) && IsPick(v, level, i, picked) && Attempted(v, v', level, picked)
  }

  ghost predicate SpanAttempted(v: Version, v': Version, level: nat, r: Range)
    requires |v| == NUM_LEVELS && level + 1 < NUM_LEVELS
  {
    exists picked :: IsManualPick(v, level, r, picked) && Attempted(v, v', level, picked)
  }

  /** The waiting memtable, unless it is empty, becomes a table of the deepest level it can go down to. */
  ghost predicate FlushedDown(st: State, v': Version, size: nat)
    requires |st.version| == NUM_LEVELS
  {
    if st.imm == None || st.imm.value == [] then v' == st.version
    else
      var es := st.imm.value;
      exists level: nat ::
        && DeepestFree(st.version, es[0].key.user, es[|es| - 1].key.user, level)
        && Flushed(st.version, v', level, TableFile(st.nextFile, size, es))
  }

  /** What a call does to the version, apart from crashes. */
  ghost predicate VersionAfter(st: State, pointers: seq<Option<InternalKey>>, v': Version, call: Call)
    requires |st.version| == NUM_LEVELS == |pointers|
  {
    var v := st.version;
    match call
    case Compact(level, _, _, _) =>
      if level + 1 < NUM_LEVELS && |v[level]| > 0 then NextAttempted(v, v', pointers[level], level) else v' == v
    case CompactBetween(level, r, _, _, _) =>
      if level + 1 < NUM_LEVELS && Overlapping(v[level], r) != [] then SpanAttempted(v, v', level, r) else v' == v
    case Flush(size) => FlushedDown(st, v', size)
    case Crash(_, _, _, _) => true
    case _ => v' == v
  }

  ghost function SnapshotsAfter(snapshots: seq<Sequence>, last: Sequence, call: Call): seq<Sequence> {
    match call
    case TakeSnapshot => snapshots + [last]
    case DropSnapshot(i) => if i < |snapshots| then Removed(snapshots, i) else snapshots
    case Crash(_, _, _, _) => []
    case _ => snapshots
  }

  lemma PackVersion(st: State, pointers: seq<Option<InternalKey>>, v': Version, call: Call)
    requires |st.version| == NUM_LEVELS == |pointers| && !call.Flush? && !call.Crash?
    requires var v := st.version;
             var ran := if call.Compact? then call.level + 1 < NUM_LEVELS && |v[call.level]| > 0
                        else call.CompactBetween? && call.level + 1 < NUM_LEVELS && Overlapping(v[call.level], call.r) != [];
             if !ran then v' == v
             else if call.Compact? then NextAttempted(v, v', pointers[call.level], call.level)
             else SpanAttempted(v, v', call.level, call.r)
    ensures VersionAfter(st, pointers, v', call)
  {
    hide NextAttempted, SpanAttempted, Overlapping, FlushedDown;
  }

  lemma PackFlush(st: State, v': Version, next': nat, level: nat, size: nat, edit: Edit)
    requires |st.version| == NUM_LEVELS && IsFlush(st, v', next', level, size, edit)
    requires DeepestFree(st.version, st.imm.value[0].key.user, st.imm.value[|st.imm.value| - 1].key.user, level)
    ensures FlushedDown(st, v', size)
  {
    hide DeepestFree, Flushed, Applied, FreeFor, FlushEdit, TableFile;
  }

  lemma NothingToFlush(st: State, size: nat)
    requires |st.version| == NUM_LEVELS && (st.imm == None || st.imm.value == [])
    ensures FlushedDown(st, st.version, size)
  {
  }

  lemma PackReplaced(v: Version, v': Version, level: nat, inputs0: seq<File>, inputs1: seq<File>, out: seq<File>)
    requires Applied(v, v', CompactionEdit(level, inputs0, inputs1, out))
    ensures InputsReplaced(v, v', level, inputs0, inputs1)
  {
    hide Applied, CompactionEdit;
  }

  lemma PackAttempt(v: Version, v': Version, level: nat, picked: seq<File>, inputs0: seq<File>, inputs1: seq<File>)
    requires |v| == NUM_LEVELS && level + 1 < NUM_LEVELS
    requires ChosenFrom(v, level, picked, inputs0, inputs1) && BestInputs(v, level, picked, inputs0, inputs1)
    requires if EndsWhole(v, level, inputs0, inputs1) then InputsReplaced(v, v', level, inputs0, inputs1) else v' == v
    ensures Attempted(v, v', level, picked)
  {
    hide ChosenFrom, BestInputs, EndsWhole, InputsReplaced;
  }

  lemma PackNext(v: Version, v': Version, pointer: Option<InternalKey>, level: nat, i: nat, picked: seq<File>)
    requires |v| == NUM_LEVELS && level + 1 < NUM_LEVELS && i < |v[level]| && IsNextFile(v[level], pointer, i)
    requires IsPick(v, level, i, picked) && Attempted(v, v', level, picked)
    ensures NextAttempted(v, v', pointer, level)
  {
    hide IsNextFile, IsPick, Attempted;
  }

  lemma PackSpan(v: Version, v': Version, level: nat, r: Range, picked: seq<File>)
    requires |v| == NUM_LEVELS && level + 1 < NUM_LEVELS
    requires IsManualPick(v, level, r, picked) && Attempted(v, v', level, picked)
    ensures SpanAttempted(v, v', level, r)
  {
    hide IsManualPick, Attempted;
  }

  lemma WholeParts(v: Version, level: nat, inputs0: seq<File>, inputs1: seq<File>)
    requires |v| == NUM_LEVELS && level + 1 < NUM_LEVELS
    ensures EndsWhole(v, level, inputs0, inputs1)
            <==> (level == 0 || !EndsInCut(v[level], inputs0)) && !EndsInCut(v[level + 1], inputs1)
  {
  }

  lemma FloorIs(st: State, flushed: Sequence)
    ensures Floor(st, flushed) == if Oldest(st) < flushed then Oldest(st) else flushed
  {
  }

  lemma InputsUpTo(st: State, level: nat, inputs0: seq<File>, inputs1: seq<File>, input: seq<Entry>)
    requires |st.version| == NUM_LEVELS && level + 1 < NUM_LEVELS && Inv(st)
    requires ValidInputs(st.version, level, inputs0, inputs1)
    requires Elements(input) == LevelSet(inputs0) + LevelSet(inputs1)
    ensures forall e :: e in Elements(input) ==> e.key.sn <= st.last
  {
    InputInVersion(st.version, level, inputs0, inputs1);
    assert Elements(input) <= AllEntries(st);
  }

  lemma OldIsOlder(input: seq<Entry>, m: Sequence, m': Sequence)
    requires (forall e :: e in Elements(input) ==> e.key.sn <= m) && m <= m'
    ensures forall e :: e in Elements(input) ==> e.key.sn <= m && e.key.sn <= m'
  {
  }

  lemma CompactionParts(st: State, v': Version, next': nat, level: nat, inputs0: seq<File>,
                        inputs1: seq<File>, input: seq<Entry>, outputs: seq<seq<Entry>>, sizes: nat -> nat, out: seq<File>)
    requires IsCompaction(st, v', next', level, inputs0, inputs1, input, outputs, sizes, out)
    ensures |st.version| == NUM_LEVELS && next' == st.nextFile + |outputs|
    ensures Compacted(st, v', level, inputs0, inputs1, input, outputs, sizes)
    ensures (forall o :: o in outputs ==> |o| > 0) && out == OutputFiles(st.nextFile, sizes, outputs)
  {
  }

  // ---------------------------------------------------------------- the files of a store

  /**
  All edits since the store was created, the last sequence number recorded with them, the groups in
  the log of the closed memtable and in that of the open one, and how many of each were synced.
   */
  datatype Files = Files(manifest: seq<Edit>, recorded: Sequence, oldLog: seq<Group>, newLog: seq<Group>,
                         oldSynced: nat, newSynced: nat) {
    function Logs(): (r: seq<Group>) {
      oldLog + newLog
    }
  }

  /** The logs hold what is in memory and not in the version, numbered without a gap. */
  ghost predicate LogsOk(st: State, fs: Files, past: seq<Group>, flushed: Sequence) {
    && (st.imm.None? ==> fs.oldLog == []) && fs.oldSynced <= |fs.oldLog| && fs.newSynced <= |fs.newLog|
    && Numbered(fs.Logs(), flushed, st.last)
    && ImmSet(st) == Entries(fs.oldLog) && Elements(st.mem) == Entries(fs.newLog)
    && st.history == Entries(past + fs.Logs())
    && flushed <= fs.recorded <= st.last
  }

  /** The files alone are a store of the flushed groups, and the manifest leads to the version. */
  ghost predicate DiskOk(version: Version, nextFile: nat, manifest: seq<Edit>, past: seq<Group>, flushed: Sequence,
                         floor: Sequence) {
    && Rising(past, flushed) && floor <= flushed
    && Inv(Disk(version, nextFile, flushed, Entries(past), floor))
    && Recorded(manifest, version, nextFile)
  }

  ghost predicate Sound(st: State, fs: Files, past: seq<Group>, flushed: Sequence) {
    && Inv(st) && LogsOk(st, fs, past, flushed)
    && DiskOk(st.version, st.nextFile, fs.manifest, past, flushed, Floor(st, flushed))
  }

  lemma CommitKeepsLogs(st: State, st': State, fs: Files, past: seq<Group>, flushed: Sequence, g: Group, synced: nat)
    requires LogsOk(st, fs, past, flushed) && g.first == st.last + 1 && synced <= |fs.newLog| + 1
    requires st'.last == st.last + |g.ops| && st'.imm == st.imm
    requires st'.history == st.history + Written(g.ops, g.first)
    requires Elements(st'.mem) == Elements(st.mem) + Written(g.ops, g.first)
    ensures LogsOk(st', fs.(newLog := fs.newLog + [g], newSynced := synced), past, flushed)
  {
    hide *;
    var fs' := fs.(newLog := fs.newLog + [g], newSynced := synced);
    LogsParts(st, fs, past, flushed);
    GroupAdded(fs, fs', past, g);
    NumberedGrows(fs.Logs(), flushed, st.last, g);
    OpsOfOne(g);
    EntriesConcat(fs.newLog, [g]);
    EntriesConcat(past + fs.Logs(), [g]);
    SameImm(st, st');
    LogsFrom(st', fs', past, flushed);
  }

  lemma SameImm(st: State, st': State)
    requires st.imm == st'.imm
    ensures ImmSet(st) == ImmSet(st')
  {
  }

  lemma GroupAdded(fs: Files, fs': Files, past: seq<Group>, g: Group)
    requires fs'.oldLog == fs.oldLog && fs'.newLog == fs.newLog + [g]
    ensures fs'.Logs() == fs.Logs() + [g] && past + fs'.Logs() == past + fs.Logs() + [g]
  {
  }

  lemma LogsParts(st: State, fs: Files, past: seq<Group>, flushed: Sequence)
    requires LogsOk(st, fs, past, flushed)
    ensures (st.imm.None? ==> fs.oldLog == []) && fs.oldSynced <= |fs.oldLog| && fs.newSynced <= |fs.newLog|
    ensures Numbered(fs.Logs(), flushed, st.last) && st.history == Entries(past + fs.Logs())
    ensures ImmSet(st) == Entries(fs.oldLog) && Elements(st.mem) == Entries(fs.newLog)
    ensures flushed <= fs.recorded <= st.last
  {
  }

  lemma LogsFrom(st: State, fs: Files, past: seq<Group>, flushed: Sequence)
    requires (st.imm.None? ==> fs.oldLog == []) && fs.oldSynced <= |fs.oldLog| && fs.newSynced <= |fs.newLog|
    requires Numbered(fs.Logs(), flushed, st.last) && st.history == Entries(past + fs.Logs())
    requires ImmSet(st) == Entries(fs.oldLog) && Elements(st.mem) == Entries(fs.newLog)
    requires flushed <= fs.recorded <= st.last
    ensures LogsOk(st, fs, past, flushed)
  {
  }

  /** The log becomes that of the closed memtable. */
  function LogClosed(fs: Files): (fs': Files) {
    Files(fs.manifest, fs.recorded, fs.newLog, [], fs.newSynced, 0)
  }

  lemma SwitchKeepsLogs(st: State, st': State, fs: Files, past: seq<Group>, flushed: Sequence)
    requires LogsOk(st, fs, past, flushed) && st.imm.None? && st' == st.(mem := [], imm := Some(st.mem))
    ensures LogsOk(st', LogClosed(fs), past, flushed)
  {
    var fs' := LogClosed(fs);
    assert fs'.Logs() == fs.Logs() == fs.newLog;
  }

  /** What is left to read from the logs after a flush. */
  lemma FlushKeepsLogs(st: State, st': State, fs: Files, past: seq<Group>, flushed: Sequence, manifest: seq<Edit>)
    requires LogsOk(st, fs, past, flushed) && Rising(past, flushed)
    requires st'.mem == st.mem && st'.imm.None? && st'.last == st.last && st'.history == st.history
    ensures var flushed' := flushed + |Ops(fs.oldLog)|;
            && flushed <= flushed' <= st.last && Rising(past + fs.oldLog, flushed')
            && (forall e :: e in Entries(fs.oldLog) ==> flushed < e.key.sn <= flushed')
            && Entries(past + fs.oldLog) == Entries(past) + ImmSet(st)
            && LogsOk(st', Files(manifest, st.last, [], fs.newLog, 0, fs.newSynced), past + fs.oldLog, flushed')
  {
    hide *;
    var flushed' := flushed + |Ops(fs.oldLog)|;
    var fs' := Files(manifest, st.last, [], fs.newLog, 0, fs.newSynced);
    LogsParts(st, fs, past, flushed);
    LogsMove(fs, fs', past);
    NumberedSplit(fs.oldLog, fs.newLog, flushed, st.last);
    NumberedRange(fs.oldLog, flushed, flushed');
    NumberedRange(fs.newLog, flushed', st.last);
    RisingOn(past, fs.oldLog, flushed, flushed');
    EntriesConcat(past, fs.oldLog);
    NoEntries(st');
    LogsFrom(st', fs', past + fs.oldLog, flushed');
  }

  lemma LogsMove(fs: Files, fs': Files, past: seq<Group>)
    requires fs'.oldLog == [] && fs'.newLog == fs.newLog
    ensures fs.Logs() == fs.oldLog + fs.newLog && fs'.Logs() == fs.newLog
    ensures past + fs.oldLog + fs'.Logs() == past + fs.Logs()
  {
    assert past + fs.oldLog + fs.newLog == past + (fs.oldLog + fs.newLog);
  }

  lemma NoEntries(st: State)
    requires st.imm.None?
    ensures Entries([]) == {} == ImmSet(st)
  {
  }

  lemma FlushKeepsDisk(st: State, v': Version, next': nat, fs: Files, past: seq<Group>, flushed: Sequence,
                       flushed': Sequence, level: nat, size: nat, edit: Edit)
    requires Inv(st) && st.imm.Some?
    requires DiskOk(st.version, st.nextFile, fs.manifest, past, flushed, Floor(st, flushed))
    requires flushed <= flushed' <= st.last && Rising(past + fs.oldLog, flushed')
    requires forall e :: e in ImmSet(st) ==> flushed < e.key.sn <= flushed'
    requires Entries(past + fs.oldLog) == Entries(past) + ImmSet(st)
    requires if st.imm.value == [] then edit == EMPTY_EDIT && v' == st.version && next' == st.nextFile
             else IsFlush(st, v', next', level, size, edit)
    ensures DiskOk(v', next', fs.manifest + [edit], past + fs.oldLog, flushed', Floor(st, flushed'))
  {
    hide *;
    var floor := Floor(st, flushed);
    var disk := Disk(st.version, st.nextFile, flushed, Entries(past), floor);
    DiskParts(st.version, st.nextFile, fs.manifest, past, flushed, floor);
    DiskFields(st.version, st.nextFile, flushed, Entries(past), floor);
    InvLayers(st);
    ImmParts(st);
    if st.imm.value == [] {
      LaterKeepsInv(disk, flushed');
      NothingIsTidy(v', next');
      RecordStep(fs.manifest, v', v', edit, next', next');
    } else {
      NextOfFlush(st, v', next', level, size, edit);
      FlushOnDisk(disk, st, v', level, size, edit, flushed');
      FlushParts(st, v', level, size, edit);
      TableIsValid(st.nextFile, size, st.imm.value);
      FlushIsTidy(st.version, v', level, TableFile(st.nextFile, size, st.imm.value));
      InvLayers(Disk(v', next', flushed', Entries(past) + ImmSet(st), floor));
      DiskFields(v', next', flushed', Entries(past) + ImmSet(st), floor);
      RecordStep(fs.manifest, st.version, v', edit, st.nextFile, next');
    }
    DiskFrom(v', next', fs.manifest + [edit], past + fs.oldLog, flushed', floor);
    FloorIs(st, flushed);
    FloorIs(st, flushed');
    DiskRises(v', next', fs.manifest + [edit], past + fs.oldLog, flushed', floor, Floor(st, flushed'));
  }

  lemma DiskParts(version: Version, nextFile: nat, manifest: seq<Edit>, past: seq<Group>, flushed: Sequence,
                  floor: Sequence)
    requires DiskOk(version, nextFile, manifest, past, flushed, floor)
    ensures Rising(past, flushed) && floor <= flushed && Recorded(manifest, version, nextFile)
    ensures Inv(Disk(version, nextFile, flushed, Entries(past), floor))
  {
  }

  lemma DiskFrom(version: Version, nextFile: nat, manifest: seq<Edit>, past: seq<Group>, flushed: Sequence,
                 floor: Sequence)
    requires Rising(past, flushed) && floor <= flushed && Recorded(manifest, version, nextFile)
    requires Inv(Disk(version, nextFile, flushed, Entries(past), floor))
    ensures DiskOk(version, nextFile, manifest, past, flushed, floor)
  {
  }

  /** The store on disk need not answer for sequence numbers that no snapshot is left for. */
  lemma DiskRises(version: Version, nextFile: nat, manifest: seq<Edit>, past: seq<Group>, flushed: Sequence,
                  floor: Sequence, floor': Sequence)
    requires DiskOk(version, nextFile, manifest, past, flushed, floor) && floor <= floor' <= flushed
    ensures DiskOk(version, nextFile, manifest, past, flushed, floor')
  {
    hide *;
    DiskParts(version, nextFile, manifest, past, flushed, floor);
    DiskFields(version, nextFile, flushed, Entries(past), floor);
    RaiseKeepsInv(Disk(version, nextFile, flushed, Entries(past), floor), floor');
    DiskFrom(version, nextFile, manifest, past, flushed, floor');
  }

  lemma DiskFields(version: Version, nextFile: nat, last: Sequence, history: set<Entry>, floor: Sequence)
    ensures var disk := Disk(version, nextFile, last, history, floor);
            && disk.version == version && disk.nextFile == nextFile && disk.last == last && disk.history == history
            && disk.snapshots == [floor] && IsDisk(disk) && Oldest(disk) == floor
            && (forall last' :: disk.(last := last') == Disk(version, nextFile, last', history, floor))
            && (forall floor' :: disk.(snapshots := [floor']) == Disk(version, nextFile, last, history, floor'))
            && (forall v', next' :: disk.(version := v', nextFile := next') == Disk(v', next', last, history, floor))
            && disk.(snapshots := []) == OnDisk(version, nextFile, last, history)
  {
  }

  lemma ImmParts(st: State)
    requires st.imm.Some? && UniqueSequences(AllEntries(st))
    ensures ImmSet(st) == Elements(st.imm.value) && UniqueSequences(ImmSet(st))
    ensures forall H: set<Entry> :: st.imm.value == [] ==> H + ImmSet(st) == H
  {
  }

  lemma NextOfFlush(st: State, v': Version, next': nat, level: nat, size: nat, edit: Edit)
    requires IsFlush(st, v', next', level, size, edit)
    ensures next' == st.nextFile + 1
  {
  }

  lemma MoveKeepsDisk(st: State, v': Version, fs: Files, past: seq<Group>, flushed: Sequence, floor: Sequence,
                      level: nat, f: File)
    requires DiskOk(st.version, st.nextFile, fs.manifest, past, flushed, floor)
    requires |st.version| == NUM_LEVELS && level + 1 < NUM_LEVELS && EndsWhole(st.version, level, [f], [])
    requires GoodPick(st.version, level, [f]) && ValidInputs(st.version, level, [f], [])
    requires Applied(st.version, v', CompactionEdit(level, [f], [], [f]))
    ensures DiskOk(v', st.nextFile, fs.manifest + [CompactionEdit(level, [f], [], [f])], past, flushed, floor)
  {
    hide *;
    var v, next := st.version, st.nextFile;
    var disk := Disk(v, next, flushed, Entries(past), floor);
    DiskParts(v, next, fs.manifest, past, flushed, floor);
    DiskFields(v, next, flushed, Entries(past), floor);
    DiskFields(v', next, flushed, Entries(past), floor);
    ChosenHere(disk, level, [f], []);
    MoveKeepsInv(disk, v', level, f);
    WholeParts(v, level, [f], []);
    MovedDisk(disk, v');
    InvLayers(Disk(v', next, flushed, Entries(past), floor));
    PickIsHere(v, level, [f]);
    CompactionIsTidy(v, v', level, [f], [], [f], next, next);
    RecordStep(fs.manifest, v, v', CompactionEdit(level, [f], [], [f]), next, next);
    DiskFrom(v', next, fs.manifest + [CompactionEdit(level, [f], [], [f])], past, flushed, floor);
  }

  lemma MovedDisk(disk: State, v': Version)
    ensures disk.(version := v', nextFile := disk.nextFile) == disk.(version := v')
  {
  }

  lemma PickIsHere(v: Version, level: nat, inputs: seq<File>)
    requires |v| == NUM_LEVELS && level + 1 < NUM_LEVELS && GoodPick(v, level, inputs)
    ensures forall f :: f in inputs ==> f in v[level]
  {
  }

  lemma CompactKeepsDisk(st: State, v': Version, next': nat, fs: Files, past: seq<Group>, flushed: Sequence, level: nat,
                         inputs0: seq<File>, inputs1: seq<File>, input: seq<Entry>, outputs: seq<seq<Entry>>,
                         sizes: nat -> nat, out: seq<File>)
    requires DiskOk(st.version, st.nextFile, fs.manifest, past, flushed, Floor(st, flushed))
    requires IsCompaction(st, v', next', level, inputs0, inputs1, input, outputs, sizes, out)
    requires |st.version| == NUM_LEVELS && level + 1 < NUM_LEVELS && EndsWhole(st.version, level, inputs0, inputs1)
    requires Replaced(st, v', level, inputs0, inputs1, input, out)
    ensures DiskOk(v', next', fs.manifest + [CompactionEdit(level, inputs0, inputs1, out)], past, flushed,
                   Floor(st, flushed))
  {
    hide *;
    var v, next, edit, floor := st.version, st.nextFile, CompactionEdit(level, inputs0, inputs1, out), Floor(st, flushed);
    var disk := Disk(v, next, flushed, Entries(past), floor);
    DiskParts(v, next, fs.manifest, past, flushed, floor);
    DiskFields(v, next, flushed, Entries(past), floor);
    DiskFields(v', next', flushed, Entries(past), floor);
    CompactOnDisk(disk, st, v', next', level, inputs0, inputs1, input, outputs, sizes, out);
    InvLayers(Disk(v', next', flushed, Entries(past), floor));
    CompactionParts(st, v', next', level, inputs0, inputs1, input, outputs, sizes, out);
    CompactedParts(st, v', level, inputs0, inputs1, input, outputs, sizes);
    ReplacedParts(st, v', level, inputs0, inputs1, input, out);
    NewNumbers(next, sizes, outputs);
    CompactionIsTidy(v, v', level, inputs0, inputs1, out, next, next');
    RecordStep(fs.manifest, v, v', edit, next, next');
    DiskFrom(v', next', fs.manifest + [edit], past, flushed, floor);
  }

  lemma NewNumbers(next: nat, sizes: nat -> nat, outputs: seq<seq<Entry>>)
    requires forall o :: o in outputs ==> |o| > 0
    ensures forall f :: f in OutputFiles(next, sizes, outputs) ==> next <= f.number < next + |outputs|
  {
  }

  // ---------------------------------------------------------------- the store

  class Durable {
    const db: DB
    var files: Files
    /** The groups that are in the version, and the last sequence number they reach. */
    ghost var past: seq<Group>
    ghost var flushed: Sequence

    ghost predicate Valid()
      reads this, db
    {
      db.Valid() && Sound(db.View(), files, past, flushed)
    }

    ghost function Groups(): seq<Group>
      reads this
    {
      past + files.Logs()
    }

    ghost function Abs(): Ledger
      reads this, db
    {
      LedgerOf(files, past, db.imm.Some?)
    }

    /** A new store. */
    constructor ()
      ensures Valid() && fresh(db) && Abs() == NEW_LEDGER && db.last == 0 && db.snapshots == [] && AllUncut(db.version)
    {
      hide *;
      db := new DB();
      files, past, flushed := Files([], 0, [], [], 0, 0), [], 0;
      new;
      db.ValidIs();
      db.LevelsAre();
      NewIsSound(db.View(), files);
      ValidIs();
      NewLedger();
    }

    /** What a manifest describes, before any log is replayed. */
    constructor Recovered(version: Version, nextFile: nat, manifest: seq<Edit>, base: Sequence, ghost past: seq<Group>,
                          ghost floor: Sequence)
      requires DiskOk(version, nextFile, manifest, past, base, floor)
      ensures Valid() && fresh(db) && Groups() == past && files.oldLog == files.newLog == []
      ensures Abs() == Ledger(Batches(past), [], [], 0, 0, false)
      ensures db.last == base && db.mem == [] && db.imm == None && db.snapshots == [] && db.version == version
    {
      hide *;
      DiskIsStore(version, nextFile, manifest, past, base, floor);
      db := new DB.Recovered(version, nextFile, base, Entries(past));
      files, this.past, flushed := Files(manifest, base, [], [], 0, 0), past, base;
      new;
      db.ValidIs();
      OnDiskIs(version, nextFile, base, Entries(past));
      RecoveredIsSound(db.View(), files, past, base, floor);
      ValidIs();
      AllDone(files, past);
    }

    lemma ValidIs()
      ensures Valid() <==> db.Valid() && Sound(db.View(), files, past, flushed)
      ensures Groups() == past + files.Logs() && files.Logs() == files.oldLog + files.newLog
      ensures Abs() == LedgerOf(files, past, db.imm.Some?)
    {
    }

    /** DBImpl::Write: the group goes to the log first, then to the memtable. */
    method Commit(ops: seq<Op>, sync: bool)
      requires Valid() && db.last + |ops| < MAX_SEQUENCE
      modifies this`files, db
      ensures Valid() && db.last == old(db.last) + |ops| && db.imm == old(db.imm) && db.snapshots == old(db.snapshots)
      ensures Groups() == old(Groups()) + [Group(old(db.last) + 1, ops)]
      ensures files.oldLog == old(files.oldLog) && db.version == old(db.version)
      ensures old(Abs()).Valid() && Abs() == Next(old(Abs()), Ledgers.Commit(ops, sync))
    {
      hide *;
      ghost var st := db.View();
      db.ValidIs();
      ValidIs();
      SoundParts(st, files, past, flushed);
      var g := Group(db.last + 1, ops);
      var synced := if sync then |files.newLog| + 1 else files.newSynced;
      db.Write(ops);
      db.ValidIs();
      CommitKeepsSound(st, db.View(), files, past, flushed, g, synced);
      CommitOnLedger(files, past, g, synced, sync, db.imm.Some?);
      files := files.(newLog := files.newLog + [g], newSynced := synced);
      ValidIs();
    }

    /** MakeRoomForWrite: a new memtable with a log of its own. */
    method Switch()
      requires Valid()
      modifies this`files, db
      ensures Valid() && db.last == old(db.last) && db.snapshots == old(db.snapshots) && db.imm.Some?
      ensures Groups() == old(Groups()) && (old(db.imm).None? ==> files.newLog == []) && db.version == old(db.version)
      ensures old(Abs()).Valid() && Abs() == Next(old(Abs()), Ledgers.Switch)
    {
      hide *;
      ghost var st := db.View();
      db.ValidIs();
      ValidIs();
      SoundParts(st, files, past, flushed);
      SwitchOnLedger(files, past, db.imm.Some?);
      if db.imm.None? {
        db.SwitchMemTable();
        db.ValidIs();
        SwitchKeepsSound(st, db.View(), files, past, flushed);
        files := LogClosed(files);
      }
      ValidIs();
    }

    /** CompactMemTable: the table is written, the edit recorded and the older log forgotten. */
    method Flush(size: nat, recovering: bool)
      requires Valid()
      modifies this, db
      ensures Valid() && db.last == old(db.last) && db.snapshots == old(db.snapshots) && db.imm == None
      ensures Groups() == old(Groups()) && files.newLog == old(files.newLog) && files.oldLog == []
      ensures AllUncut(old(db.version)) ==> AllUncut(db.version)
      ensures old(Abs()).Valid() && Abs() == Next(old(Abs()), Ledgers.Flush(size))
      ensures |old(db.version)| == NUM_LEVELS && (!recovering ==> FlushedDown(old(db.View()), db.version, size))
    {
      hide *;
      ghost var st := db.View();
      db.ValidIs();
      ValidIs();
      SoundParts(st, files, past, flushed);
      FlushOnLedger(files, past, db.imm.Some?, size);
      if db.imm.Some? {
        var edit;
        ghost var level;
        edit, level := db.CompactMemTable(size, recovering);
        if st.imm.value == [] {
          NothingToFlush(st, size);
        } else if !recovering {
          PackFlush(st, db.version, db.nextFile, level, size, edit);
        }
        db.ValidIs();
        FlushKeepsSound(st, db.View(), files, past, flushed, level, size, edit);
        past, flushed := past + files.oldLog, flushed + |Ops(files.oldLog)|;
        files := Files(files.manifest + [edit], db.last, [], files.newLog, 0, files.newSynced);
      } else {
        NothingToFlush(st, size);
      }
      ValidIs();
    }

    method TakeSnapshot() returns (s: Sequence)
      requires Valid()
      modifies db
      ensures Valid() && s == db.last == old(db.last) && db.snapshots == old(db.snapshots) + [s]
      ensures db.version == old(db.version)
      ensures Abs() == old(Abs())
    {
      hide *;
      ghost var st := db.View();
      db.ValidIs();
      ValidIs();
      OldestStays(st);
      s := db.GetSnapshot();
      db.ValidIs();
      SnapshotsKeepSound(st, db.View(), files, past, flushed);
      ValidIs();
    }

    method DropSnapshot(i: nat)
      requires Valid() && i < |db.snapshots|
      modifies db
      ensures Valid() && db.last == old(db.last) && db.snapshots == Removed(old(db.snapshots), i)
      ensures db.version == old(db.version)
      ensures Abs() == old(Abs())
    {
      hide *;
      ghost var st := db.View();
      db.ValidIs();
      ValidIs();
      OldestRises(st, i);
      db.ReleaseSnapshot(i);
      db.ValidIs();
      SnapshotsKeepSound(st, db.View(), files, past, flushed);
      ValidIs();
    }

    /** BackgroundCompaction of inputs that end in no cut: the new version is recorded, the logs stay. */
    method InstallCompaction(c: Compaction, isManual: bool, stopBefore: nat -> bool, bigEnough: seq<Entry> -> bool,
                             sizes: nat -> nat)
      requires Valid() && c.Valid() && c.version == db.version && c.PtrsAtStart()
      requires ValidInputs(db.version, c.level, c.inputs0, c.inputs1)
      requires EndsWhole(db.version, c.level, c.inputs0, c.inputs1)
      modifies this`files, db, c`levelPtrs
      ensures Valid() && db.last == old(db.last) && db.snapshots == old(db.snapshots) && Abs() == old(Abs())
      ensures AllUncut(old(db.version)) && db.snapshots == [] ==> AllUncut(db.version)
      ensures InputsReplaced(old(db.version), db.version, c.level, c.inputs0, c.inputs1)
    {
      hide *;
      ghost var st := db.View();
      db.ValidIs();
      ValidIs();
      SoundParts(st, files, past, flushed);
      JobFacts(c);
      WholeParts(db.version, c.level, c.inputs0, c.inputs1);
      var edit;
      ghost var input, outputs, out;
      edit, input, outputs, out := db.RunCompaction(c, isManual, stopBefore, bigEnough, sizes);
      PackReplaced(st.version, db.version, c.level, c.inputs0, c.inputs1, out);
      MoveIs(c);
      if !isManual && c.IsTrivialMove() {
        MoveKeepsDisk(st, db.version, files, past, flushed, Floor(st, flushed), c.level, c.inputs0[0]);
      } else {
        UncutInputsAreSafe(st, c.level, c.inputs0, c.inputs1, input);
        CompactKeepsDisk(st, db.version, db.nextFile, files, past, flushed, c.level, c.inputs0, c.inputs1, input, outputs,
                         sizes, out);
      }
      db.ValidIs();
      VersionKeepsSound(st, db.View(), files, past, flushed, files.manifest + [edit]);
      RecordIsNoGroup(files, files.manifest + [edit], db.last, past, db.imm.Some?);
      files := files.(manifest := files.manifest + [edit], recorded := db.last);
      ValidIs();
    }

    /** A compaction of the level's next file, if there is one and its inputs end in no cut. */
    method CompactLevel(level: nat, stopBefore: nat -> bool, bigEnough: seq<Entry> -> bool, sizes: nat -> nat)
      requires Valid()
      modifies this, db
      ensures Valid() && db.last == old(db.last) && db.snapshots == old(db.snapshots) && Abs() == old(Abs())
      ensures AllUncut(old(db.version)) && db.snapshots == [] ==> AllUncut(db.version)
      ensures |old(db.version)| == NUM_LEVELS == |old(db.compactPointers)|
      ensures VersionAfter(old(db.View()), old(db.compactPointers), db.version, Compact(level, stopBefore, bigEnough, sizes))
    {
      hide *;
      ValidIs();
      db.LevelsAre();
      db.ValidIs();
      ghost var st, v, pointers := db.View(), db.version, db.compactPointers;
      ghost var call := Compact(level, stopBefore, bigEnough, sizes);
      if level + 1 < NUM_LEVELS && |db.version[level]| > 0 {
        var i := db.NextFile(level);
        var c;
        ghost var picked;
        c, picked := db.PickCompaction(level, i);
        ChosenIsValid(db.version, level, picked, c.inputs0, c.inputs1);
        db.ValidIs();
        ValidIs();
        InstallIfWhole(c, false, stopBefore, bigEnough, sizes);
        PackAttempt(v, db.version, level, picked, c.inputs0, c.inputs1);
        PackNext(v, db.version, pointers[level], level, i, picked);
      }
      PackVersion(st, pointers, db.version, call);
    }

    method CompactSpan(level: nat, r: Range, stopBefore: nat -> bool, bigEnough: seq<Entry> -> bool, sizes: nat -> nat)
      requires Valid()
      modifies this, db
      ensures Valid() && db.last == old(db.last) && db.snapshots == old(db.snapshots) && Abs() == old(Abs())
      ensures AllUncut(old(db.version)) && db.snapshots == [] ==> AllUncut(db.version)
      ensures |old(db.version)| == NUM_LEVELS == |old(db.compactPointers)|
      ensures VersionAfter(old(db.View()), old(db.compactPointers), db.version,
                           CompactBetween(level, r, stopBefore, bigEnough, sizes))
    {
      hide *;
      ValidIs();
      db.LevelsAre();
      db.ValidIs();
      ghost var st, v, pointers := db.View(), db.version, db.compactPointers;
      ghost var call := CompactBetween(level, r, stopBefore, bigEnough, sizes);
      if level + 1 < NUM_LEVELS {
        var c;
        ghost var picked;
        c, picked := db.CompactRange(level, r);
        db.ValidIs();
        ValidIs();
        if c != null {
          ChosenIsValid(db.version, level, picked, c.inputs0, c.inputs1);
          InstallIfWhole(c, true, stopBefore, bigEnough, sizes);
          PackAttempt(v, db.version, level, picked, c.inputs0, c.inputs1);
          PackSpan(v, db.version, level, r, picked);
        }
      }
      PackVersion(st, pointers, db.version, call);
    }

    method InstallIfWhole(c: Compaction, isManual: bool, stopBefore: nat -> bool, bigEnough: seq<Entry> -> bool,
                          sizes: nat -> nat)
      requires Valid() && c.Valid() && c.version == db.version && c.PtrsAtStart()
      requires ValidInputs(db.version, c.level, c.inputs0, c.inputs1)
      modifies this`files, db, c`levelPtrs
      ensures Valid() && db.last == old(db.last) && db.snapshots == old(db.snapshots) && Abs() == old(Abs())
      ensures AllUncut(old(db.version)) && db.snapshots == [] ==> AllUncut(db.version)
      ensures |old(db.version)| == NUM_LEVELS && c.level + 1 < NUM_LEVELS
      ensures if EndsWhole(old(db.version), c.level, c.inputs0, c.inputs1)
              then InputsReplaced(old(db.version), db.version, c.level, c.inputs0, c.inputs1) else db.version == old(db.version)
    {
      hide *;
      ghost var st := db.View();
      ValidIs();
      db.ValidIs();
      JobFacts(c);
      ChosenHere(st, c.level, c.inputs0, c.inputs1);
      var whole := InputsEndWhole(db.version, c.level, c.inputs0, c.inputs1);
      if whole {
        InstallCompaction(c, isManual, stopBefore, bigEnough, sizes);
      }
    }

    /** The numbers up to `s` count as used; nothing is in memory. */
    method SkipTo(s: Sequence)
      requires Valid() && db.snapshots == [] && db.imm == None && files.oldLog == files.newLog == []
      requires db.last <= s < MAX_SEQUENCE
      modifies this, db
      ensures Valid() && db.last == s && db.imm == None && db.snapshots == []
      ensures Groups() == old(Groups()) && files.oldLog == files.newLog == [] && Abs() == old(Abs())
      ensures db.version == old(db.version)
    {
      hide *;
      ghost var st := db.View();
      db.ValidIs();
      ValidIs();
      db.SetLastSequence(s);
      db.ValidIs();
      SkipKeepsSound(st, db.View(), files, past, flushed);
      RecordIsNoGroup(files, files.manifest, s, past, false);
      flushed := s;
      files := files.(recorded := s);
      ValidIs();
    }

    /** Get at the latest sequence answers with the last operation on the key that the ledger holds. */
    method Lookup(u: UserKey) returns (value: Option<Payload>)
      requires Valid()
      ensures value == ValueOf(Flatten(Abs().Groups()), u)
    {
      hide *;
      ValidIs();
      db.ValidIs();
      SoundParts(db.View(), files, past, flushed);
      LastIsLive(db.View());
      value := db.Get(u, db.last);
      HistoryIsLedger(db.View(), files, past, flushed, u);
    }
  }

  /** Whether both input runs end with the last version of a user key, as far as their level has it. */
  method InputsEndWhole(v: Version, level: nat, inputs0: seq<File>, inputs1: seq<File>) returns (whole: bool)
    requires Chosen(v, level, inputs0, inputs1) && |v| == NUM_LEVELS && level + 1 < NUM_LEVELS
    ensures whole <==> EndsWhole(v, level, inputs0, inputs1)
  {
    hide *;
    ChosenParts(v, level, inputs0, inputs1);
    ghost var lo1, hi1 := ChosenRuns(v, level, inputs0, inputs1);
    WholeParts(v, level, inputs0, inputs1);
    var cut0 := false;
    if level > 0 {
      ghost var lo, hi := UpperRun(v, level, inputs0);
      cut0 := RunEndsInCut(v[level], inputs0, lo, hi);
    }
    var cut1 := false;
    if inputs1 == [] {
      NothingIsUncut(v[level + 1]);
    } else {
      LevelIsSorted(v, level + 1);
      cut1 := RunEndsInCut(v[level + 1], inputs1, lo1, hi1);
    }
    whole := !cut0 && !cut1;
  }

  /** Looks for the last file of a run in its level and at the file behind it. */
  method RunEndsInCut(files: Level, inputs: seq<File>, ghost lo: nat, ghost hi: nat) returns (cut: bool)
    requires ValidFiles(files) && SortedLevel(files) && IsRun(files, inputs, lo, hi)
    ensures cut <==> EndsInCut(files, inputs)
  {
    var last := inputs[|inputs| - 1];
    assert last == files[hi - 1];
    var j := 0;
    while j < |files| && files[j] != last
      invariant 0 <= j <= hi - 1 && forall k :: 0 <= k < j ==> files[k] != last
    {
      j := j + 1;
    }
    DifferentFiles(files, j, hi - 1);
    CutIffStraddles(files, inputs, lo, hi);
    cut := Straddles(files, j + 1);
  }

  lemma DifferentFiles(files: Level, j: nat, k: nat)
    requires ValidFiles(files) && SortedLevel(files) && j <= k < |files| && files[j] == files[k]
    ensures j == k
  {
    if j < k {
      EndsInOrder(files[j]);
    }
  }

  lemma LastIsLive(st: State)
    ensures LiveSequence(st, st.last)
  {
  }

  lemma HistoryIsLedger(st: State, fs: Files, past: seq<Group>, flushed: Sequence, u: UserKey)
    requires Sound(st, fs, past, flushed)
    ensures UniqueSequences(st.history) && Read(st.history, u, st.last) == ValueOf(Flatten(LedgerOf(fs, past, st.imm.Some?).Groups()), u)
  {
    assert Rising(past, flushed) && Numbered(fs.Logs(), flushed, st.last) && st.history == Entries(past + fs.Logs());
    hide *;
    RisingOn(past, fs.Logs(), flushed, st.last);
    LatestIsValue(past + fs.Logs(), st.last, u, st.last);
    OpsAre(past + fs.Logs());
    GroupsAre(fs, past, st.imm.Some?);
  }

  lemma GroupsAre(fs: Files, past: seq<Group>, waiting: bool)
    ensures LedgerOf(fs, past, waiting).Groups() == Batches(past + fs.Logs())
  {
    BatchesConcat(past, fs.oldLog);
    BatchesConcat(past + fs.oldLog, fs.newLog);
    assert past + fs.oldLog + fs.newLog == past + fs.Logs();
  }

  lemma OpsAre(groups: seq<Group>)
    ensures Ops(groups) == Flatten(Batches(groups))
  {
  }

  lemma MoveIs(c: Compaction)
    ensures c.IsTrivialMove() ==> |c.inputs0| == 1 && c.inputs0 == [c.inputs0[0]] && c.inputs1 == []
  {
  }

  lemma SwitchOnLedger(fs: Files, past: seq<Group>, waiting: bool)
    requires fs.oldSynced <= |fs.oldLog| && fs.newSynced <= |fs.newLog| && (!waiting ==> fs.oldLog == [])
    ensures var fs' := if waiting then fs else LogClosed(fs);
            && fs'.Logs() == fs.Logs() && LedgerOf(fs, past, waiting).Valid() && (!waiting ==> fs'.newLog == [])
            && LedgerOf(fs', past, true) == Next(LedgerOf(fs, past, waiting), Ledgers.Switch)
  {
  }

  lemma SwitchKeepsSound(st: State, st': State, fs: Files, past: seq<Group>, flushed: Sequence)
    requires Sound(st, fs, past, flushed) && st.imm.None? && st' == st.(mem := [], imm := Some(st.mem)) && Inv(st')
    ensures Sound(st', LogClosed(fs), past, flushed)
  {
    hide Inv, DiskOk, LogsOk;
    SameFloor(st, st', flushed);
    SwitchKeepsLogs(st, st', fs, past, flushed);
  }

  lemma FlushOnLedger(fs: Files, past: seq<Group>, waiting: bool, size: nat)
    requires fs.oldSynced <= |fs.oldLog| && fs.newSynced <= |fs.newLog| && (!waiting ==> fs.oldLog == [])
    ensures LedgerOf(fs, past, waiting).Valid() && past + fs.oldLog + fs.newLog == past + fs.Logs()
    ensures forall manifest, recorded ::
              var fs' := Files(manifest, recorded, [], fs.newLog, 0, fs.newSynced);
              && past + fs.oldLog + fs'.Logs() == past + fs.Logs()
              && LedgerOf(fs', past + fs.oldLog, false) == Next(LedgerOf(fs, past, waiting), Ledgers.Flush(size))
    ensures !waiting ==> LedgerOf(fs, past, false) == Next(LedgerOf(fs, past, waiting), Ledgers.Flush(size))
  {
    BatchesConcat(past, fs.oldLog);
    assert past + fs.oldLog + fs.newLog == past + fs.Logs();
    assert !waiting ==> past + fs.oldLog == past;
    forall manifest, recorded
      ensures var fs' := Files(manifest, recorded, [], fs.newLog, 0, fs.newSynced);
              past + fs.oldLog + fs'.Logs() == past + fs.Logs()
    {
      assert Files(manifest, recorded, [], fs.newLog, 0, fs.newSynced).Logs() == fs.newLog;
    }
  }

  lemma FlushKeepsSound(st: State, st': State, fs: Files, past: seq<Group>, flushed: Sequence, level: nat, size: nat,
                        edit: Edit)
    requires Sound(st, fs, past, flushed) && Inv(st') && st.imm.Some?
    requires st' == st.(imm := None, version := st'.version, nextFile := st'.nextFile)
    requires if st.imm.value == [] then edit == EMPTY_EDIT && st'.version == st.version && st'.nextFile == st.nextFile
             else IsFlush(st, st'.version, st'.nextFile, level, size, edit)
    ensures var fs' := Files(fs.manifest + [edit], st.last, [], fs.newLog, 0, fs.newSynced);
            flushed + |Ops(fs.oldLog)| <= MAX_SEQUENCE && Sound(st', fs', past + fs.oldLog, flushed + |Ops(fs.oldLog)|)
  {
    hide *;
    SoundParts(st, fs, past, flushed);
    DiskParts(st.version, st.nextFile, fs.manifest, past, flushed, Floor(st, flushed));
    FlushKeepsLogs(st, st', fs, past, flushed, fs.manifest + [edit]);
    ImmIsLogged(st, fs, past, flushed);
    FlushKeepsDisk(st, st'.version, st'.nextFile, fs, past, flushed, flushed + |Ops(fs.oldLog)|, level, size, edit);
    SameFloor(st, st', flushed + |Ops(fs.oldLog)|);
    SoundFrom(st', Files(fs.manifest + [edit], st.last, [], fs.newLog, 0, fs.newSynced), past + fs.oldLog,
              flushed + |Ops(fs.oldLog)|);
  }

  lemma ImmIsLogged(st: State, fs: Files, past: seq<Group>, flushed: Sequence)
    requires LogsOk(st, fs, past, flushed)
    ensures ImmSet(st) == Entries(fs.oldLog)
  {
  }

  lemma SameFloor(st: State, st': State, flushed: Sequence)
    requires st'.snapshots == st.snapshots && st'.last == st.last
    ensures Floor(st', flushed) == Floor(st, flushed)
  {
  }

  lemma OldestStays(st: State)
    ensures Oldest(st.(snapshots := st.snapshots + [st.last])) == Oldest(st)
  {
  }

  lemma OldestRises(st: State, i: nat)
    requires Inv(st) && i < |st.snapshots|
    ensures Oldest(st.(snapshots := Removed(st.snapshots, i))) >= Oldest(st)
  {
    assert SnapshotsOrdered(st);
  }

  /** Where the oldest snapshot only rises, so does what the store on disk must answer for. */
  lemma FloorRises(st: State, st': State, fs: Files, past: seq<Group>, flushed: Sequence)
    requires DiskOk(st.version, st.nextFile, fs.manifest, past, flushed, Floor(st, flushed))
    requires st'.version == st.version && st'.nextFile == st.nextFile && Oldest(st) <= Oldest(st')
    ensures DiskOk(st'.version, st'.nextFile, fs.manifest, past, flushed, Floor(st', flushed))
  {
    hide *;
    FloorIs(st, flushed);
    FloorIs(st', flushed);
    DiskRises(st.version, st.nextFile, fs.manifest, past, flushed, Floor(st, flushed), Floor(st', flushed));
  }

  lemma SnapshotsKeepSound(st: State, st': State, fs: Files, past: seq<Group>, flushed: Sequence)
    requires Sound(st, fs, past, flushed) && Inv(st') && st' == st.(snapshots := st'.snapshots)
    requires Oldest(st) <= Oldest(st')
    ensures Sound(st', fs, past, flushed)
  {
    hide Inv, DiskOk, Floor, Oldest;
    FloorRises(st, st', fs, past, flushed);
  }

  lemma VersionKeepsSound(st: State, st': State, fs: Files, past: seq<Group>, flushed: Sequence, manifest: seq<Edit>)
    requires Sound(st, fs, past, flushed) && Inv(st')
    requires st' == st.(version := st'.version, nextFile := st'.nextFile)
    requires DiskOk(st'.version, st'.nextFile, manifest, past, flushed, Floor(st, flushed))
    ensures Sound(st', fs.(manifest := manifest, recorded := st.last), past, flushed)
  {
    hide Inv, DiskOk;
    SameFloor(st, st', flushed);
    assert fs.(manifest := manifest, recorded := st.last).Logs() == fs.Logs();
  }

  lemma RecordIsNoGroup(fs: Files, manifest: seq<Edit>, recorded: Sequence, past: seq<Group>, waiting: bool)
    ensures LedgerOf(fs.(manifest := manifest, recorded := recorded), past, waiting) == LedgerOf(fs, past, waiting)
  {
  }

  lemma SkipKeepsSound(st: State, st': State, fs: Files, past: seq<Group>, flushed: Sequence)
    requires Sound(st, fs, past, flushed) && Inv(st') && st' == st.(last := st'.last) && st.last <= st'.last
    requires fs.oldLog == fs.newLog == [] && st.imm.None? && st.snapshots == [] && st'.last < MAX_SEQUENCE
    ensures Sound(st', fs.(recorded := st'.last), past, st'.last)
  {
    hide *;
    var floor := Floor(st, flushed);
    SoundParts(st, fs, past, flushed);
    LogsParts(st, fs, past, flushed);
    DiskParts(st.version, st.nextFile, fs.manifest, past, flushed, floor);
    DiskAtBase(st.version, st.nextFile, fs.manifest, past, flushed, floor, st'.last);
    OldestIs(st');
    FloorIs(st', st'.last);
    DiskRises(st.version, st.nextFile, fs.manifest, past, st'.last, floor, st'.last);
    NothingLogged(st', fs, past);
    SameImm(st, st');
    SoundFrom(st', fs.(recorded := st'.last), past, st'.last);
  }

  lemma NothingLogged(st: State, fs: Files, past: seq<Group>)
    requires fs.oldLog == fs.newLog == [] && fs.oldSynced <= 0 && fs.newSynced <= 0
    requires st.imm.None? && Elements(st.mem) == Entries(fs.newLog) && st.history == Entries(past + fs.Logs())
    ensures LogsOk(st, fs.(recorded := st.last), past, st.last)
  {
  }

  lemma RisingFurther(groups: seq<Group>, last: nat, last': nat)
    requires Rising(groups, last) && last <= last'
    ensures Rising(groups, last')
  {
  }

  lemma SoundParts(st: State, fs: Files, past: seq<Group>, flushed: Sequence)
    requires Sound(st, fs, past, flushed)
    ensures Inv(st) && LogsOk(st, fs, past, flushed)
    ensures DiskOk(st.version, st.nextFile, fs.manifest, past, flushed, Floor(st, flushed))
    ensures fs.oldSynced <= |fs.oldLog| && fs.newSynced <= |fs.newLog| && flushed <= fs.recorded <= st.last
    ensures st.last < MAX_SEQUENCE && |st.version| == NUM_LEVELS && (st.imm.None? ==> fs.oldLog == [])
  {
  }

  lemma SoundFrom(st: State, fs: Files, past: seq<Group>, flushed: Sequence)
    requires Inv(st) && LogsOk(st, fs, past, flushed)
    requires DiskOk(st.version, st.nextFile, fs.manifest, past, flushed, Floor(st, flushed))
    ensures Sound(st, fs, past, flushed)
  {
  }

  lemma NewIsSound(st: State, fs: Files)
    requires Inv(st) && st == State([], None, st.version, 0, [], st.nextFile, {}) && fs == Files([], 0, [], [], 0, 0)
    requires |st.version| == NUM_LEVELS && forall l :: 0 <= l < NUM_LEVELS ==> st.version[l] == []
    ensures Sound(st, fs, [], 0)
  {
    EmptyIsRecorded(st.version, st.nextFile);
    SnapshotKeepsInv(st);
    assert [] + [st.last] == [0];
    hide Inv, Recorded;
  }

  lemma NewLedger()
    ensures LedgerOf(Files([], 0, [], [], 0, 0), [], false) == NEW_LEDGER
  {
    assert Batches([]) == [];
  }

  /** Without the snapshot, the store on disk is what a database can start from. */
  lemma DiskIsStore(version: Version, nextFile: nat, manifest: seq<Edit>, past: seq<Group>, last: Sequence,
                    floor: Sequence)
    requires DiskOk(version, nextFile, manifest, past, last, floor)
    ensures Inv(OnDisk(version, nextFile, last, Entries(past)))
  {
    hide *;
    DiskParts(version, nextFile, manifest, past, last, floor);
    DiskFields(version, nextFile, last, Entries(past), floor);
    ReleaseKeepsInv(Disk(version, nextFile, last, Entries(past), floor), 0);
    OnlyOne(floor);
  }

  lemma OnlyOne(s: Sequence)
    ensures Removed([s], 0) == []
  {
  }

  lemma OnDiskIs(version: Version, nextFile: nat, last: Sequence, history: set<Entry>)
    ensures var st := OnDisk(version, nextFile, last, history);
            && st.version == version && st.nextFile == nextFile && st.last == last && st.history == history
            && st.mem == [] && st.imm == None && st.snapshots == []
  {
  }

  lemma RecoveredIsSound(st: State, fs: Files, past: seq<Group>, base: Sequence, floor: Sequence)
    requires st == OnDisk(st.version, st.nextFile, base, Entries(past)) && Inv(st)
    requires DiskOk(st.version, st.nextFile, fs.manifest, past, base, floor)
    requires fs == Files(fs.manifest, base, [], [], 0, 0)
    ensures Sound(st, fs, past, base)
  {
    hide *;
    OnDiskIs(st.version, st.nextFile, base, Entries(past));
    DiskParts(st.version, st.nextFile, fs.manifest, past, base, floor);
    DiskRises(st.version, st.nextFile, fs.manifest, past, base, floor, base);
    OldestIs(st);
    FloorIs(st, base);
    StartsLogged(st, fs, past);
    SoundFrom(st, fs, past, base);
  }

  lemma StartsLogged(st: State, fs: Files, past: seq<Group>)
    requires fs == Files(fs.manifest, st.last, [], [], 0, 0) && st.mem == [] && st.imm == None
    requires st.history == Entries(past)
    ensures LogsOk(st, fs, past, st.last)
  {
    assert past + fs.Logs() == past;
  }

  lemma CommitKeepsSound(st: State, st': State, fs: Files, past: seq<Group>, flushed: Sequence, g: Group, synced: nat)
    requires Sound(st, fs, past, flushed) && Inv(st') && g.first == st.last + 1
    requires synced <= |fs.newLog| + 1
    requires st'.version == st.version && st'.nextFile == st.nextFile && st'.imm == st.imm
    requires st'.snapshots == st.snapshots
    requires st'.last == st.last + |g.ops| && st'.history == st.history + Written(g.ops, g.first)
    requires Elements(st'.mem) == Elements(st.mem) + Written(g.ops, g.first)
    ensures Sound(st', fs.(newLog := fs.newLog + [g], newSynced := synced), past, flushed)
  {
    OldestGrows(st, st');
    hide Inv, DiskOk, LogsOk, Written, Elements, Oldest, Floor;
    CommitKeepsLogs(st, st', fs, past, flushed, g, synced);
    FloorRises(st, st', fs, past, flushed);
  }

  lemma OldestGrows(st: State, st': State)
    requires st'.snapshots == st.snapshots && st.last <= st'.last
    ensures Oldest(st) <= Oldest(st')
  {
  }

  /** What the files of a store amount to. */
  function LedgerOf(fs: Files, past: seq<Group>, waiting: bool): (l: Ledger) {
    Ledger(Batches(past), Batches(fs.oldLog), Batches(fs.newLog), fs.oldSynced, fs.newSynced, waiting)
  }

  lemma CommitOnLedger(fs: Files, past: seq<Group>, g: Group, synced: nat, sync: bool, waiting: bool)
    requires fs.oldSynced <= |fs.oldLog| && fs.newSynced <= |fs.newLog| && (!waiting ==> fs.oldLog == [])
    requires synced == if sync then |fs.newLog| + 1 else fs.newSynced
    ensures var fs' := fs.(newLog := fs.newLog + [g], newSynced := synced);
            && past + fs'.Logs() == past + fs.Logs() + [g]
            && LedgerOf(fs, past, waiting).Valid()
            && LedgerOf(fs', past, waiting) == Next(LedgerOf(fs, past, waiting), Ledgers.Commit(g.ops, sync))
  {
    var fs' := fs.(newLog := fs.newLog + [g], newSynced := synced);
    assert past + fs'.Logs() == past + fs.Logs() + [g];
    BatchesConcat(fs.newLog, [g]);
    OpsOfOne(g);
  }

  // ---------------------------------------------------------------- opening what a crash leaves

  /** RecoverLogFile: the groups go into memtables again; each full one and the last become level-zero tables. */
  method ReplayLog(s: Durable, logs: seq<Group>, full: nat -> bool, sizes: nat -> nat, ghost last: Sequence)
    requires s.Valid() && s.db.imm == None && s.db.snapshots == [] && s.files.oldLog == s.files.newLog == []
    requires Numbered(logs, s.db.last, last) && last < MAX_SEQUENCE
    modifies s, s.db
    ensures s.Valid() && s.db.imm == None && s.db.snapshots == [] && s.files.oldLog == s.files.newLog == []
    ensures s.Groups() == old(s.Groups()) + logs && s.db.last == last
    ensures AllUncut(old(s.db.version)) ==> AllUncut(s.db.version)
    ensures s.Abs() == Ledger(Batches(s.Groups()), [], [], 0, 0, false)
  {
    hide *;
    ghost var base, before := s.db.last, s.Groups();
    NumberedRange(logs, base, last);
    NoOps();
    assert before + logs[..0] == before;
    for i := 0 to |logs|
      invariant s.Valid() && s.Groups() == before + logs[..i] && s.files.oldLog == []
      invariant s.db.imm == None && s.db.snapshots == [] && s.db.last == base + |Ops(logs[..i])|
      invariant AllUncut(old(s.db.version)) ==> AllUncut(s.db.version)
    {
      GroupAt(logs, base, last, i);
      s.Commit(logs[i].ops, false);
      assert before + logs[..i] + [logs[i]] == before + logs[..i + 1];
      if full(i) {
        s.Switch();
        s.Flush(sizes(i), true);
      }
    }
    assert logs[..|logs|] == logs;
    s.Switch();
    s.Flush(sizes(|logs|), true);
    s.ValidIs();
    SoundParts(s.db.View(), s.files, s.past, s.flushed);
    s.db.ValidIs();
    AllDone(s.files, s.past);
  }

  lemma AllDone(fs: Files, past: seq<Group>)
    requires fs.oldLog == fs.newLog == [] && fs.oldSynced == fs.newSynced == 0
    ensures past + fs.Logs() == past && LedgerOf(fs, past, false) == Ledger(Batches(past), [], [], 0, 0, false)
  {
  }

  /**
  DBImpl::Recover: the manifest gives the version, and then the log of the closed memtable and that of
  the open one are replayed as far as they are left.
   */
  method Reopen(manifest: seq<Edit>, recorded: Sequence, nextFile: nat, closed: seq<Group>, open: seq<Group>,
                full: nat -> bool, sizes: nat -> nat, ghost v: Version, ghost past: seq<Group>,
                ghost flushed: Sequence, ghost floor: Sequence, ghost mid: Sequence, ghost start: Sequence,
                ghost last: Sequence)
    returns (s: Durable)
    requires DiskOk(v, nextFile, manifest, past, flushed, floor)
    requires Numbered(closed, flushed, mid) && Numbered(open, start, last)
    requires flushed <= recorded < MAX_SEQUENCE && mid <= start && last < MAX_SEQUENCE
    ensures fresh(s) && fresh(s.db) && s.Valid() && s.db.snapshots == [] && (AllUncut(v) ==> AllUncut(s.db.version))
    ensures s.Groups() == past + closed + open && s.Abs() == Ledger(Batches(s.Groups()), [], [], 0, 0, false)
    ensures s.db.last == if open != [] then Max(recorded, last) else Max(recorded, mid)
  {
    hide *;
    DiskParts(v, nextFile, manifest, past, flushed, floor);
    NumberedRange(closed, flushed, mid);
    NumberedRange(open, start, last);
    MaxIs(recorded, last);
    MaxIs(recorded, mid);
    NoOps();
    var version := RecoverVersion(manifest, v, nextFile);
    var base := recorded;
    if closed != [] {
      FirstNumber(closed, flushed, mid);
      base := closed[0].first - 1;
    } else if open != [] {
      FirstNumber(open, start, last);
      base := open[0].first - 1;
    }
    DiskAtBase(v, nextFile, manifest, past, flushed, floor, base);
    s := new Durable.Recovered(version, nextFile, manifest, base, past, floor);
    if closed != [] {
      ReplayLog(s, closed, full, sizes, mid);
    }
    assert s.Groups() == past + closed;
    if open != [] {
      FirstNumber(open, start, last);
      s.SkipTo(open[0].first - 1);
      ReplayLog(s, open, full, sizes, last);
    }
    assert s.Groups() == past + closed + open;
    MaxIs(recorded, s.db.last);
    s.SkipTo(Max(recorded, s.db.last));
  }

  lemma NoOps()
    ensures Ops([]) == []
  {
    assert Batches([]) == [];
  }

  lemma MaxIs(a: nat, b: nat)
    ensures Max(a, b) == if a < b then b else a
  {
  }

  lemma FirstNumber(logs: seq<Group>, base: nat, last: nat)
    requires Numbered(logs, base, last) && logs != []
    ensures logs[0].first == base + 1
  {
    GroupAt(logs, base, last, 0);
    NoOps();
    assert logs[..0] == [];
  }

  lemma GroupAt(logs: seq<Group>, base: nat, last: nat, i: nat)
    requires Numbered(logs, base, last) && i < |logs|
    ensures logs[i].first == base + |Ops(logs[..i])| + 1
    ensures Ops(logs[..i + 1]) == Ops(logs[..i]) + logs[i].ops && |Ops(logs[..i + 1])| <= |Ops(logs)|
  {
    hide Ops, Batches;
    var a, b := logs[..i + 1], logs[i + 1..];
    assert logs == a + b && a[..i] == logs[..i] && a == logs[..i] + [logs[i]];
    NumberedSplit(a, b, base, last);
    NumberedRange(logs[..i], base, logs[i].first - 1);
    OpsConcat(logs[..i], [logs[i]]);
    OpsOfOne(logs[i]);
    OpsConcat(a, b);
  }

  lemma DiskAtBase(v: Version, nextFile: nat, manifest: seq<Edit>, past: seq<Group>, flushed: Sequence,
                   floor: Sequence, base: Sequence)
    requires DiskOk(v, nextFile, manifest, past, flushed, floor) && flushed <= base < MAX_SEQUENCE
    ensures DiskOk(v, nextFile, manifest, past, base, floor)
  {
    hide *;
    DiskParts(v, nextFile, manifest, past, flushed, floor);
    DiskFields(v, nextFile, flushed, Entries(past), floor);
    LaterKeepsInv(Disk(v, nextFile, flushed, Entries(past), floor), base);
    RisingFurther(past, flushed, base);
    DiskFrom(v, nextFile, manifest, past, base, floor);
  }

  /**
  A crash: memory is gone, and the last groups of each log with it, but none that was synced.  What is
  reopened holds exactly the rest.
   */
  method CrashAndReopen(d: Durable, lostClosed: nat, lostOpen: nat, full: nat -> bool, sizes: nat -> nat)
    returns (s: Durable)
    requires d.Valid()
    ensures fresh(s) && fresh(s.db) && s.Valid() && s.db.snapshots == [] && s.db.last <= d.db.last
    ensures d.Abs().Valid() && s.Abs() == Next(d.Abs(), Crash(lostClosed, lostOpen, full, sizes))
    ensures AllUncut(d.db.version) ==> AllUncut(s.db.version)
  {
    hide *;
    d.ValidIs();
    d.db.ValidIs();
    SoundParts(d.db.View(), d.files, d.past, d.flushed);
    var fs := d.files;
    LeftIs(|fs.oldLog|, fs.oldSynced, lostClosed);
    LeftIs(|fs.newLog|, fs.newSynced, lostOpen);
    var a := Left(|fs.oldLog|, fs.oldSynced, lostClosed);
    var b := Left(|fs.newLog|, fs.newSynced, lostOpen);
    ghost var mid, start := d.flushed + |Ops(fs.oldLog[..a])|, d.flushed + |Ops(fs.oldLog)|;
    ghost var last := start + |Ops(fs.newLog[..b])|;
    LogsSplit(d.db.View(), fs, d.past, d.flushed, a, b);
    s := Reopen(fs.manifest, fs.recorded, d.db.nextFile, fs.oldLog[..a], fs.newLog[..b], full, sizes, d.db.version, d.past,
                d.flushed, Floor(d.db.View(), d.flushed), mid, start, last);
    MaxIs(fs.recorded, last);
    MaxIs(fs.recorded, mid);
    CrashOnLedger(fs, d.past, d.db.imm.Some?, a, b, Crash(lostClosed, lostOpen, full, sizes));
  }

  lemma LeftIs(size: nat, safe: nat, lost: nat)
    requires safe <= size
    ensures Left(size, safe, lost) <= size
  {
  }

  lemma CrashOnLedger(fs: Files, past: seq<Group>, waiting: bool, a: nat, b: nat, call: Call)
    requires call.Crash? && fs.oldSynced <= |fs.oldLog| && fs.newSynced <= |fs.newLog|
    requires !waiting ==> fs.oldLog == []
    requires a == Left(|fs.oldLog|, fs.oldSynced, call.lostClosed) && a <= |fs.oldLog|
    requires b == Left(|fs.newLog|, fs.newSynced, call.lostOpen) && b <= |fs.newLog|
    ensures LedgerOf(fs, past, waiting).Valid()
    ensures Next(LedgerOf(fs, past, waiting), call)
            == Ledger(Batches(past + fs.oldLog[..a] + fs.newLog[..b]), [], [], 0, 0, false)
  {
    BatchesConcat(past, fs.oldLog[..a]);
    BatchesConcat(past + fs.oldLog[..a], fs.newLog[..b]);
    assert Batches(fs.oldLog)[..a] == Batches(fs.oldLog[..a]) && Batches(fs.newLog)[..b] == Batches(fs.newLog[..b]);
  }

  lemma NumberedPrefix(logs: seq<Group>, base: nat, last: nat, n: nat)
    requires Numbered(logs, base, last) && n <= |logs|
    ensures Numbered(logs[..n], base, base + |Ops(logs[..n])|) && base + |Ops(logs[..n])| <= last
  {
    hide *;
    assert logs == logs[..n] + logs[n..];
    NumberedSplit(logs[..n], logs[n..], base, last);
    NumberedRange(logs[n..], base + |Ops(logs[..n])|, last);
  }

  lemma LogsSplit(st: State, fs: Files, past: seq<Group>, flushed: Sequence, a: nat, b: nat)
    requires LogsOk(st, fs, past, flushed) && a <= |fs.oldLog| && b <= |fs.newLog|
    ensures var mid, start := flushed + |Ops(fs.oldLog[..a])|, flushed + |Ops(fs.oldLog)|;
            var last := start + |Ops(fs.newLog[..b])|;
            && Numbered(fs.oldLog[..a], flushed, mid) && Numbered(fs.newLog[..b], start, last)
            && flushed <= mid <= start <= last <= st.last
  {
    assert Numbered(fs.oldLog + fs.newLog, flushed, st.last);
    hide *;
    NumberedSplit(fs.oldLog, fs.newLog, flushed, st.last);
    NumberedPrefix(fs.oldLog, flushed, flushed + |Ops(fs.oldLog)|, a);
    NumberedPrefix(fs.newLog, flushed + |Ops(fs.oldLog)|, st.last, b);
  }

  // ---------------------------------------------------------------- whole runs

  function OpCount(calls: seq<Call>): (n: nat) {
    if calls == [] then 0
    else
      var call := calls[|calls| - 1];
      OpCount(calls[..|calls| - 1]) + if call.Commit? then |call.ops| else 0
  }

  lemma {:induction false} CountGrows(calls: seq<Call>, i: nat)
    requires i < |calls|
    ensures OpCount(calls[..i + 1]) == OpCount(calls[..i]) + if calls[i].Commit? then |calls[i].ops| else 0
    ensures OpCount(calls[..i + 1]) <= OpCount(calls)
    decreases |calls|
  {
    var n := |calls| - 1;
    if i < n {
      assert calls[..n][..i + 1] == calls[..i + 1] && calls[..n][..i] == calls[..i];
      CountGrows(calls[..n], i);
    } else {
      assert calls[..i + 1] == calls;
    }
  }

  /**
  Any calls in any order, snapshots and crashes among them.  A call whose guard does not hold does
  nothing; for a compaction the guard is that its input runs end in no cut.  The store stays a store of
  its ledger.  Without snapshots no level is ever cut, so that the guard always holds.
   */
  method Run(d: Durable, calls: seq<Call>) returns (s: Durable)
    requires d.Valid() && d.db.last + OpCount(calls) < MAX_SEQUENCE
    modifies d, d.db
    ensures old(d.Abs()).Valid() && s.Valid() && s.Abs() == After(old(d.Abs()), calls)
    ensures AllUncut(old(d.db.version)) && old(d.db.snapshots) == [] && (forall c :: c in calls ==> !c.TakeSnapshot?) ==>
              AllUncut(s.db.version) && s.db.snapshots == []
    ensures (s == d && s.db == d.db) || (fresh(s) && fresh(s.db))
  {
    hide *;
    s := d;
    LedgerIsValid(d);
    NothingYet(d.Abs());
    for i := 0 to |calls|
      invariant s.Valid() && s.Abs() == After(old(d.Abs()), calls[..i])
      invariant s.db.last <= old(d.db.last) + OpCount(calls[..i]) && OpCount(calls[..i]) <= OpCount(calls)
      invariant (s == d && s.db == d.db) || (fresh(s) && fresh(s.db))
      invariant AllUncut(old(d.db.version)) && old(d.db.snapshots) == [] && (forall c :: c in calls ==> !c.TakeSnapshot?) ==>
                  AllUncut(s.db.version) && s.db.snapshots == []
    {
      assert calls[i] in calls;
      CountGrows(calls, i);
      OneMoreCall(old(d.Abs()), calls, i);
      SnapshotsAre(s.db.snapshots, s.db.last, calls[i]);
      s := Perform(s, calls[i]);
    }
    assert calls[..|calls|] == calls;
  }

  lemma LedgerIsValid(d: Durable)
    requires d.Valid()
    ensures d.Abs().Valid()
  {
    d.ValidIs();
    SoundParts(d.db.View(), d.files, d.past, d.flushed);
    hide Sound;
  }

  lemma NothingYet(l: Ledger)
    requires l.Valid()
    ensures After(l, []) == l && OpCount([]) == 0
  {
  }

  lemma OneMoreCall(l: Ledger, calls: seq<Call>, i: nat)
    requires i < |calls| && l.Valid()
    ensures After(l, calls[..i + 1]) == Next(After(l, calls[..i]), calls[i])
  {
    assert calls[..i + 1][..i] == calls[..i];
  }

  lemma OtherCalls(l: Ledger, call: Call)
    requires l.Valid()
    requires call.TakeSnapshot? || call.DropSnapshot? || call.Compact? || call.CompactBetween?
    ensures Next(l, call) == l
  {
  }

  method Perform(d: Durable, call: Call) returns (s: Durable)
    requires d.Valid() && d.db.last + (if call.Commit? then |call.ops| else 0) < MAX_SEQUENCE
    modifies d, d.db
    ensures old(d.Abs()).Valid() && s.Valid() && s.Abs() == Next(old(d.Abs()), call)
    ensures s.db.last <= old(d.db.last) + if call.Commit? then |call.ops| else 0
    ensures s.db.snapshots == SnapshotsAfter(old(d.db.snapshots), old(d.db.last), call)
    ensures |old(d.db.version)| == NUM_LEVELS == |old(d.db.compactPointers)|
    ensures VersionAfter(old(d.db.View()), old(d.db.compactPointers), s.db.version, call)
    ensures AllUncut(old(d.db.version)) && old(d.db.snapshots) == [] ==> AllUncut(s.db.version)
    ensures (s == d && s.db == d.db) || (fresh(s) && fresh(s.db))
  {
    hide *;
    s := d;
    LedgerIsValid(d);
    d.ValidIs();
    d.db.ValidIs();
    d.db.LevelsAre();
    ghost var st, pointers := d.db.View(), d.db.compactPointers;
    SnapshotsAre(d.db.snapshots, d.db.last, call);
    match call {
      case Commit(ops, sync) =>
        d.Commit(ops, sync);
      case Switch =>
        d.Switch();
      case TakeSnapshot =>
        OtherCalls(d.Abs(), call);
        var _ := d.TakeSnapshot();
      case DropSnapshot(i) =>
        OtherCalls(d.Abs(), call);
        if i < |d.db.snapshots| {
          d.DropSnapshot(i);
        }
      case Flush(size) =>
        d.Flush(size, false);
      case Compact(level, stopBefore, bigEnough, sizes) =>
        OtherCalls(d.Abs(), call);
        d.CompactLevel(level, stopBefore, bigEnough, sizes);
      case CompactBetween(level, r, stopBefore, bigEnough, sizes) =>
        OtherCalls(d.Abs(), call);
        d.CompactSpan(level, r, stopBefore, bigEnough, sizes);
      case Crash(lostClosed, lostOpen, full, sizes) =>
        s := CrashAndReopen(d, lostClosed, lostOpen, full, sizes);
    }
    if !call.Compact? && !call.CompactBetween? {
      SameVersion(st, pointers, s.db.version, call);
    }
  }

  lemma SnapshotsAre(snapshots: seq<Sequence>, last: Sequence, call: Call)
    ensures SnapshotsAfter(snapshots, last, call)
            == if call.TakeSnapshot? then snapshots + [last]
               else if call.DropSnapshot? && call.i < |snapshots| then Removed(snapshots, call.i)
               else if call.Crash? then [] else snapshots
  {
  }

  lemma SameVersion(st: State, pointers: seq<Option<InternalKey>>, v': Version, call: Call)
    requires |st.version| == NUM_LEVELS == |pointers| && !call.Compact? && !call.CompactBetween?
    requires if call.Flush? then FlushedDown(st, v', call.size) else call.Crash? || v' == st.version
    ensures VersionAfter(st, pointers, v', call)
  {
    hide FlushedDown;
  }
}
