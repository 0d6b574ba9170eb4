/**
The whole engine as one state: memtable, immutable memtable, version, sequence counter and
snapshots, next to the ghost history of all writes ever made.  Each step of the engine keeps the
relation to that history (util/leveldb/db/db_impl.cc).
 */
module Stores {
  import opened Common
  import opened Keys
  import opened History
  import opened Versions
  import opened Edits
  import opened Compactions
  import opened Cuts
  import opened Installs
  import opened Flushes
  import opened Moves
  import opened UncutLevels

  datatype Op = Put(key: UserKey, value: Payload) | Delete(key: UserKey)

  datatype State = State(mem: seq<Entry>, imm: Option<seq<Entry>>, version: Version, last: Sequence,
                         snapshots: seq<Sequence>, nextFile: nat, history: set<Entry>)

  ghost function ImmSet(st: State): set<Entry> {
    if st.imm.Some? then Elements(st.imm.value) else {}
  }

  ghost function AllEntries(st: State): set<Entry> {
    Elements(st.mem) + ImmSet(st) + VersionSet(st.version)
  }

  /** smallest_snapshot: the oldest live snapshot, or the last sequence if there is none. */
  function Oldest(st: State): (m: Sequence) {
    if st.snapshots == [] then st.last else st.snapshots[0]
  }

  ghost predicate Structured(st: State) {
    && Sorted(st.mem) && (st.imm.Some? ==> Sorted(st.imm.value))
    && ValidVersion(st.version) && LevelsByAge(st.version)
    && NumbersOk(st.version, st.nextFile)
  }

  ghost predicate Aged(st: State) {
    && Newer(Elements(st.mem), ImmSet(st) + VersionSet(st.version))
    && Newer(ImmSet(st), VersionSet(st.version))
  }

  ghost predicate UpTo(S: set<Entry>, last: Sequence) {
    forall e :: e in S ==> e.key.sn <= last
  }

  ghost predicate Counted(st: State) {
    && UniqueSequences(AllEntries(st)) && UniqueSequences(st.history)
    && UpTo(AllEntries(st), st.last) && UpTo(st.history, st.last)
    && st.last < MAX_SEQUENCE
  }

  ghost predicate SnapshotsOrdered(st: State) {
    && (forall i, j :: 0 <= i < j < |st.snapshots| ==> st.snapshots[i] <= st.snapshots[j])
    && (forall i :: 0 <= i < |st.snapshots| ==> st.snapshots[i] <= st.last)
  }

  /** Every live read sees exactly the history of writes. */
  ghost predicate Refines(st: State)
    requires Counted(st)
  {
    SameReads(AllEntries(st), st.history, Oldest(st))
  }

  ghost predicate Inv(st: State) {
    Structured(st) && Aged(st) && Counted(st) && SnapshotsOrdered(st) && Refines(st)
  }

  // ---------------------------------------------------------------- reading

  ghost predicate LiveSequence(st: State, s: Sequence) {
    s == st.last || s in st.snapshots
  }

  lemma LiveIsCovered(st: State, s: Sequence)
    requires SnapshotsOrdered(st) && LiveSequence(st, s)
    ensures s >= Oldest(st)
  {
    if s in st.snapshots {
      var i :| 0 <= i < |st.snapshots| && st.snapshots[i] == s;
    }
  }

  /** A hit in the newer of two layers is the newest of both; otherwise the older layer decides. */
  lemma LayersCompose(A: set<Entry>, B: set<Entry>, u: UserKey, s: Sequence, a: Option<Entry>, b: Option<Entry>)
    requires Newer(A, B) && FoundIn(A, u, s, a)
    requires a.None? ==> FoundIn(B, u, s, b)
    ensures FoundIn(A + B, u, s, if a.Some? then a else b)
  {
  }

  lemma GetIsRead(st: State, u: UserKey, s: Sequence, r: Option<Entry>)
    requires Inv(st) && LiveSequence(st, s) && FoundIn(AllEntries(st), u, s, r)
    ensures Answer(r) == Read(st.history, u, s)
  {
    LiveIsCovered(st, s);
    FoundIsFind(AllEntries(st), u, s, r);
    assert Read(AllEntries(st), u, s) == Read(st.history, u, s);
  }

  // ---------------------------------------------------------------- writing

  function OpEntry(op: Op, sn: Sequence): (e: Entry) {
    match op
    case Put(k, v) => Entry(InternalKey(k, sn, Value), v)
    case Delete(k) => Entry(InternalKey(k, sn, Deletion), [])
  }

  /** The memtable keeps its entries in internal-key order. */
  function MemInsert(mem: seq<Entry>, e: Entry): (r: seq<Entry>)
    ensures forall x :: x in r <==> x in mem || x == e
  {
    if mem == [] || Less(e.key, mem[0].key) then [e] + mem
    else [mem[0]] + MemInsert(mem[1..], e)
  }

  lemma {:induction false} MemInsertSorted(mem: seq<Entry>, e: Entry)
    requires Sorted(mem) && forall x :: x in mem ==> x.key != e.key
    ensures Sorted(MemInsert(mem, e))
  {
    if mem != [] && !Less(e.key, mem[0].key) {
      assert mem[0].key != e.key;
      CompareIsLess(mem[0].key, e.key);
      MemInsertSorted(mem[1..], e);
      assert forall x :: x in MemInsert(mem[1..], e) ==> Less(mem[0].key, x.key);
    }
  }

  /** One more write on both sides of the relation. */
  lemma WriteKeepsReads(A: set<Entry>, H: set<Entry>, e: Entry, last: Sequence, m: Sequence)
    requires UniqueSequences(A) && UniqueSequences(H) && UpTo(A, last) && UpTo(H, last)
    requires e.key.sn == last + 1 && m <= last
    requires SameReads(A, H, m)
    ensures UniqueSequences(A + {e}) && UniqueSequences(H + {e})
    ensures SameReads(A + {e}, H + {e}, m)
  {
    forall u, s: Sequence | s >= m
      ensures Read(A + {e}, u, s) == Read(H + {e}, u, s)
    {
      OneMoreRead(A, e, last, u, s);
      OneMoreRead(H, e, last, u, s);
      assert Read(A, u, s) == Read(H, u, s);
    }
  }

  lemma OneMoreRead(A: set<Entry>, e: Entry, last: Sequence, u: UserKey, s: Sequence)
    requires UniqueSequences(A) && UpTo(A, last) && e.key.sn == last + 1
    ensures UniqueSequences(A + {e})
    ensures Read(A + {e}, u, s) == if Visible(e, u, s) then Answer(Some(e)) else Read(A, u, s)
  {
    if Visible(e, u, s) {
      assert FoundIn(A + {e}, u, s, Some(e));
    } else {
      assert FoundIn(A + {e}, u, s, Find(A, u, s));
    }
  }

  ghost function AfterWrite(st: State, op: Op): State
    requires st.last < MAX_SEQUENCE
  {
    var e := OpEntry(op, st.last + 1);
    st.(mem := MemInsert(st.mem, e), last := st.last + 1, history := st.history + {e})
  }

  lemma ReadsFromLater(A: set<Entry>, B: set<Entry>, m: Sequence, m': Sequence)
    requires UniqueSequences(A) && UniqueSequences(B) && SameReads(A, B, m) && m <= m'
    ensures SameReads(A, B, m')
  {
  }

  lemma WriteAddsEntry(st: State, op: Op)
    requires st.last < MAX_SEQUENCE
    ensures AllEntries(AfterWrite(st, op)) == AllEntries(st) + {OpEntry(op, st.last + 1)}
    ensures Elements(AfterWrite(st, op).mem) == Elements(st.mem) + {OpEntry(op, st.last + 1)}
  {
  }

  lemma WriteKeepsLayers(st: State, op: Op)
    requires Inv(st) && st.last + 1 < MAX_SEQUENCE
    ensures Structured(AfterWrite(st, op)) && Aged(AfterWrite(st, op))
  {
    var e := OpEntry(op, st.last + 1);
    WriteAddsEntry(st, op);
    assert forall x :: x in st.mem ==> x in AllEntries(st);
    MemInsertSorted(st.mem, e);
  }

  lemma WriteKeepsInv(st: State, op: Op)
    requires Inv(st) && st.last + 1 < MAX_SEQUENCE
    ensures Inv(AfterWrite(st, op))
  {
    var e := OpEntry(op, st.last + 1);
    var st' := AfterWrite(st, op);
    WriteKeepsLayers(st, op);
    WriteAddsEntry(st, op);
    assert Oldest(st) <= st.last && Oldest(st) <= Oldest(st');
    assert e.key.sn == st.last + 1;
    assert SnapshotsOrdered(st');
    assert st'.history == st.history + {e} && st'.last == st.last + 1;
    assert Counted(st) && Refines(st);
    assert Counted(st') && Refines(st') by {
      hide Structured, Aged, AllEntries, Inv, Oldest, AfterWrite;
      WriteKeepsReads(AllEntries(st), st.history, e, st.last, Oldest(st));
      ReadsFromLater(AllEntries(st'), st'.history, Oldest(st), Oldest(st'));
    }
  }

  // ---------------------------------------------------------------- switching memtables, snapshots

  lemma SwitchKeepsInv(st: State)
    requires Inv(st) && st.imm.None?
    ensures Inv(st.(mem := [], imm := Some(st.mem)))
    ensures AllEntries(st.(mem := [], imm := Some(st.mem))) == AllEntries(st)
  {
    var st' := st.(mem := [], imm := Some(st.mem));
    assert AllEntries(st') == AllEntries(st);
    assert Aged(st') by {
      assert ImmSet(st) + VersionSet(st.version) == VersionSet(st.version);
    }
  }

  lemma SnapshotKeepsInv(st: State)
    requires Inv(st)
    ensures Inv(st.(snapshots := st.snapshots + [st.last]))
  {
    var st' := st.(snapshots := st.snapshots + [st.last]);
    assert AllEntries(st') == AllEntries(st);
    ReadsFromLater(AllEntries(st), st.history, Oldest(st), Oldest(st'));
  }

  /** Releasing any snapshot keeps the list ordered, so its head stays the oldest live one. */
  lemma ReleaseKeepsInv(st: State, i: nat)
    requires Inv(st) && i < |st.snapshots|
    ensures Inv(st.(snapshots := Removed(st.snapshots, i)))
  {
    var st' := st.(snapshots := Removed(st.snapshots, i));
    assert AllEntries(st') == AllEntries(st);
    ReadsFromLater(AllEntries(st), st.history, Oldest(st), Oldest(st'));
  }

  /** Sequence numbers may be skipped. */
  lemma LaterKeepsInv(st: State, last: Sequence)
    requires Inv(st) && st.last <= last < MAX_SEQUENCE
    ensures Inv(st.(last := last))
  {
    var st' := st.(last := last);
    assert AllEntries(st') == AllEntries(st);
    ReadsFromLater(AllEntries(st), st.history, Oldest(st), Oldest(st'));
  }

  /** The oldest snapshot may give way to a newer one. */
  lemma RaiseKeepsInv(st: State, s: Sequence)
    requires Inv(st) && |st.snapshots| == 1 && st.snapshots[0] <= s <= st.last
    ensures Inv(st.(snapshots := [s]))
  {
    var st' := st.(snapshots := [s]);
    assert AllEntries(st') == AllEntries(st);
    ReadsFromLater(AllEntries(st), st.history, Oldest(st), Oldest(st'));
  }

  // ---------------------------------------------------------------- replacing the version

  /** Exactly the versions ordered by age that answer every live read as before keep the invariant. */
  lemma VersionSwapKeepsInv(st: State, imm: Option<seq<Entry>>, v': Version, next: nat)
    requires Inv(st) && ValidVersion(v') && NumbersOk(v', next)
    requires imm == st.imm || imm == None
    requires var st' := st.(imm := imm, version := v', nextFile := next);
             && AllEntries(st') <= AllEntries(st)
             && Aged(st')
             && UniqueSequences(AllEntries(st)) && UniqueSequences(AllEntries(st'))
    ensures var st' := st.(imm := imm, version := v', nextFile := next);
            Inv(st') <==> LevelsByAge(v') && SameReads(AllEntries(st), AllEntries(st'), Oldest(st))
  {
    hide ValidVersion, LevelsByAge, NumbersOk, SameReads, Sorted, VersionSet, Newer, Elements;
    var st' := st.(imm := imm, version := v', nextFile := next);
    assert LevelsByAge(v') <==> Structured(st');
    assert Counted(st') && SnapshotsOrdered(st');
    assert Oldest(st') == Oldest(st);
    ReadsThrough(AllEntries(st), AllEntries(st'), st.history, Oldest(st));
  }

  lemma ReadsThrough(A: set<Entry>, B: set<Entry>, H: set<Entry>, m: Sequence)
    requires UniqueSequences(A) && UniqueSequences(B) && UniqueSequences(H) && SameReads(A, H, m)
    ensures SameReads(A, B, m) <==> SameReads(B, H, m)
  {
    if SameReads(A, B, m) {
      SameReadsChain(A, B, H, m);
    }
    if SameReads(B, H, m) {
      SameReadsBack(A, H, B, m);
    }
  }

  lemma SameReadsBack(A: set<Entry>, H: set<Entry>, B: set<Entry>, m: Sequence)
    requires UniqueSequences(A) && UniqueSequences(B) && UniqueSequences(H)
    requires SameReads(A, H, m) && SameReads(B, H, m)
    ensures SameReads(A, B, m)
  {
  }

  lemma SameEntriesKeepInv(st: State, imm: Option<seq<Entry>>, v': Version, next: nat)
    requires Inv(st) && ValidVersion(v') && LevelsByAge(v') && NumbersOk(v', next)
    requires imm == st.imm || imm == None
    requires var st' := st.(imm := imm, version := v', nextFile := next);
             AllEntries(st') == AllEntries(st) && Aged(st')
    ensures Inv(st.(imm := imm, version := v', nextFile := next))
  {
    assert UniqueSequences(AllEntries(st)) && SameReads(AllEntries(st), AllEntries(st), Oldest(st));
    hide *;
    VersionSwapKeepsInv(st, imm, v', next);
  }

  lemma SameReadsChain(A: set<Entry>, B: set<Entry>, C: set<Entry>, m: Sequence)
    requires UniqueSequences(A) && UniqueSequences(B) && UniqueSequences(C)
    requires SameReads(A, B, m) && SameReads(A, C, m)
    ensures SameReads(B, C, m)
  {
  }

  // ---------------------------------------------------------------- flushing

  lemma ImmIsFlushable(st: State, level: nat, f: File)
    requires Inv(st) && st.imm.Some? && ValidFile(f) && f.entries == st.imm.value
    requires f.number == st.nextFile && FreeFor(st.version, level, f)
    ensures Flushable(st.version, level, f, st.nextFile)
  {
  }

  lemma TableIsValid(number: nat, size: nat, es: seq<Entry>)
    requires |es| > 0 && Sorted(es)
    ensures var f := TableFile(number, size, es);
            ValidFile(f) && f.number == number && f.entries == es
  {
  }

  /** Writing the immutable memtable as a table and installing it where the level pick says. */
  lemma FlushKeepsInv(st: State, v': Version, level: nat, size: nat)
    requires |st.version| == NUM_LEVELS && Inv(st) && st.imm.Some? && |st.imm.value| > 0
    requires FreeFor(st.version, level, TableFile(st.nextFile, size, st.imm.value))
    requires Applied(st.version, v', FlushEdit(level, TableFile(st.nextFile, size, st.imm.value)))
    ensures Inv(st.(imm := None, version := v', nextFile := st.nextFile + 1))
    ensures Flushed(st.version, v', level, TableFile(st.nextFile, size, st.imm.value))
    ensures AllUncut(st.version) ==> AllUncut(v')
  {
    hide *;
    var v := st.version;
    var f := TableFile(st.nextFile, size, st.imm.value);
    InvLayers(st);
    TableIsValid(st.nextFile, size, st.imm.value);
    ImmIsFlushable(st, level, f);
    FlushInstalls(v, v', level, f, st.nextFile);
    FlushKeepsVersion(v, v', level, f, st.nextFile);
    if AllUncut(v) {
      FlushedIsUncut(v, v', level, f, st.nextFile);
    }
    FlushKeepsAge(v, v', level, f, st.nextFile);
    FlushKeepsNumbers(v, v', level, f, st.nextFile);
    FlushedContents(v, v', level, f);
    ImmMoves(st, v', st.nextFile + 1);
    SameEntriesKeepInv(st, None, v', st.nextFile + 1);
  }

  lemma InvLayers(st: State)
    requires Inv(st)
    ensures Sorted(st.mem) && (st.imm.Some? ==> Sorted(st.imm.value))
    ensures ValidVersion(st.version) && LevelsByAge(st.version) && NumbersOk(st.version, st.nextFile)
    ensures |st.version| == NUM_LEVELS
    ensures Aged(st) && UniqueSequences(AllEntries(st)) && Oldest(st) <= st.last < MAX_SEQUENCE
  {
  }

  lemma ImmMoves(st: State, v': Version, next: nat)
    requires st.imm.Some? && VersionSet(v') == VersionSet(st.version) + Elements(st.imm.value) && Aged(st)
    ensures var st' := st.(imm := None, version := v', nextFile := next);
            AllEntries(st') == AllEntries(st) && Aged(st')
  {
    var st' := st.(imm := None, version := v', nextFile := next);
    assert ImmSet(st') + VersionSet(v') == ImmSet(st) + VersionSet(st.version);
  }

  lemma EmptyFlushKeepsInv(st: State)
    requires Inv(st) && st.imm == Some([])
    ensures Inv(st.(imm := None))
  {
    var st' := st.(imm := None);
    assert ImmSet(st') + VersionSet(st.version) == ImmSet(st) + VersionSet(st.version);
    assert AllEntries(st') == AllEntries(st);
    SameEntriesKeepInv(st, None, st.version, st.nextFile);
  }

  // ---------------------------------------------------------------- compacting

  function OutputFiles(next: nat, sizes: nat -> nat, outputs: seq<seq<Entry>>): (fs: seq<File>)
    requires forall o :: o in outputs ==> |o| > 0
    ensures |fs| == |outputs|
    ensures forall i :: 0 <= i < |fs| ==>
              && fs[i].entries == outputs[i] && fs[i].number == next + i
              && fs[i].smallest == outputs[i][0].key && fs[i].largest == outputs[i][|outputs[i]| - 1].key
  {
    if outputs == [] then []
    else
      var n := |outputs| - 1;
      assert forall o :: o in outputs[..n] ==> o in outputs;
      OutputFiles(next, sizes, outputs[..n]) + [TableFile(next + n, sizes(n), outputs[n])]
  }

  lemma SplitSorted(a: seq<Entry>, b: seq<Entry>)
    requires Sorted(a + b)
    ensures Sorted(a) && Sorted(b)
    ensures forall x, y :: x in a && y in b ==> Less(x.key, y.key)
  {
    var whole := a + b;
    assert forall k :: 0 <= k < |a| ==> a[k] == whole[k];
    assert forall k :: 0 <= k < |b| ==> b[k] == whole[|a| + k];
  }

  lemma {:induction false} FlattenMembers(parts: seq<seq<Entry>>)
    ensures forall i, e :: 0 <= i < |parts| && e in parts[i] ==> e in Flatten(parts)
    ensures forall e :: e in Flatten(parts) ==> exists i :: 0 <= i < |parts| && e in parts[i]
  {
    if parts != [] {
      var n := |parts| - 1;
      FlattenMembers(parts[..n]);
      forall e | e in Flatten(parts)
        ensures exists i :: 0 <= i < |parts| && e in parts[i]
      {
        if e !in parts[n] {
          assert e in Flatten(parts[..n]);
          var i :| 0 <= i < n && e in parts[..n][i];
          assert e in parts[i];
        }
      }
    }
  }

  lemma {:induction false} PartsAreOrdered(parts: seq<seq<Entry>>)
    requires Sorted(Flatten(parts))
    ensures forall i :: 0 <= i < |parts| ==> Sorted(parts[i])
    ensures forall i, j, a, b :: 0 <= i < j < |parts| && a in parts[i] && b in parts[j] ==> Less(a.key, b.key)
  {
    if parts != [] {
      var n := |parts| - 1;
      SplitSorted(Flatten(parts[..n]), parts[n]);
      PartsAreOrdered(parts[..n]);
      FlattenMembers(parts[..n]);
      assert forall i :: 0 <= i < n ==> parts[i] == parts[..n][i];
    }
  }

  lemma OutputsAreFiles(next: nat, sizes: nat -> nat, outputs: seq<seq<Entry>>)
    requires Sorted(Flatten(outputs)) && forall o :: o in outputs ==> |o| > 0
    ensures var out := OutputFiles(next, sizes, outputs);
            ValidFiles(out) && SortedLevel(out)
  {
    PartsAreOrdered(outputs);
    var out := OutputFiles(next, sizes, outputs);
    hide OutputFiles, Flatten, Sorted;
    forall i, j | 0 <= i < j < |out|
      ensures Less(out[i].largest, out[j].smallest)
    {
      assert out[i].entries == outputs[i] && out[j].entries == outputs[j];
      var a, b := outputs[i][|outputs[i]| - 1], outputs[j][0];
      assert a in outputs[i] && b in outputs[j];
    }
  }

  lemma OutputContents(next: nat, sizes: nat -> nat, outputs: seq<seq<Entry>>)
    requires Sorted(Flatten(outputs)) && forall o :: o in outputs ==> |o| > 0
    ensures LevelSet(OutputFiles(next, sizes, outputs)) == Elements(Flatten(outputs))
  {
    FlattenMembers(outputs);
    var out := OutputFiles(next, sizes, outputs);
    forall e | e in Flatten(outputs)
      ensures e in LevelSet(out)
    {
      var i :| 0 <= i < |outputs| && e in outputs[i];
      assert out[i] in out && e in out[i].entries;
    }
    forall e | e in LevelSet(out)
      ensures e in Flatten(outputs)
    {
      var i := HoldingFile(out, e);
      assert e in outputs[i];
    }
  }

  lemma OutputNumbers(v: Version, level: nat, next: nat, sizes: nat -> nat, outputs: seq<seq<Entry>>)
    requires forall o :: o in outputs ==> |o| > 0
    requires NumbersOk(v, next) && level + 1 < |v|
    ensures var out := OutputFiles(next, sizes, outputs);
            && DistinctNumbers(out)
            && (forall f :: f in out ==> next <= f.number < next + |outputs|)
            && (forall f, g :: f in v[level + 1] && g in out ==> f.number != g.number)
  {
  }

  lemma CompactionKeepsNumbers(v: Version, v': Version, level: nat, inputs0: seq<File>, inputs1: seq<File>,
                               out: seq<File>, next: nat, next': nat)
    requires NumbersOk(v, next) && Installed(v, v', level, inputs0, inputs1, out) && next <= next'
    requires DistinctNumbers(out) && forall f :: f in out ==> next <= f.number < next'
    ensures NumbersOk(v', next')
  {
    assert |v| == |v'| == NUM_LEVELS;
    forall l, f | 0 <= l < |v'| && f in v'[l]
      ensures (f in v[l] && f.number < next) || (l == level + 1 && f in out)
    {
    }
    hide Installed;
  }

  /** What the compaction loop and the installation hand over. */
  ghost predicate Compacted(st: State, v': Version, level: nat, inputs0: seq<File>, inputs1: seq<File>,
                            input: seq<Entry>, outputs: seq<seq<Entry>>, sizes: nat -> nat)
    requires |st.version| == NUM_LEVELS
  {
    && Chosen(st.version, level, inputs0, inputs1)
    && Sorted(input) && Elements(input) == LevelSet(inputs0) + LevelSet(inputs1)
    && Flatten(outputs) == Kept(input, st.version, level, Oldest(st), |input|)
    && (forall o :: o in outputs ==> |o| > 0)
    && Applied(st.version, v', CompactionEdit(level, inputs0, inputs1, OutputFiles(st.nextFile, sizes, outputs)))
  }

  /** The inputs' files give way to `out`, which holds their entries but for the dropped ones. */
  ghost predicate Replaced(st: State, v': Version, level: nat, inputs0: seq<File>, inputs1: seq<File>,
                           input: seq<Entry>, out: seq<File>)
    requires |st.version| == NUM_LEVELS
  {
    && Installed(st.version, v', level, inputs0, inputs1, out)
    && LevelSet(out) == LevelSet(inputs0) + LevelSet(inputs1) - DroppedSet(input, st.version, level, Oldest(st))
  }

  lemma OutputsReplace(st: State, v': Version, level: nat, inputs0: seq<File>, inputs1: seq<File>,
                       input: seq<Entry>, kept: seq<Entry>, out: seq<File>)
    requires |st.version| == NUM_LEVELS && Installed(st.version, v', level, inputs0, inputs1, out)
    requires Elements(input) == LevelSet(inputs0) + LevelSet(inputs1) && LevelSet(out) == Elements(kept)
    requires Elements(kept) == Elements(input) - DroppedSet(input, st.version, level, Oldest(st))
    ensures Replaced(st, v', level, inputs0, inputs1, input, out)
  {
    hide Installed, Elements, LevelSet, DroppedSet;
  }

  lemma FactsForCompaction(st: State, level: nat, inputs0: seq<File>, inputs1: seq<File>, input: seq<Entry>)
    requires Inv(st) && Chosen(st.version, level, inputs0, inputs1)
    requires Sorted(input) && Elements(input) == LevelSet(inputs0) + LevelSet(inputs1)
    ensures CompactionFacts(AllEntries(st), Elements(st.mem) + ImmSet(st), st.version, level, inputs0, inputs1, input)
  {
  }

  lemma CompactedLayers(st: State, v': Version, D: set<Entry>)
    requires Aged(st) && VersionSet(v') == VersionSet(st.version) - D && D <= VersionSet(st.version)
    requires UniqueSequences(AllEntries(st))
    ensures forall next :: var st' := st.(version := v', nextFile := next);
              AllEntries(st') == AllEntries(st) - D && Aged(st')
  {
    forall next
      ensures var st' := st.(version := v', nextFile := next);
              AllEntries(st') == AllEntries(st) - D && Aged(st')
    {
      var st' := st.(version := v', nextFile := next);
      assert forall e :: e in D ==> e !in Elements(st.mem) && e !in ImmSet(st);
    }
  }

  lemma KeptContents(v: Version, v': Version, level: nat, inputs0: seq<File>, inputs1: seq<File>,
                     input: seq<Entry>, m: Sequence, out: seq<File>)
    requires |v| == NUM_LEVELS && Sorted(input) && Elements(input) == LevelSet(inputs0) + LevelSet(inputs1)
    requires LevelSet(out) == Elements(Kept(input, v, level, m, |input|))
    requires LevelSet(inputs0) <= VersionSet(v) && LevelSet(inputs1) <= VersionSet(v)
    requires VersionSet(v') == VersionSet(v) - LevelSet(inputs0) - LevelSet(inputs1) + LevelSet(out)
    ensures var D := DroppedSet(input, v, level, m);
            D <= VersionSet(v) && VersionSet(v') == VersionSet(v) - D
  {
    KeptIsRest(input, v, level, m);
    assert DroppedSet(input, v, level, m) <= Elements(input);
  }

  /**
  What a compaction must meet to keep the invariant, told from the files before the call: a user key
  cut at the end of the upper run is dropped altogether, and of no key cut at the end of a run does
  the newest entry give way to a value that stays.
   */
  ghost predicate SafeToCompact(st: State, level: nat, inputs0: seq<File>, inputs1: seq<File>, input: seq<Entry>)
    requires |st.version| == NUM_LEVELS && level + 1 < NUM_LEVELS
  {
    && AgeSafe(st.version, level, inputs0, input, Oldest(st))
    && BringsNothingBack(st, level, inputs0, inputs1, input)
  }

  ghost predicate BringsNothingBack(st: State, level: nat, inputs0: seq<File>, inputs1: seq<File>, input: seq<Entry>)
    requires |st.version| == NUM_LEVELS && level + 1 < NUM_LEVELS
  {
    forall u :: IsCut(st.version, level, inputs0, inputs1, u) ==>
      !BringsBack(AllEntries(st), st.version, level, inputs0, inputs1, input, Oldest(st), u)
  }

  /** Running a compaction and installing its outputs keeps the invariant exactly if it is safe. */
  lemma CompactKeepsInv(st: State, v': Version, level: nat, inputs0: seq<File>, inputs1: seq<File>,
                        input: seq<Entry>, outputs: seq<seq<Entry>>, sizes: nat -> nat)
    requires |st.version| == NUM_LEVELS && level + 1 < NUM_LEVELS && Inv(st)
    requires Compacted(st, v', level, inputs0, inputs1, input, outputs, sizes)
    ensures Inv(st.(version := v', nextFile := st.nextFile + |outputs|)) <==> SafeToCompact(st, level, inputs0, inputs1, input)
  {
    hide *;
    var next' := st.nextFile + |outputs|;
    var m := Oldest(st);
    CompactionInstallsWell(st, v', level, inputs0, inputs1, input, outputs, sizes);
    InvLayers(st);
    CompactedParts(st, v', level, inputs0, inputs1, input, outputs, sizes);
    FactsForCompaction(st, level, inputs0, inputs1, input);
    CompactionKeepsReads(AllEntries(st), Elements(st.mem) + ImmSet(st), st.version, level, inputs0, inputs1, input, m);
    CompactedLayers(st, v', DroppedSet(input, st.version, level, m));
    VersionSwapKeepsInv(st, st.imm, v', next');
    UncoversIff(AllEntries(st), Elements(st.mem) + ImmSet(st), st.version, level, inputs0, inputs1, input, m);
    SafeIs(st, level, inputs0, inputs1, input);
  }

  lemma SafeIs(st: State, level: nat, inputs0: seq<File>, inputs1: seq<File>, input: seq<Entry>)
    requires |st.version| == NUM_LEVELS && level + 1 < NUM_LEVELS
    ensures SafeToCompact(st, level, inputs0, inputs1, input)
            <==> (&& AgeSafe(st.version, level, inputs0, input, Oldest(st))
                  && forall u :: IsCut(st.version, level, inputs0, inputs1, u) ==>
                       !BringsBack(AllEntries(st), st.version, level, inputs0, inputs1, input, Oldest(st), u))
  {
    hide AgeSafe, BringsBack, IsCut, AllEntries;
  }

  /** Input runs that end in no cut are safe. */
  lemma UncutInputsAreSafe(st: State, level: nat, inputs0: seq<File>, inputs1: seq<File>, input: seq<Entry>)
    requires |st.version| == NUM_LEVELS && level + 1 < NUM_LEVELS
    requires level == 0 || !EndsInCut(st.version[level], inputs0)
    requires !EndsInCut(st.version[level + 1], inputs1)
    ensures SafeToCompact(st, level, inputs0, inputs1, input)
  {
    hide *;
    forall u
      ensures !IsCut(st.version, level, inputs0, inputs1, u)
    {
      NotCut(st.version, level, inputs0, inputs1, u);
    }
    UncutIsAgeSafe(st.version, level, inputs0, input, Oldest(st));
    SafeIs(st, level, inputs0, inputs1, input);
  }

  lemma NotCut(v: Version, level: nat, inputs0: seq<File>, inputs1: seq<File>, u: UserKey)
    requires |v| == NUM_LEVELS && level + 1 < NUM_LEVELS
    requires (level == 0 || !EndsInCut(v[level], inputs0)) && !EndsInCut(v[level + 1], inputs1)
    ensures !IsCut(v, level, inputs0, inputs1, u)
  {
  }

  lemma UncutIsAgeSafe(v: Version, level: nat, inputs0: seq<File>, input: seq<Entry>, m: Sequence)
    requires |v| == NUM_LEVELS && level + 1 < NUM_LEVELS
    requires level == 0 || !EndsInCut(v[level], inputs0)
    ensures AgeSafe(v, level, inputs0, input, m)
  {
  }

  /** Where no level is cut, every compaction is safe. */
  lemma UncutStoreIsSafe(st: State, level: nat, inputs0: seq<File>, inputs1: seq<File>, input: seq<Entry>)
    requires |st.version| == NUM_LEVELS && level + 1 < NUM_LEVELS && Inv(st) && AllUncut(st.version)
    requires Chosen(st.version, level, inputs0, inputs1)
    requires Sorted(input) && Elements(input) == LevelSet(inputs0) + LevelSet(inputs1)
    ensures SafeToCompact(st, level, inputs0, inputs1, input)
  {
    hide *;
    UncutHasNoCut(st.version, level, inputs0, inputs1);
    UncutInputsAreSafe(st, level, inputs0, inputs1, input);
  }

  /** A compaction keeps levels uncut if its outputs are, and without snapshots they always are. */
  lemma CompactKeepsUncut(st: State, v': Version, level: nat, inputs0: seq<File>, inputs1: seq<File>,
                          input: seq<Entry>, outputs: seq<seq<Entry>>, sizes: nat -> nat, out: seq<File>)
    requires |st.version| == NUM_LEVELS && level + 1 < NUM_LEVELS && Inv(st)
    requires Compacted(st, v', level, inputs0, inputs1, input, outputs, sizes)
    requires (forall o :: o in outputs ==> |o| > 0) && out == OutputFiles(st.nextFile, sizes, outputs)
    ensures st.snapshots == [] ==> Uncut(out)
    ensures AllUncut(st.version) && Uncut(out) ==> AllUncut(v')
  {
    hide *;
    var v, m := st.version, Oldest(st);
    InvLayers(st);
    CompactionInstallsWell(st, v', level, inputs0, inputs1, input, outputs, sizes);
    CompactedParts(st, v', level, inputs0, inputs1, input, outputs, sizes);
    KeptIsSorted(input, v, level, m, |input|);
    OutputsAreFiles(st.nextFile, sizes, outputs);
    CompactionReplaces(st, v', level, inputs0, inputs1, input, outputs, sizes, out);
    ReplacedParts(st, v', level, inputs0, inputs1, input, out);
    if st.snapshots == [] {
      InputsAreOld(st, level, inputs0, inputs1, input);
      OneVersionIsKept(input, v, level, m);
      OneVersionIsUncut(out);
    }
    if AllUncut(v) && Uncut(out) {
      InstalledIsUncut(v, v', level, inputs0, inputs1, out);
    }
  }

  lemma ReplacedParts(st: State, v': Version, level: nat, inputs0: seq<File>, inputs1: seq<File>,
                      input: seq<Entry>, out: seq<File>)
    requires |st.version| == NUM_LEVELS && Replaced(st, v', level, inputs0, inputs1, input, out)
    requires Elements(input) == LevelSet(inputs0) + LevelSet(inputs1)
    ensures Installed(st.version, v', level, inputs0, inputs1, out)
    ensures LevelSet(out) == Elements(input) - DroppedSet(input, st.version, level, Oldest(st))
    ensures LevelSet(out) <= LevelSet(inputs0) + LevelSet(inputs1)
  {
  }

  /** Without snapshots the newest sequence number counts, and no input is beyond it. */
  lemma InputsAreOld(st: State, level: nat, inputs0: seq<File>, inputs1: seq<File>, input: seq<Entry>)
    requires |st.version| == NUM_LEVELS && level + 1 < NUM_LEVELS && Inv(st) && st.snapshots == []
    requires ValidInputs(st.version, level, inputs0, inputs1)
    requires Elements(input) == LevelSet(inputs0) + LevelSet(inputs1)
    ensures forall e :: e in Elements(input) ==> e.key.sn <= Oldest(st)
  {
    InputInVersion(st.version, level, inputs0, inputs1);
    assert Elements(input) <= AllEntries(st);
  }

  lemma CompactedParts(st: State, v': Version, level: nat, inputs0: seq<File>, inputs1: seq<File>,
                       input: seq<Entry>, outputs: seq<seq<Entry>>, sizes: nat -> nat)
    requires |st.version| == NUM_LEVELS
    requires Compacted(st, v', level, inputs0, inputs1, input, outputs, sizes)
    ensures Chosen(st.version, level, inputs0, inputs1) && level + 1 < NUM_LEVELS
    ensures ValidInputs(st.version, level, inputs0, inputs1)
    ensures Sorted(input) && Elements(input) == LevelSet(inputs0) + LevelSet(inputs1)
    ensures Flatten(outputs) == Kept(input, st.version, level, Oldest(st), |input|)
    ensures forall o :: o in outputs ==> |o| > 0
    ensures Applied(st.version, v', CompactionEdit(level, inputs0, inputs1, OutputFiles(st.nextFile, sizes, outputs)))
    ensures forall f :: f in inputs0 ==> f in st.version[level]
    ensures forall f :: f in inputs1 ==> f in st.version[level + 1]
  {
  }

  lemma CompactionInstallsWell(st: State, v': Version, level: nat, inputs0: seq<File>, inputs1: seq<File>,
                               input: seq<Entry>, outputs: seq<seq<Entry>>, sizes: nat -> nat)
    requires |st.version| == NUM_LEVELS && Inv(st)
    requires Compacted(st, v', level, inputs0, inputs1, input, outputs, sizes)
    ensures ValidVersion(v') && NumbersOk(v', st.nextFile + |outputs|)
    ensures level + 1 < NUM_LEVELS && (LevelsByAge(v') <==> AgeSafe(st.version, level, inputs0, input, Oldest(st)))
    ensures var D := DroppedSet(input, st.version, level, Oldest(st));
            D <= VersionSet(st.version) && VersionSet(v') == VersionSet(st.version) - D
  {
    hide *;
    var v, next, next' := st.version, st.nextFile, st.nextFile + |outputs|;
    InvLayers(st);
    CompactedParts(st, v', level, inputs0, inputs1, input, outputs, sizes);
    var out := OutputFiles(next, sizes, outputs);
    var m := Oldest(st);
    KeptIsSorted(input, v, level, m, |input|);
    OutputsAreFiles(next, sizes, outputs);
    OutputContents(next, sizes, outputs);
    OutputNumbers(v, level, next, sizes, outputs);
    KeptIsRest(input, v, level, m);
    CompactionInstalls(v, v', level, inputs0, inputs1, out, next);
    CompactionKeepsNumbers(v, v', level, inputs0, inputs1, out, next, next');
    InstalledIsValid(v, v', level, inputs0, inputs1, out);
    InstalledKeepsAge(v, v', level, inputs0, inputs1, out);
    UniqueVersion(st);
    AgeKeptIff(v, level, inputs0, inputs1, input, m, out);
    InstalledContents(v, v', level, inputs0, inputs1, out);
    InputInVersion(v, level, inputs0, inputs1);
    KeptContents(v, v', level, inputs0, inputs1, input, m, out);
  }

  lemma UniqueVersion(st: State)
    requires UniqueSequences(AllEntries(st))
    ensures UniqueSequences(VersionSet(st.version))
  {
  }

  lemma CompactionReplaces(st: State, v': Version, level: nat, inputs0: seq<File>, inputs1: seq<File>,
                           input: seq<Entry>, outputs: seq<seq<Entry>>, sizes: nat -> nat, out: seq<File>)
    requires |st.version| == NUM_LEVELS && Inv(st)
    requires Compacted(st, v', level, inputs0, inputs1, input, outputs, sizes)
    requires (forall o :: o in outputs ==> |o| > 0) && out == OutputFiles(st.nextFile, sizes, outputs)
    ensures Replaced(st, v', level, inputs0, inputs1, input, out)
  {
    hide *;
    var v, next, m := st.version, st.nextFile, Oldest(st);
    InvLayers(st);
    CompactedParts(st, v', level, inputs0, inputs1, input, outputs, sizes);
    KeptIsSorted(input, v, level, m, |input|);
    OutputsAreFiles(next, sizes, outputs);
    OutputContents(next, sizes, outputs);
    OutputNumbers(v, level, next, sizes, outputs);
    KeptIsRest(input, v, level, m);
    CompactionInstalls(v, v', level, inputs0, inputs1, out, next);
    OutputsReplace(st, v', level, inputs0, inputs1, input, Kept(input, v, level, m, |input|), out);
  }

  // ---------------------------------------------------------------- moving a file down

  /** A trivial move keeps the invariant exactly if it cuts no user key, which it never does at level zero. */
  lemma MoveKeepsInv(st: State, v': Version, level: nat, f: File)
    requires |st.version| == NUM_LEVELS && level + 1 < NUM_LEVELS && Inv(st)
    requires Chosen(st.version, level, [f], [])
    requires Applied(st.version, v', CompactionEdit(level, [f], [], [f]))
    ensures Inv(st.(version := v')) <==> level == 0 || !EndsInCut(st.version[level], [f])
    ensures Installed(st.version, v', level, [f], [], [f])
    ensures AllUncut(st.version) ==> AllUncut(v')
  {
    hide *;
    var v := st.version;
    InvLayers(st);
    ChosenParts(v, level, [f], []);
    MoveInstalls(v, v', level, f, st.nextFile);
    UniqueVersion(st);
    ChosenLeaveNoOlder(v, level, [f], []);
    MoveKeepsAge(v, v', level, f);
    InstalledIsValid(v, v', level, [f], [], [f]);
    MovedNumbers(v, v', level, f, st.nextFile);
    InstalledContents(v, v', level, [f], [], [f]);
    InputInVersion(v, level, [f], []);
    MovedContents(v, v', level, f);
    SameVersionSet(st, v');
    SameReadsAsSelf(AllEntries(st), Oldest(st));
    VersionSwapKeepsInv(st, st.imm, v', st.nextFile);
    if AllUncut(v) {
      OneFileIsUncut(f);
      InstalledIsUncut(v, v', level, [f], [], [f]);
    }
  }

  lemma SameReadsAsSelf(A: set<Entry>, m: Sequence)
    requires UniqueSequences(A)
    ensures SameReads(A, A, m)
  {
  }

  lemma OneFileIsUncut(f: File)
    ensures Uncut([f])
  {
  }

  lemma SameVersionSet(st: State, v': Version)
    requires Aged(st) && VersionSet(v') == VersionSet(st.version)
    ensures var st' := st.(imm := st.imm, version := v', nextFile := st.nextFile);
            AllEntries(st') == AllEntries(st) && Aged(st')
  {
  }
}
