/**
What goes wrong when a compaction cuts between two versions of one user key.  Output files may be
cut there (util/leveldb/db/db_impl.cc:929-935 and 997-1003), and nothing in the input selection of
levels above zero pulls the other half in (util/leveldb/db/version_set.cc:1296-1307).
 */
module Straddling {
  import opened Keys
  import opened History
  import opened Versions
  import opened Inputs
  import opened Compactions
  import opened Cuts
  import opened Installs
  import opened Moves
  import opened Stores
  import opened Lookups

  /** The level-by-level search stops at `stale` although `newest` is there. */
  ghost predicate ServesStale(v: Version, u: UserKey, s: Sequence, stale: Entry, newest: Entry) {
    LayerHit(LevelSets(v), u, s, Some(stale)) && IsNewest(VersionSet(v), u, s, newest) && stale != newest
  }

  /** Every trivial move across a cut key makes some lookup return an outdated value. */
  lemma StraddleServesStale(v: Version, v': Version, level: nat, i: nat)
    returns (u: UserKey, s: Sequence, stale: Entry, newest: Entry)
    requires ValidVersion(v) && 0 < level && level + 1 < NUM_LEVELS && i < |v[level]|
    requires Moved(v, v', level, v[level][i]) && UniqueSequences(VersionSet(v))
    requires Straddles(v[level], i + 1)
    ensures ServesStale(v', u, s, stale, newest)
  {
    var f := v[level][i];
    assert |f.entries| > 0 && |v'| == NUM_LEVELS;
    newest := LastEntry(f);
    u, s := newest.key.user, newest.key.sn;
    assert CutMove(v, v', level, i, newest);
    hide *;
    StillNewest(v, v', level, i, newest);
    NothingAbove(v, v', level, i, newest);
    var r := NewestExists(LevelSet(v'[level]), u, s);
    stale := OlderHalf(v, v', level, i, newest, r);
    Assemble(v', level, u, s, stale, newest);
  }

  lemma Assemble(v: Version, level: nat, u: UserKey, s: Sequence, stale: Entry, newest: Entry)
    requires level < |v| && forall l :: 0 <= l < level ==> NoneVisible(LevelSet(v[l]), u, s)
    requires IsNewest(LevelSet(v[level]), u, s, stale) && IsNewest(VersionSet(v), u, s, newest) && stale != newest
    ensures ServesStale(v, u, s, stale, newest)
  {
    HitInLevel(v, level, u, s, stale);
  }

  lemma NothingNew(v: Version, v': Version, level: nat, i: nat, newest: Entry)
    requires CutMove(v, v', level, i, newest)
    ensures VersionSet(v') <= VersionSet(v)
    ensures UniqueSequences(VersionSet(v')) && UniqueSequences(LevelSet(v'[level]))
  {
    var f := v[level][i];
    forall e | e in VersionSet(v')
      ensures e in VersionSet(v)
    {
      var l, g := LevelOfEntry(v', e);
      EntryOfFile(v'[l], g, e);
      var x := OriginLevel(v, v', level, [f], [], [f], l, e);
      assert v[x] in v;
    }
    assert v'[level] in v';
    assert LevelSet(v'[level]) <= VersionSet(v');
  }

  lemma StillNewest(v: Version, v': Version, level: nat, i: nat, newest: Entry)
    requires CutMove(v, v', level, i, newest)
    ensures IsNewest(VersionSet(v'), newest.key.user, newest.key.sn, newest)
    ensures UniqueSequences(LevelSet(v'[level]))
  {
    NothingNew(v, v', level, i, newest);
    var f := v[level][i];
    assert f in [f] && newest in f.entries;
    assert f in v'[level + 1] && v'[level + 1] in v';
    EntryOfFile(v'[level + 1], f, newest);
  }

  lemma NothingAbove(v: Version, v': Version, level: nat, i: nat, newest: Entry)
    requires CutMove(v, v', level, i, newest)
    ensures forall l :: 0 <= l < level ==> NoneVisible(LevelSet(v'[l]), newest.key.user, newest.key.sn)
  {
    var f := v[level][i];
    EntryOfFile(v[level], f, newest);
    forall l, e | 0 <= l < level && e in LevelSet(v'[l])
      ensures !Visible(e, newest.key.user, newest.key.sn)
    {
      assert v'[l] == v[l];
      if e.key.user == newest.key.user {
        AgeOfLevels(v, l, level, e, newest);
      }
    }
  }

  lemma OlderHalf(v: Version, v': Version, level: nat, i: nat, newest: Entry, r: Option<Entry>) returns (stale: Entry)
    requires CutMove(v, v', level, i, newest)
    requires FoundIn(LevelSet(v'[level]), newest.key.user, newest.key.sn, r)
    ensures IsNewest(LevelSet(v'[level]), newest.key.user, newest.key.sn, stale) && stale != newest
  {
    var f, g := v[level][i], v[level][i + 1];
    var a := g.entries[0];
    assert Less(f.largest, g.smallest);
    assert a in g.entries && Visible(a, newest.key.user, newest.key.sn);
    EntryInRange(f, f.entries[0]);
    assert g in v'[level] by {
      assert g in v[level] && g != f;
    }
    EntryOfFile(v'[level], g, a);
    stale := r.value;
    NotInOthers(v, v', level, i, newest);
  }

  lemma NotInOthers(v: Version, v': Version, level: nat, i: nat, newest: Entry)
    requires CutMove(v, v', level, i, newest)
    ensures newest !in LevelSet(v'[level])
  {
    var f := v[level][i];
    if newest in LevelSet(v'[level]) {
      var k := HoldingFile(v'[level], newest);
      var h := v'[level][k];
      assert h in v'[level] && h in v[level] && h !in [f] && f in [f];
      EntryInRange(h, newest);
      EntryInRange(f, f.entries[0]);
      EntryInRange(f, newest);
      SortedIsSeparated(v[level], f, h);
      assert false;
    }
  }

  ghost function LastEntry(f: File): Entry
    requires |f.entries| > 0
  {
    f.entries[|f.entries| - 1]
  }

  ghost predicate CutMove(v: Version, v': Version, level: nat, i: nat, newest: Entry) {
    && ValidVersion(v) && 0 < level && level + 1 < NUM_LEVELS && i < |v[level]|
    && Moved(v, v', level, v[level][i]) && UniqueSequences(VersionSet(v))
    && Straddles(v[level], i + 1)
    && |v[level][i].entries| > 0 && newest == LastEntry(v[level][i])
  }

  // ---------------------------------------------------------------- a deletion undone

  function One(user: UserKey, sn: Sequence, kind: Kind, value: Payload): (e: Entry) {
    Entry(InternalKey(user, sn, kind), value)
  }

  function Table(number: nat, es: seq<Entry>): (f: File)
    requires |es| > 0
  {
    File(number, 0, es[0].key, es[|es| - 1].key, es)
  }

  const CUT_SNAPSHOT: Sequence := 10
  const COMING := Table(1, [One(1, 8, Value, "a")])
  const MARKED := Table(2, [One(1, 7, Value, "b"), One(5, 6, Deletion, "")])
  const BEHIND := Table(3, [One(5, 2, Value, "old")])

  function CutVersion(): (v: Version) {
    [[], [COMING], [MARKED, BEHIND], [], [], [], []]
  }

  function CutInput(): (es: seq<Entry>) {
    [One(1, 8, Value, "a"), One(1, 7, Value, "b"), One(5, 6, Deletion, "")]
  }

  lemma TwoFiles(f: File, g: File)
    ensures LevelSet([f, g]) == Elements(f.entries) + Elements(g.entries)
  {
    assert f in [f, g] && g in [f, g];
  }

  lemma CutEntries()
    ensures Elements(COMING.entries) == {One(1, 8, Value, "a")}
    ensures Elements(MARKED.entries) == {One(1, 7, Value, "b"), One(5, 6, Deletion, "")}
    ensures Elements(BEHIND.entries) == {One(5, 2, Value, "old")}
  {
    assert COMING.entries[0] == One(1, 8, Value, "a");
    assert MARKED.entries[0] == One(1, 7, Value, "b") && MARKED.entries[1] == One(5, 6, Deletion, "");
    assert BEHIND.entries[0] == One(5, 2, Value, "old");
  }

  lemma CutSets()
    ensures var v := CutVersion();
            && LevelSet(v[1]) == {One(1, 8, Value, "a")}
            && LevelSet(v[2]) == {One(1, 7, Value, "b"), One(5, 6, Deletion, ""), One(5, 2, Value, "old")}
            && (forall l :: 0 <= l < 7 && l != 1 && l != 2 ==> LevelSet(v[l]) == {})
  {
    var v := CutVersion();
    assert v[1] == [COMING] && v[2] == [MARKED, BEHIND];
    SingleFile(COMING);
    TwoFiles(MARKED, BEHIND);
    CutEntries();
  }

  ghost function CutSet(): set<Entry> {
    {One(1, 8, Value, "a"), One(1, 7, Value, "b"), One(5, 6, Deletion, ""), One(5, 2, Value, "old")}
  }

  lemma CutVersionSet()
    ensures VersionSet(CutVersion()) == CutSet()
  {
    CutSets();
    var v := CutVersion();
    assert |v| == 7;
    hide CutVersion, LevelSet;
    assert v[1] in v && v[2] in v;
    forall e | e in VersionSet(v)
      ensures e in LevelSet(v[1]) + LevelSet(v[2])
    {
      var fs :| fs in v && e in LevelSet(fs);
      var l :| 0 <= l < |v| && v[l] == fs;
    }
  }

  lemma CutVersionIsValid()
    ensures ValidVersion(CutVersion())
  {
    var v := CutVersion();
    assert forall l :: 0 <= l < 7 && l != 1 && l != 2 ==> v[l] == [];
    assert ValidFile(COMING) && ValidFile(MARKED) && ValidFile(BEHIND);
    assert ValidFiles(v[1]) && ValidFiles(v[2]) && SortedLevel(v[1]) && SortedLevel(v[2]);
  }

  lemma CutVersionIsAged()
    ensures LevelsByAge(CutVersion())
  {
    CutSets();
    var v := CutVersion();
    assert |v| == 7;
    hide CutVersion, LevelSet;
    forall i, j | 0 <= i < j < |v|
      ensures Newer(LevelSet(v[i]), LevelSet(v[j]))
    {
      if i == 1 && j == 2 {
        assert Newer(LevelSet(v[1]), LevelSet(v[2]));
      }
    }
  }

  lemma CutSetIsUnique()
    ensures UniqueSequences(CutSet())
  {
  }

  lemma CutInputs()
    ensures var v := CutVersion();
            && |v| == NUM_LEVELS && GoodPick(v, 1, [COMING]) && ValidInputs(v, 1, [COMING], [MARKED])
            && !EndsInCut(v[1], [COMING]) && EndsInCut(v[2], [MARKED])
    ensures LevelSet([COMING]) == {One(1, 8, Value, "a")}
    ensures LevelSet([MARKED]) == {One(1, 7, Value, "b"), One(5, 6, Deletion, "")}
  {
    var v := CutVersion();
    SingleFile(COMING);
    SingleFile(MARKED);
    CutEntries();
    hide LevelSet, Elements;
    assert IsRun(v[1], [COMING], 0, 1) && IsRun(v[2], [MARKED], 0, 1) && Straddles(v[2], 1);
    assert COMING in [COMING] && MARKED in [MARKED];
    assert IsRange([COMING], COMING.smallest, COMING.largest);
    assert v[2][..1] == [MARKED] && v[2][..2] == v[2] && v[2][..1][..0] == [];
    assert Overlapping(v[2][..1], Span(1, 1)) == [MARKED];
    assert Overlapping(v[2], Span(1, 1)) == [MARKED];
  }

  lemma CutDrops()
    ensures Sorted(CutInput()) && One(5, 6, Deletion, "") in DroppedSet(CutInput(), CutVersion(), 1, CUT_SNAPSHOT)
    ensures DroppedSet(CutInput(), CutVersion(), 1, CUT_SNAPSHOT) <= Elements(CutInput())
    ensures Elements(CutInput()) == {One(1, 8, Value, "a"), One(1, 7, Value, "b"), One(5, 6, Deletion, "")}
  {
    var v, input := CutVersion(), CutInput();
    assert BaseLevel(v, 1, 5) by {
      assert forall l :: 3 <= l < 7 ==> v[l] == [];
    }
    assert input[2] == One(5, 6, Deletion, "");
    assert Dropped(input, v, 1, CUT_SNAPSHOT, 2);
  }

  /**
  Inputs as the code selects them from level one of a valid version, ending in a cut in level two: a
  read of `u` at `m` found nothing before the compaction and finds `value` after it.
   */
  ghost predicate Revives(v: Version, inputs0: seq<File>, inputs1: seq<File>, input: seq<Entry>, m: Sequence,
                          u: UserKey, value: Payload) {
    && Chosen(v, 1, inputs0, inputs1) && UniqueSequences(VersionSet(v))
    && !EndsInCut(v[1], inputs0) && EndsInCut(v[2], inputs1)
    && Sorted(input) && Elements(input) == LevelSet(inputs0) + LevelSet(inputs1)
    && UniqueSequences(VersionSet(v) - DroppedSet(input, v, 1, m))
    && Read(VersionSet(v), u, m) == None
    && Read(VersionSet(v) - DroppedSet(input, v, 1, m), u, m) == Some(value)
  }

  /** A cut in the next level lets rule B drop a deletion that still hides a value there. */
  lemma StraddleRevives()
    ensures Revives(CutVersion(), [COMING], [MARKED], CutInput(), CUT_SNAPSHOT, 5, "old")
  {
    hide *;
    CutVersionIsValid();
    CutVersionIsAged();
    CutVersionSet();
    CutSetIsUnique();
    CutInputs();
    CutDrops();
    CutReads(DroppedSet(CutInput(), CutVersion(), 1, CUT_SNAPSHOT));
    PackRevival(CutVersion(), CutInput(), DroppedSet(CutInput(), CutVersion(), 1, CUT_SNAPSHOT));
  }

  lemma PackRevival(v: Version, input: seq<Entry>, D: set<Entry>)
    requires ValidVersion(v) && LevelsByAge(v) && VersionSet(v) == CutSet() && UniqueSequences(CutSet())
    requires |v| == NUM_LEVELS && GoodPick(v, 1, [COMING]) && ValidInputs(v, 1, [COMING], [MARKED])
    requires !EndsInCut(v[1], [COMING]) && EndsInCut(v[2], [MARKED])
    requires Sorted(input) && Elements(input) == LevelSet([COMING]) + LevelSet([MARKED])
    requires D == DroppedSet(input, v, 1, CUT_SNAPSHOT) && UniqueSequences(CutSet() - D)
    requires Read(CutSet(), 5, CUT_SNAPSHOT) == None && Read(CutSet() - D, 5, CUT_SNAPSHOT) == Some("old")
    ensures Revives(v, [COMING], [MARKED], input, CUT_SNAPSHOT, 5, "old")
  {
    hide ValidVersion, LevelsByAge, VersionSet, UniqueSequences, ValidInputs, GoodPick, Sorted, Elements, LevelSet,
         DroppedSet, Read, CutSet, EndsInCut;
  }

  lemma CutReads(D: set<Entry>)
    requires One(5, 6, Deletion, "") in D
    requires D <= {One(1, 8, Value, "a"), One(1, 7, Value, "b"), One(5, 6, Deletion, "")}
    requires UniqueSequences(CutSet())
    ensures Read(CutSet(), 5, CUT_SNAPSHOT) == None && UniqueSequences(CutSet() - D) && Read(CutSet() - D, 5, CUT_SNAPSHOT) == Some("old")
  {
    assert IsNewest(CutSet(), 5, CUT_SNAPSHOT, One(5, 6, Deletion, ""));
    assert IsNewest(CutSet() - D, 5, CUT_SNAPSHOT, One(5, 2, Value, "old"));
  }

  // ---------------------------------------------------------------- a move that shows, and one that does not

  /** A store on the cut version without snapshots, which has forgotten nothing. */
  ghost function CutStore(mem: seq<Entry>): State {
    State(mem, None, CutVersion(), CUT_SNAPSHOT, [], 4, Elements(mem) + CutSet())
  }

  const NEWER := One(5, 9, Value, "y")

  const DELETED := One(5, 6, Deletion, "")
  const OLD := One(5, 2, Value, "old")

  lemma CutFile(l: nat, f: File)
    requires l < |CutVersion()| && f in CutVersion()[l]
    ensures || (l == 1 && f == COMING && f.number == 1)
            || (l == 2 && f == MARKED && f.number == 2)
            || (l == 2 && f == BEHIND && f.number == 3)
  {
    var v := CutVersion();
    assert v[0] == [] && v[1] == [COMING] && v[2] == [MARKED, BEHIND];
    assert v[3] == [] && v[4] == [] && v[5] == [] && v[6] == [];
  }

  lemma CutNumbers()
    ensures NumbersOk(CutVersion(), 4)
  {
    hide *;
    var v := CutVersion();
    forall l, f: File | 0 <= l < |v| && f in v[l]
      ensures f.number < 4
    {
      CutFile(l, f);
    }
    forall l, k, f: File, g: File | 0 <= l < |v| && 0 <= k < |v| && f in v[l] && g in v[k] && f.number == g.number
      ensures l == k && f == g
    {
      CutFile(l, f);
      CutFile(k, g);
    }
    PackNumbers(v, 4);
  }

  lemma PackNumbers(v: Version, next: nat)
    requires forall l, f: File :: 0 <= l < |v| && f in v[l] ==> f.number < next
    requires forall l, k, f: File, g: File ::
               0 <= l < |v| && 0 <= k < |v| && f in v[l] && g in v[k] && f.number == g.number ==> l == k && f == g
    ensures NumbersOk(v, next)
  {
  }

  lemma CutStoreIsGood(mem: seq<Entry>)
    requires mem == [] || mem == [NEWER]
    ensures Inv(CutStore(mem)) && AllEntries(CutStore(mem)) == Elements(mem) + CutSet()
  {
    hide *;
    var st := CutStore(mem);
    CutVersionIsValid();
    CutVersionIsAged();
    CutVersionSet();
    CutNumbers();
    StoreIs(mem);
    MemIs(mem);
    CutIsAged(mem);
    CutIsCounted(mem);
    SameReadsAsSelf(AllEntries(st), CUT_SNAPSHOT);
    PackCutStore(mem);
  }

  lemma MemIs(mem: seq<Entry>)
    requires (mem == [] || mem == [NEWER]) && VersionSet(CutVersion()) == CutSet()
    ensures Sorted(mem) && Elements(mem) == (if mem == [] then {} else {NEWER}) && ImmSet(CutStore(mem)) == {}
    ensures AllEntries(CutStore(mem)) == Elements(mem) + CutSet()
  {
    hide VersionSet, CutVersion, CutSet;
    assert mem == [NEWER] ==> mem[0] == NEWER;
  }

  lemma CutIsAged(mem: seq<Entry>)
    requires Elements(mem) == (if mem == [] then {} else {NEWER}) && VersionSet(CutVersion()) == CutSet()
    ensures Newer(Elements(mem), CutSet())
  {
    hide VersionSet, CutVersion, Elements;
  }

  lemma CutIsCounted(mem: seq<Entry>)
    requires Elements(mem) == if mem == [] then {} else {NEWER}
    ensures UniqueSequences(Elements(mem) + CutSet()) && UpTo(Elements(mem) + CutSet(), CUT_SNAPSHOT)
  {
    hide Elements;
  }

  lemma PackCutStore(mem: seq<Entry>)
    requires Sorted(mem) && ValidVersion(CutVersion()) && LevelsByAge(CutVersion()) && NumbersOk(CutVersion(), 4)
    requires VersionSet(CutVersion()) == CutSet() && ImmSet(CutStore(mem)) == {} && Newer(Elements(mem), CutSet())
    requires AllEntries(CutStore(mem)) == Elements(mem) + CutSet()
    requires UniqueSequences(Elements(mem) + CutSet()) && UpTo(Elements(mem) + CutSet(), CUT_SNAPSHOT)
    requires SameReads(Elements(mem) + CutSet(), Elements(mem) + CutSet(), CUT_SNAPSHOT)
    ensures Inv(CutStore(mem))
  {
    hide Sorted, ValidVersion, LevelsByAge, NumbersOk, VersionSet, ImmSet, AllEntries, UniqueSequences, UpTo, SameReads,
         CutVersion, CutSet, Elements, Newer;
    assert {} + CutSet() == CutSet();
    NothingIsNewer(CutSet());
  }

  lemma NothingIsNewer(S: set<Entry>)
    ensures Newer({}, S)
  {
  }

  lemma MarkedIsChosen()
    ensures Chosen(CutVersion(), 2, [MARKED], []) && EndsInCut(CutVersion()[2], [MARKED])
  {
    var v := CutVersion();
    CutVersionIsValid();
    CutVersionIsAged();
    assert MARKED in [MARKED] && IsRange([MARKED], MARKED.smallest, MARKED.largest);
    assert v[3] == [] && Overlapping([], Span(1, 5)) == [];
    assert IsRun(v[2], [MARKED], 0, 1) && Straddles(v[2], 1);
  }

  /**
  Moving the file with the deletion down leaves the deleted value in front of it, and the lookup at the
  latest sequence number returns it.
   */
  lemma MovedCutIsStale(v': Version)
    requires Applied(CutVersion(), v', CompactionEdit(2, [MARKED], [], [MARKED]))
    ensures Inv(CutStore([])) && LiveSequence(CutStore([]), CUT_SNAPSHOT)
    ensures ServesStale(v', 5, CUT_SNAPSHOT, OLD, DELETED)
  {
    hide *;
    CutStoreIsGood([]);
    LatestIsLive([]);
    MarkedIsChosen();
    CutNumbers();
    ChosenParts(CutVersion(), 2, [MARKED], []);
    MoveInstalls(CutVersion(), v', 2, MARKED, 4);
    InstalledIsMoved(v');
    InstalledLevels(CutVersion(), v', 2, [MARKED], [], [MARKED]);
    InstalledContents(CutVersion(), v', 2, [MARKED], [], [MARKED]);
    InputInVersion(CutVersion(), 2, [MARKED], []);
    MovedContents(CutVersion(), v', 2, MARKED);
    CutVersionSet();
    MovedSets(v');
    HitInLevel(v', 2, 5, CUT_SNAPSHOT, OLD);
    PackStale(v');
  }

  lemma LatestIsLive(mem: seq<Entry>)
    ensures LiveSequence(CutStore(mem), CUT_SNAPSHOT)
  {
  }

  lemma InstalledIsMoved(v': Version)
    requires Installed(CutVersion(), v', 2, [MARKED], [], [MARKED])
    ensures |v'| == NUM_LEVELS && v'[0] == CutVersion()[0] && v'[1] == CutVersion()[1]
  {
  }

  lemma MovedSets(v': Version)
    requires |v'| == NUM_LEVELS && v'[0] == CutVersion()[0] && v'[1] == CutVersion()[1]
    requires LevelSet(v'[2]) == Contents(Others(CutVersion()[2], [MARKED]))
    ensures forall l :: 0 <= l < 2 ==> NoneVisible(LevelSet(v'[l]), 5, CUT_SNAPSHOT)
    ensures IsNewest(LevelSet(v'[2]), 5, CUT_SNAPSHOT, OLD)
  {
    CutSets();
    CutEntries();
    assert MARKED.number != BEHIND.number;
    assert Others(CutVersion()[2], [MARKED]) == {BEHIND};
    assert Contents({BEHIND}) == Elements(BEHIND.entries);
  }

  lemma PackStale(v': Version)
    requires VersionSet(v') == CutSet() && LayerHit(LevelSets(v'), 5, CUT_SNAPSHOT, Some(OLD))
    ensures ServesStale(v', 5, CUT_SNAPSHOT, OLD, DELETED)
  {
    assert IsNewest(CutSet(), 5, CUT_SNAPSHOT, DELETED);
  }

  /** With a newer entry of the key in the memtable the same move breaks the invariant, and no lookup shows it. */
  lemma MaskedCutDoesNotShow(v': Version)
    requires Applied(CutVersion(), v', CompactionEdit(2, [MARKED], [], [MARKED]))
    ensures var st := CutStore([NEWER]);
            && Inv(st) && !Inv(st.(version := v')) && UniqueSequences(st.history)
            && LooksUpNewest(st.(version := v'), CUT_SNAPSHOT) && AnswersAsHistory(st.(version := v'), CUT_SNAPSHOT)
  {
    hide *;
    var st := CutStore([NEWER]);
    CutStoreIsGood([NEWER]);
    MarkedIsChosen();
    StoreIs([NEWER]);
    ChosenParts(CutVersion(), 2, [MARKED], []);
    MoveKeepsInv(st, v', 2, MARKED);
    MoveLookups(st, v', 2, MARKED);
    NewerMasks();
    LookupsParts(st, st.(version := v'), true, true);
  }

  lemma StoreIs(mem: seq<Entry>)
    ensures CutStore(mem).version == CutVersion() && Oldest(CutStore(mem)) == CUT_SNAPSHOT
  {
  }

  lemma LookupsParts(st: State, st': State, found: bool, same: bool)
    requires LookupsAre(st, st', found, same)
    ensures UniqueSequences(st'.history) && (found ==> LooksUpNewest(st', Oldest(st)))
    ensures found && same ==> AnswersAsHistory(st', Oldest(st))
  {
  }

  lemma NewerMasks()
    requires AllEntries(CutStore([NEWER])) == Elements([NEWER]) + CutSet()
    ensures Masked(CutStore([NEWER]), [MARKED])
  {
    assert [NEWER][0] == NEWER;
    CutEntries();
    SingleFile(MARKED);
    assert NEWER in AllEntries(CutStore([NEWER]));
    assert Masks(CutStore([NEWER]), [MARKED], NEWER);
  }
}
