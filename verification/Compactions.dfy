/**
Compacting files of one level into the next: input selection, the two drop rules and why they
are sound for the whole store (util/leveldb/db/version_set.cc, util/leveldb/db/db_impl.cc).
 */
module Compactions {
  import opened Keys
  import opened History
  import opened Versions
  import opened Inputs

  // ---------------------------------------------------------------- the drop rules

  predicate InRange(f: File, u: UserKey) {
    f.smallest.user <= u <= f.largest.user
  }

  /** No file two or more levels below `level` has `u` in its range. */
  ghost predicate BaseLevel(v: Version, level: nat, u: UserKey)
    requires |v| == NUM_LEVELS
  {
    forall l, f :: level + 2 <= l < NUM_LEVELS && f in v[l] ==> !InRange(f, u)
  }

  /** Rule A: the entry before it has the same user key and is already old enough. */
  ghost predicate HiddenByNewer(input: seq<Entry>, m: Sequence, i: nat)
    requires i < |input|
  {
    i > 0 && input[i - 1].key.user == input[i].key.user && input[i - 1].key.sn <= m
  }

  /** Rule B: an old tombstone with nothing underneath. */
  ghost predicate ObsoleteMarker(v: Version, level: nat, m: Sequence, e: Entry)
    requires |v| == NUM_LEVELS
  {
    e.key.kind.Deletion? && e.key.sn <= m && BaseLevel(v, level, e.key.user)
  }

  ghost predicate Dropped(input: seq<Entry>, v: Version, level: nat, m: Sequence, i: nat)
    requires |v| == NUM_LEVELS && i < |input|
  {
    HiddenByNewer(input, m, i) || ObsoleteMarker(v, level, m, input[i])
  }

  /** The entries that survive among the first `n`. */
  ghost function Kept(input: seq<Entry>, v: Version, level: nat, m: Sequence, n: nat): seq<Entry>
    requires |v| == NUM_LEVELS && n <= |input|
  {
    if n == 0 then []
    else Kept(input, v, level, m, n - 1) + if Dropped(input, v, level, m, n - 1) then [] else [input[n - 1]]
  }

  lemma {:induction false} KeptMembers(input: seq<Entry>, v: Version, level: nat, m: Sequence, n: nat)
    requires |v| == NUM_LEVELS && n <= |input|
    ensures forall e :: e in Kept(input, v, level, m, n) ==>
              exists i :: 0 <= i < n && input[i] == e && !Dropped(input, v, level, m, i)
    ensures forall i :: 0 <= i < n && !Dropped(input, v, level, m, i) ==>
              input[i] in Kept(input, v, level, m, n)
  {
    if n > 0 {
      KeptMembers(input, v, level, m, n - 1);
    }
  }

  lemma {:induction false} KeptIsSorted(input: seq<Entry>, v: Version, level: nat, m: Sequence, n: nat)
    requires |v| == NUM_LEVELS && n <= |input| && Sorted(input)
    ensures Sorted(Kept(input, v, level, m, n))
    ensures forall e :: e in Kept(input, v, level, m, n) && n < |input| ==> Less(e.key, input[n].key)
  {
    if n > 0 {
      hide Dropped;
      KeptIsSorted(input, v, level, m, n - 1);
    }
  }

  /** Some file two or more levels below `level` has `u` between its ends. */
  ghost predicate CoveredBelow(v: Version, level: nat, u: UserKey) {
    exists l, f :: level + 2 <= l < |v| && f in v[l] && f.smallest.user <= u <= f.largest.user
  }

  /**
  What a compaction keeps, told from entries and files alone: an entry is kept if and only if no newer
  input entry of its user key is at or below `m`, and it is not a deletion at or below `m` without a file
  further down that has its key between its ends.
   */
  lemma KeptIff(input: seq<Entry>, v: Version, level: nat, m: Sequence, i: nat)
    requires |v| == NUM_LEVELS && Sorted(input) && i < |input|
    ensures input[i] in Kept(input, v, level, m, |input|)
            <==> (&& (forall k :: 0 <= k < i && input[k].key.user == input[i].key.user ==> input[k].key.sn > m)
                  && (input[i].key.kind.Deletion? && input[i].key.sn <= m ==> CoveredBelow(v, level, input[i].key.user)))
  {
    KeptMembers(input, v, level, m, |input|);
    assert forall j :: 0 <= j < |input| && input[j] == input[i] ==> j == i;
    BeforeIsHidden(input, m, i);
    CoveredIff(v, level, input[i].key.user);
  }

  lemma CoveredIff(v: Version, level: nat, u: UserKey)
    requires |v| == NUM_LEVELS
    ensures BaseLevel(v, level, u) <==> !CoveredBelow(v, level, u)
  {
    if CoveredBelow(v, level, u) {
      var l, f :| level + 2 <= l < |v| && f in v[l] && f.smallest.user <= u <= f.largest.user;
      assert InRange(f, u);
    }
  }

  /** The entry before it speaks for all newer ones. */
  lemma BeforeIsHidden(input: seq<Entry>, m: Sequence, i: nat)
    requires Sorted(input) && i < |input|
    ensures HiddenByNewer(input, m, i)
            <==> exists k :: 0 <= k < i && input[k].key.user == input[i].key.user && input[k].key.sn <= m
  {
    if k :| 0 <= k < i && input[k].key.user == input[i].key.user && input[k].key.sn <= m {
      assert Less(input[i - 1].key, input[i].key);
      if k < i - 1 {
        assert Less(input[k].key, input[i - 1].key);
      }
    }
  }

  /** Of one user key at most one kept entry is at or below `m`, and no kept deletion is there without a file further down. */
  lemma KeptIsLean(input: seq<Entry>, v: Version, level: nat, m: Sequence)
    requires |v| == NUM_LEVELS && Sorted(input)
    ensures Lean(Kept(input, v, level, m, |input|), v, level, m)
  {
    hide Kept, Dropped, CoveredBelow, Sorted;
    var kept := Kept(input, v, level, m, |input|);
    forall e, e' | e in kept && e' in kept && e.key.user == e'.key.user && e.key.sn <= m && e'.key.sn <= m
      ensures e == e'
    {
      var i := KeptAt(input, v, level, m, e);
      var j := KeptAt(input, v, level, m, e');
    }
    forall e | e in kept && e.key.kind.Deletion? && e.key.sn <= m
      ensures CoveredBelow(v, level, e.key.user)
    {
      var i := KeptAt(input, v, level, m, e);
    }
  }

  lemma KeptAt(input: seq<Entry>, v: Version, level: nat, m: Sequence, e: Entry) returns (i: nat)
    requires |v| == NUM_LEVELS && Sorted(input) && e in Kept(input, v, level, m, |input|)
    ensures i < |input| && input[i] == e
    ensures forall k :: 0 <= k < i && input[k].key.user == e.key.user ==> input[k].key.sn > m
    ensures e.key.kind.Deletion? && e.key.sn <= m ==> CoveredBelow(v, level, e.key.user)
  {
    hide Dropped, CoveredBelow, Sorted;
    KeptMembers(input, v, level, m, |input|);
    hide Kept;
    i :| 0 <= i < |input| && input[i] == e;
    KeptIff(input, v, level, m, i);
  }

  ghost predicate Lean(out: seq<Entry>, v: Version, level: nat, m: Sequence) {
    && (forall e, e' :: e in out && e' in out && e.key.user == e'.key.user && e.key.sn <= m && e'.key.sn <= m ==> e == e')
    && (forall e :: e in out && e.key.kind.Deletion? && e.key.sn <= m ==> CoveredBelow(v, level, e.key.user))
  }

  ghost function DroppedSet(input: seq<Entry>, v: Version, level: nat, m: Sequence): set<Entry>
    requires |v| == NUM_LEVELS
  {
    set i | 0 <= i < |input| && Dropped(input, v, level, m, i) :: input[i]
  }

  lemma KeptIsRest(input: seq<Entry>, v: Version, level: nat, m: Sequence)
    requires |v| == NUM_LEVELS && Sorted(input)
    ensures Elements(Kept(input, v, level, m, |input|)) == Elements(input) - DroppedSet(input, v, level, m)
  {
    KeptMembers(input, v, level, m, |input|);
    var K := Kept(input, v, level, m, |input|);
    forall e
      ensures e in K <==> e in Elements(input) - DroppedSet(input, v, level, m)
    {
      if e in K {
        var i :| 0 <= i < |input| && input[i] == e && !Dropped(input, v, level, m, i);
        assert forall j :: 0 <= j < |input| && input[j] == e ==> j == i;
      } else if e in input {
        var i :| 0 <= i < |input| && input[i] == e;
        assert Dropped(input, v, level, m, i);
      }
    }
  }

  lemma EntryOfFile(files: seq<File>, f: File, e: Entry)
    requires f in files && e in f.entries
    ensures e in LevelSet(files)
  {
  }

  lemma SubsetOfLevel(files: seq<File>, inputs: seq<File>, e: Entry)
    requires e in LevelSet(inputs) && forall f :: f in inputs ==> f in files
    ensures e in LevelSet(files)
  {
  }

  /** Levels are ordered by age, entry by entry. */
  lemma AgeOfLevels(v: Version, i: nat, j: nat, a: Entry, b: Entry)
    requires LevelsByAge(v) && i < j < |v|
    requires a in LevelSet(v[i]) && b in LevelSet(v[j]) && a.key.user == b.key.user
    ensures a.key.sn > b.key.sn
  {
    assert Newer(LevelSet(v[i]), LevelSet(v[j]));
  }

  // ---------------------------------------------------------------- what an input set must satisfy

  /** Files of `files` that are not among `inputs`. */
  ghost function Others(files: seq<File>, inputs: seq<File>): set<File> {
    set f | f in files && f !in inputs
  }

  ghost function Contents(fs: set<File>): set<Entry> {
    set f, e | f in fs && e in f.entries :: e
  }

  /** Nothing older than an input entry of the same user key stays behind in the level. */
  ghost predicate LeavesNoOlder(files: seq<File>, inputs: seq<File>) {
    Newer(Contents(Others(files, inputs)), LevelSet(inputs))
  }

  /** Inputs of a compaction as PickCompaction, CompactRange and SetupOtherInputs leave them. */
  ghost predicate ValidInputs(v: Version, level: nat, inputs0: seq<File>, inputs1: seq<File>)
    requires |v| == NUM_LEVELS && level + 1 < NUM_LEVELS
  {
    && |inputs0| > 0
    && (forall f :: f in inputs0 ==> f in v[level])
    && exists s, l :: IsRange(inputs0, s, l) && inputs1 == Overlapping(v[level + 1], Span(s.user, l.user))
  }

  /** Inputs of one level: closed under overlap at level zero, a contiguous run of files below it. */
  ghost predicate GoodPick(v: Version, level: nat, inputs: seq<File>)
    requires |v| == NUM_LEVELS && level + 1 < NUM_LEVELS
  {
    && |inputs| > 0
    && (forall f :: f in inputs ==> f in v[level])
    && (level == 0 ==> exists reach :: Closed(v[0], reach) && inputs == Overlapping(v[0], reach))
    && (level > 0 ==> exists lo, hi :: IsRun(v[level], inputs, lo, hi))
  }

  predicate IsRun(files: seq<File>, inputs: seq<File>, lo: nat, hi: nat) {
    lo < hi <= |files| && inputs == files[lo..hi]
  }

  /** A valid version and inputs as the code selects them. */
  ghost predicate Chosen(v: Version, level: nat, inputs0: seq<File>, inputs1: seq<File>) {
    && ValidVersion(v) && LevelsByAge(v) && level + 1 < NUM_LEVELS
    && GoodPick(v, level, inputs0) && ValidInputs(v, level, inputs0, inputs1)
  }

  /** Whatever stays in the next level shares no user key with the files coming down. */
  lemma NextLevelIsClear(v: Version, level: nat, inputs0: seq<File>, inputs1: seq<File>, f: File, g: File)
    requires ValidVersion(v) && level + 1 < NUM_LEVELS && ValidInputs(v, level, inputs0, inputs1)
    requires f in inputs0 && g in v[level + 1] && g !in inputs1
    ensures g.largest.user < f.smallest.user || f.largest.user < g.smallest.user
  {
    var s, l :| IsRange(inputs0, s, l) && inputs1 == Overlapping(v[level + 1], Span(s.user, l.user));
    SpanContains(inputs0, s, l);
    assert !Overlaps(g, Span(s.user, l.user));
  }

  /** The whole store seen by a compaction: the memtables over one version. */
  ghost predicate StoreOver(S: set<Entry>, M: set<Entry>, v: Version) {
    S == M + VersionSet(v) && UniqueSequences(S) && Newer(M, VersionSet(v))
  }

  ghost predicate CompactionFacts(S: set<Entry>, M: set<Entry>, v: Version, level: nat,
                                  inputs0: seq<File>, inputs1: seq<File>, input: seq<Entry>) {
    && Chosen(v, level, inputs0, inputs1) && StoreOver(S, M, v)
    && Sorted(input)
    && Elements(input) == LevelSet(inputs0) + LevelSet(inputs1)
  }

  lemma LevelOfEntry(v: Version, e: Entry) returns (l: nat, f: File)
    requires e in VersionSet(v)
    ensures l < |v| && f in v[l] && e in f.entries
  {
    var fs :| fs in v && e in LevelSet(fs);
    l :| 0 <= l < |v| && v[l] == fs;
    f :| f in fs && e in f.entries;
  }

  lemma InputInVersion(v: Version, level: nat, inputs0: seq<File>, inputs1: seq<File>)
    requires ValidVersion(v) && level + 1 < NUM_LEVELS && ValidInputs(v, level, inputs0, inputs1)
    ensures LevelSet(inputs0) <= LevelSet(v[level]) <= VersionSet(v)
    ensures LevelSet(inputs1) <= LevelSet(v[level + 1]) <= VersionSet(v)
  {
    assert v[level] in v && v[level + 1] in v;
  }

  lemma StayingBelowComing(v: Version, level: nat, inputs0: seq<File>, inputs1: seq<File>,
                           f: File, d: Entry, e: Entry)
    requires ValidVersion(v) && level + 1 < NUM_LEVELS && ValidInputs(v, level, inputs0, inputs1)
    requires d in LevelSet(inputs0) && f in v[level + 1] && f !in inputs1 && e in f.entries
    ensures e.key.user != d.key.user
  {
    var i := HoldingFile(inputs0, d);
    assert inputs0[i] in inputs0;
    MembersAreValid(v[level], inputs0[i]);
    MembersAreValid(v[level + 1], f);
    EntryInRange(inputs0[i], d);
    EntryInRange(f, e);
    NextLevelIsClear(v, level, inputs0, inputs1, inputs0[i], f);
  }

  lemma StayingBesideInput(files: seq<File>, inputs: seq<File>, f: File, d: Entry, e: Entry)
    requires LeavesNoOlder(files, inputs) && f in files && f !in inputs
    requires e in f.entries && d in LevelSet(inputs) && e.key.user == d.key.user
    ensures e.key.sn > d.key.sn
  {
    assert f in Others(files, inputs);
    assert e in Contents(Others(files, inputs));
  }

  lemma DeepIsClear(v: Version, level: nat, l: nat, f: File, e: Entry)
    requires ValidVersion(v) && l < NUM_LEVELS && f in v[l] && e in f.entries
    requires BaseLevel(v, level, e.key.user)
    ensures l < level + 2
  {
    MembersAreValid(v[l], f);
    EntryInRange(f, e);
    assert InRange(f, e.key.user);
  }

  /** A dropped entry is shadowed for every read at `m` or later, or it is an old deletion at its base level. */
  lemma DropsAreExplained(S: set<Entry>, M: set<Entry>, v: Version, level: nat, inputs0: seq<File>,
                          inputs1: seq<File>, input: seq<Entry>, m: Sequence, d: Entry)
    requires CompactionFacts(S, M, v, level, inputs0, inputs1, input)
    requires d in DroppedSet(input, v, level, m)
    ensures Shadowed(S, m, d) || ObsoleteMarker(v, level, m, d)
  {
    InputInVersion(v, level, inputs0, inputs1);
    assert Elements(input) <= S && UniqueSequences(S) && Sorted(input);
    assert |v| == NUM_LEVELS;
    var i :| 0 <= i < |input| && Dropped(input, v, level, m, i) && input[i] == d;
    if HiddenByNewer(input, m, i) {
      hide *;
      HiddenIsShadowed(S, input, m, i);
    }
  }

  lemma HiddenIsShadowed(S: set<Entry>, input: seq<Entry>, m: Sequence, i: nat)
    requires UniqueSequences(S) && Elements(input) <= S && Sorted(input)
    requires i < |input| && HiddenByNewer(input, m, i)
    ensures Shadowed(S, m, input[i])
  {
    var p := input[i - 1];
    assert Less(p.key, input[i].key);
    assert p in Elements(input) && input[i] in Elements(input);
    assert p.key.sn != input[i].key.sn;
  }

  lemma OnlyVersionIsOlder(S: set<Entry>, M: set<Entry>, v: Version, level: nat, inputs0: seq<File>,
                           inputs1: seq<File>, input: seq<Entry>, d: Entry, e: Entry)
    requires CompactionFacts(S, M, v, level, inputs0, inputs1, input)
    requires d in Elements(input) && e in S && e.key.user == d.key.user && e.key.sn < d.key.sn
    ensures e in VersionSet(v)
  {
    InputInVersion(v, level, inputs0, inputs1);
    assert d in VersionSet(v);
  }

  /** Once one entry of a user key is old enough, rule A drops all that follow it. */
  lemma FollowersAreHidden(input: seq<Entry>, v: Version, level: nat, m: Sequence, i: nat, e: Entry)
    requires |v| == NUM_LEVELS && Sorted(input) && i < |input| && input[i].key.sn <= m
    requires e in Elements(input) && e.key.user == input[i].key.user && e.key.sn < input[i].key.sn
    ensures e in DroppedSet(input, v, level, m)
  {
    var j :| 0 <= j < |input| && input[j] == e;
    assert i < j by {
      if j < i { assert false; }
    }
    assert Less(input[j - 1].key, input[j].key);
    if i < j - 1 { assert Less(input[i].key, input[j - 1].key); }
    assert HiddenByNewer(input, m, j);
  }

  /**
  Replacing the inputs by the kept entries leaves every read at `m` or later as it was if and only
  if no dropped deletion was hiding a value that stays.
   */
  lemma CompactionKeepsReads(S: set<Entry>, M: set<Entry>, v: Version, level: nat, inputs0: seq<File>,
                             inputs1: seq<File>, input: seq<Entry>, m: Sequence)
    requires CompactionFacts(S, M, v, level, inputs0, inputs1, input)
    ensures var D := DroppedSet(input, v, level, m);
            && D <= S && UniqueSequences(S - D)
            && (SameReads(S, S - D, m) <==> forall d :: d in D ==> !Uncovers(S, D, m, d))
  {
    var D := DroppedSet(input, v, level, m);
    InputInVersion(v, level, inputs0, inputs1);
    assert D <= Elements(input);
    forall d | d in D
      ensures Shadowed(S, m, d) || (d.key.kind.Deletion? && d.key.sn <= m)
    {
      DropsAreExplained(S, M, v, level, inputs0, inputs1, input, m, d);
    }
    hide SameReads, Uncovers;
    DropKeepsReads(S, D, m);
  }

  // ---------------------------------------------------------------- the version afterwards

  /** `v'` is `v` with the inputs taken out and `out` put into the next level. */
  ghost predicate Installed(v: Version, v': Version, level: nat, inputs0: seq<File>,
                            inputs1: seq<File>, out: seq<File>) {
    && |v| == |v'| == NUM_LEVELS && level + 1 < NUM_LEVELS
    && (forall l :: 0 <= l < NUM_LEVELS && l != level && l != level + 1 ==> v'[l] == v[l])
    && (forall f :: f in v'[level] <==> f in v[level] && f !in inputs0)
    && (forall f :: f in v'[level + 1] <==> (f in v[level + 1] && f !in inputs1) || f in out)
    && Ordered(v'[level]) && Ordered(v'[level + 1])
  }

  /** One file ends before the other begins. */
  ghost predicate Separated(f: File, g: File) {
    Less(f.largest, g.smallest) || Less(g.largest, f.smallest)
  }

  lemma OrderedSeparatedIsSorted(fs: seq<File>)
    requires ValidFiles(fs) && Ordered(fs)
    requires forall f, g :: f in fs && g in fs && f != g ==> Separated(f, g)
    ensures SortedLevel(fs)
  {
    forall i, j | 0 <= i < j < |fs|
      ensures Less(fs[i].largest, fs[j].smallest)
    {
      assert Before(fs[i], fs[j]);
      assert fs[i] in fs && fs[j] in fs;
      EntryInRange(fs[i], fs[i].entries[0]);
      EntryInRange(fs[j], fs[j].entries[0]);
      assert Separated(fs[i], fs[j]);
    }
  }

  lemma SortedIsSeparated(fs: seq<File>, f: File, g: File)
    requires SortedLevel(fs) && f in fs && g in fs && f != g
    ensures Separated(f, g)
  {
    var i :| 0 <= i < |fs| && fs[i] == f;
    var j :| 0 <= j < |fs| && fs[j] == g;
    assert i < j || j < i;
  }

  /** Where an input entry stands against a file that stays in the next level. */
  lemma InputBesideStaying(v: Version, level: nat, inputs0: seq<File>, inputs1: seq<File>,
                           g: File, e: Entry)
    requires ValidVersion(v) && level + 1 < NUM_LEVELS && ValidInputs(v, level, inputs0, inputs1)
    requires g in v[level + 1] && g !in inputs1
    requires e in LevelSet(inputs0) || e in LevelSet(inputs1)
    ensures if g.smallest.user > inputs0[0].largest.user then Less(e.key, g.smallest)
            else Less(g.largest, e.key)
  {
    var s, l :| IsRange(inputs0, s, l) && inputs1 == Overlapping(v[level + 1], Span(s.user, l.user));
    assert ValidFiles(inputs0) by {
      assert forall f :: f in inputs0 ==> f in v[level];
    }
    BesideSpan(inputs0, v[level + 1], s, l, g, e);
  }

  lemma BesideSpan(inputs0: seq<File>, files: Level, s: InternalKey, l: InternalKey, g: File, e: Entry)
    requires |inputs0| > 0 && ValidFiles(inputs0) && IsRange(inputs0, s, l)
    requires ValidFiles(files) && SortedLevel(files)
    requires g in files && !Overlaps(g, Span(s.user, l.user))
    requires e in LevelSet(inputs0) || e in LevelSet(Overlapping(files, Span(s.user, l.user)))
    ensures if g.smallest.user > inputs0[0].largest.user then Less(e.key, g.smallest)
            else Less(g.largest, e.key)
  {
    var f := inputs0[0];
    assert f in inputs0;
    EntryInRange(f, f.entries[0]);
    SpanContains(inputs0, s, l);
    EntryInRange(g, g.entries[0]);
    if e in LevelSet(inputs0) {
      var i := HoldingFile(inputs0, e);
      assert inputs0[i] in inputs0;
      EntryInRange(inputs0[i], e);
    } else {
      var inputs1 := Overlapping(files, Span(s.user, l.user));
      var i := HoldingFile(inputs1, e);
      assert inputs1[i] in inputs1;
      BesideInNextLevel(files, Span(s.user, l.user), g, inputs1[i], e);
    }
  }

  lemma BesideInNextLevel(files: Level, r: Range, g: File, h: File, e: Entry)
    requires ValidFiles(files) && SortedLevel(files) && r.lo.Some? && r.hi.Some? && r.lo.value <= r.hi.value
    requires g in files && !Overlaps(g, r) && h in files && Overlaps(h, r) && e in h.entries
    ensures g.smallest.user > r.hi.value ==> Less(e.key, g.smallest)
    ensures g.largest.user < r.lo.value ==> Less(g.largest, e.key)
  {
    EntryInRange(h, e);
    EntryInRange(g, g.entries[0]);
    EntryInRange(h, h.entries[0]);
    SortedIsSeparated(files, g, h);
  }

  lemma OutputBesideStaying(v: Version, level: nat, inputs0: seq<File>, inputs1: seq<File>,
                            g: File, o: File)
    requires ValidVersion(v) && level + 1 < NUM_LEVELS && ValidInputs(v, level, inputs0, inputs1)
    requires g in v[level + 1] && g !in inputs1
    requires ValidFile(o) && Elements(o.entries) <= LevelSet(inputs0) + LevelSet(inputs1)
    ensures Separated(g, o)
  {
    assert o.entries[0] in Elements(o.entries) && o.entries[|o.entries| - 1] in Elements(o.entries);
    InputBesideStaying(v, level, inputs0, inputs1, g, o.entries[0]);
    InputBesideStaying(v, level, inputs0, inputs1, g, o.entries[|o.entries| - 1]);
  }

  lemma RemainingIsSorted(files: Level, files': Level)
    requires ValidFiles(files) && SortedLevel(files) && Ordered(files')
    requires forall f :: f in files' ==> f in files
    ensures ValidFiles(files') && SortedLevel(files')
  {
    forall f, g | f in files' && g in files' && f != g
      ensures Separated(f, g)
    {
      SortedIsSeparated(files, f, g);
    }
    ValidByMembers(files');
    OrderedSeparatedIsSorted(files');
  }

  lemma InstalledIsValid(v: Version, v': Version, level: nat, inputs0: seq<File>,
                         inputs1: seq<File>, out: seq<File>)
    requires ValidVersion(v) && Installed(v, v', level, inputs0, inputs1, out)
    requires ValidInputs(v, level, inputs0, inputs1)
    requires ValidFiles(out) && SortedLevel(out)
    requires LevelSet(out) <= LevelSet(inputs0) + LevelSet(inputs1)
    ensures ValidVersion(v')
  {
    assert forall f :: f in v'[level] ==> f in v[level];
    ValidByMembers(v'[level]);
    if level > 0 {
      RemainingIsSorted(v[level], v'[level]);
    }
    NextLevelIsSorted(v, v'[level + 1], level, inputs0, inputs1, out);
  }

  lemma NextLevelIsSorted(v: Version, files': Level, level: nat, inputs0: seq<File>,
                          inputs1: seq<File>, out: seq<File>)
    requires ValidVersion(v) && level + 1 < NUM_LEVELS && ValidInputs(v, level, inputs0, inputs1)
    requires ValidFiles(out) && SortedLevel(out) && Ordered(files')
    requires LevelSet(out) <= LevelSet(inputs0) + LevelSet(inputs1)
    requires forall f :: f in files' <==> (f in v[level + 1] && f !in inputs1) || f in out
    ensures ValidFiles(files') && SortedLevel(files')
  {
    forall f, g | f in files' && g in files' && f != g
      ensures Separated(f, g)
    {
      NextLevelSeparated(v, level, inputs0, inputs1, out, f, g);
    }
    ValidByMembers(files');
    OrderedSeparatedIsSorted(files');
  }

  lemma NextLevelSeparated(v: Version, level: nat, inputs0: seq<File>, inputs1: seq<File>,
                           out: seq<File>, f: File, g: File)
    requires ValidVersion(v) && level + 1 < NUM_LEVELS && ValidInputs(v, level, inputs0, inputs1)
    requires ValidFiles(out) && SortedLevel(out)
    requires LevelSet(out) <= LevelSet(inputs0) + LevelSet(inputs1)
    requires (f in v[level + 1] && f !in inputs1) || f in out
    requires (g in v[level + 1] && g !in inputs1) || g in out
    requires f != g
    ensures Separated(f, g)
  {
    if f in out && g in out {
      SortedIsSeparated(out, f, g);
    } else if f in out && !(f in v[level + 1] && f !in inputs1) {
      assert Elements(f.entries) <= LevelSet(out);
      OutputBesideStaying(v, level, inputs0, inputs1, g, f);
    } else if g in out && !(g in v[level + 1] && g !in inputs1) {
      assert Elements(g.entries) <= LevelSet(out);
      OutputBesideStaying(v, level, inputs0, inputs1, f, g);
    } else {
      SortedIsSeparated(v[level + 1], f, g);
    }
  }

  /** What stays in the level is newer than what comes down from it into the outputs. */
  ghost predicate MovedIsOlder(files: seq<File>, inputs: seq<File>, out: seq<File>) {
    Newer(Contents(Others(files, inputs)), LevelSet(out) * LevelSet(inputs))
  }

  /** Entries only ever move one level down, so this is all that age depends on. */
  lemma InstalledKeepsAge(v: Version, v': Version, level: nat, inputs0: seq<File>,
                          inputs1: seq<File>, out: seq<File>)
    requires ValidVersion(v) && LevelsByAge(v) && Installed(v, v', level, inputs0, inputs1, out)
    requires ValidInputs(v, level, inputs0, inputs1)
    requires LevelSet(out) <= LevelSet(inputs0) + LevelSet(inputs1)
    ensures LevelsByAge(v') <==> MovedIsOlder(v[level], inputs0, out)
  {
    if MovedIsOlder(v[level], inputs0, out) {
      forall i, j | 0 <= i < j < |v'|
        ensures Newer(LevelSet(v'[i]), LevelSet(v'[j]))
      {
        forall a, b | a in LevelSet(v'[i]) && b in LevelSet(v'[j]) && a.key.user == b.key.user
          ensures a.key.sn > b.key.sn
        {
          hide *;
          AgeAfter(v, v', level, inputs0, inputs1, out, i, j, a, b);
        }
      }
    }
    if LevelsByAge(v') {
      AgeBefore(v, v', level, inputs0, inputs1, out);
    }
  }

  lemma AgeAfter(v: Version, v': Version, level: nat, inputs0: seq<File>, inputs1: seq<File>, out: seq<File>,
                 i: nat, j: nat, a: Entry, b: Entry)
    requires ValidVersion(v) && LevelsByAge(v) && Installed(v, v', level, inputs0, inputs1, out)
    requires ValidInputs(v, level, inputs0, inputs1)
    requires LevelSet(out) <= LevelSet(inputs0) + LevelSet(inputs1) && MovedIsOlder(v[level], inputs0, out)
    requires i < j < |v'| && a in LevelSet(v'[i]) && b in LevelSet(v'[j]) && a.key.user == b.key.user
    ensures a.key.sn > b.key.sn
  {
    hide *;
    AgeShape(v, v', level, inputs0, inputs1, out);
    var x := OriginLevel(v, v', level, inputs0, inputs1, out, i, a);
    var y := OriginLevel(v, v', level, inputs0, inputs1, out, j, b);
    if x < y {
      AgeOfLevels(v, x, y, a, b);
    } else {
      StayingOverMoved(v, v', level, inputs0, inputs1, out, a, b);
    }
  }

  lemma AgeShape(v: Version, v': Version, level: nat, inputs0: seq<File>, inputs1: seq<File>, out: seq<File>)
    requires Installed(v, v', level, inputs0, inputs1, out) && ValidInputs(v, level, inputs0, inputs1)
    ensures |v| == |v'| == NUM_LEVELS && level + 1 < NUM_LEVELS && forall f :: f in inputs0 ==> f in v[level]
  {
  }

  lemma StayingOverMoved(v: Version, v': Version, level: nat, inputs0: seq<File>, inputs1: seq<File>, out: seq<File>,
                         a: Entry, b: Entry)
    requires ValidVersion(v) && LevelsByAge(v) && Installed(v, v', level, inputs0, inputs1, out)
    requires MovedIsOlder(v[level], inputs0, out)
    requires a in LevelSet(v'[level]) && b in LevelSet(inputs0) && b in LevelSet(v'[level + 1])
    requires a.key.user == b.key.user && forall f :: f in inputs0 ==> f in v[level]
    ensures a.key.sn > b.key.sn
  {
    var i := HoldingFile(v'[level], a);
    assert v'[level][i] in v'[level] && v'[level][i] in Others(v[level], inputs0);
    var k := HoldingFile(v'[level + 1], b);
    assert v'[level + 1][k] in v'[level + 1];
    SubsetOfLevel(v[level], inputs0, b);
    NotInNextLevel(v, level, b);
    assert v'[level + 1][k] in out;
    assert b in LevelSet(out);
  }

  lemma NotInNextLevel(v: Version, level: nat, b: Entry)
    requires LevelsByAge(v) && level + 1 < |v| && b in LevelSet(v[level])
    ensures b !in LevelSet(v[level + 1])
  {
    assert Newer(LevelSet(v[level]), LevelSet(v[level + 1]));
  }

  lemma AgeBefore(v: Version, v': Version, level: nat, inputs0: seq<File>, inputs1: seq<File>, out: seq<File>)
    requires Installed(v, v', level, inputs0, inputs1, out) && LevelsByAge(v')
    ensures MovedIsOlder(v[level], inputs0, out)
  {
    forall a, b | a in Contents(Others(v[level], inputs0)) && b in LevelSet(out) && a.key.user == b.key.user
      ensures a.key.sn > b.key.sn
    {
      var g :| g in Others(v[level], inputs0) && a in g.entries;
      EntryOfFile(v'[level], g, a);
      var k := HoldingFile(out, b);
      assert out[k] in out;
      EntryOfFile(v'[level + 1], out[k], b);
      AgeOfLevels(v', level, level + 1, a, b);
    }
  }

  lemma OriginLevel(v: Version, v': Version, level: nat, inputs0: seq<File>,
                    inputs1: seq<File>, out: seq<File>, i: nat, a: Entry) returns (x: nat)
    requires ValidVersion(v) && Installed(v, v', level, inputs0, inputs1, out)
    requires ValidInputs(v, level, inputs0, inputs1)
    requires LevelSet(out) <= LevelSet(inputs0) + LevelSet(inputs1)
    requires i < NUM_LEVELS && a in LevelSet(v'[i])
    ensures x < NUM_LEVELS && a in LevelSet(v[x])
    ensures x == i || (i == level + 1 && x == level && a in LevelSet(inputs0))
  {
    InputInVersion(v, level, inputs0, inputs1);
    var k := HoldingFile(v'[i], a);
    var f := v'[i][k];
    assert f in v'[i];
    if i == level + 1 && !(f in v[i] && f !in inputs1) {
      assert f in out && a in LevelSet(out);
      x := if a in LevelSet(inputs0) then level else level + 1;
    } else {
      assert f in v[i];
      x := i;
    }
  }

  /** An entry is in one file of the version only. */
  lemma OneFilePerEntry(v: Version, k: nat, f: File, l: nat, g: File, e: Entry)
    requires ValidVersion(v) && LevelsByAge(v) && k < NUM_LEVELS && l < NUM_LEVELS
    requires f in v[k] && g in v[l] && e in f.entries && e in g.entries
    ensures k == l && f == g
  {
    EntryOfFile(v[k], f, e);
    EntryOfFile(v[l], g, e);
    assert e in Elements(f.entries) && e in Elements(g.entries);
    if k < l {
      AgeOfLevels(v, k, l, e, e);
    } else if l < k {
      AgeOfLevels(v, l, k, e, e);
    } else if f != g && k > 0 {
      MembersAreValid(v[k], f);
      MembersAreValid(v[k], g);
      EntryInRange(f, e);
      EntryInRange(g, e);
      SortedIsSeparated(v[k], f, g);
    }
  }

  /** The version loses the inputs' entries and gains those of the outputs, nothing else. */
  lemma InstalledContents(v: Version, v': Version, level: nat, inputs0: seq<File>,
                          inputs1: seq<File>, out: seq<File>)
    requires ValidVersion(v) && LevelsByAge(v) && Installed(v, v', level, inputs0, inputs1, out)
    requires ValidInputs(v, level, inputs0, inputs1)
    requires LevelSet(out) <= LevelSet(inputs0) + LevelSet(inputs1)
    ensures VersionSet(v') == VersionSet(v) - LevelSet(inputs0) - LevelSet(inputs1) + LevelSet(out)
  {
    forall e | e in VersionSet(v')
      ensures e in LevelSet(out) || (e in VersionSet(v) && e !in LevelSet(inputs0) && e !in LevelSet(inputs1))
    {
      InstalledEntryBack(v, v', level, inputs0, inputs1, out, e);
    }
    forall e | e in LevelSet(out) || (e in VersionSet(v) && e !in LevelSet(inputs0) && e !in LevelSet(inputs1))
      ensures e in VersionSet(v')
    {
      InstalledEntryForth(v, v', level, inputs0, inputs1, out, e);
    }
  }

  lemma InstalledEntryBack(v: Version, v': Version, level: nat, inputs0: seq<File>,
                           inputs1: seq<File>, out: seq<File>, e: Entry)
    requires ValidVersion(v) && LevelsByAge(v) && Installed(v, v', level, inputs0, inputs1, out)
    requires ValidInputs(v, level, inputs0, inputs1) && e in VersionSet(v')
    ensures e in LevelSet(out) || (e in VersionSet(v) && e !in LevelSet(inputs0) && e !in LevelSet(inputs1))
  {
    var l, f := LevelOfEntry(v', e);
    if l == level + 1 && f in out {
      assert e in LevelSet(out);
    } else {
      assert f in v[l] && e in LevelSet(v[l]) && v[l] in v;
      hide ValidVersion, LevelsByAge, LevelSet, VersionSet;
      NotInInputs(v, level, inputs0, l, f, e);
      NotInInputs(v, level + 1, inputs1, l, f, e);
    }
  }

  lemma NotInInputs(v: Version, k: nat, inputs: seq<File>, l: nat, f: File, e: Entry)
    requires ValidVersion(v) && LevelsByAge(v) && k < NUM_LEVELS && l < NUM_LEVELS
    requires forall g :: g in inputs ==> g in v[k]
    requires f in v[l] && e in f.entries && (l == k ==> f !in inputs)
    ensures e !in LevelSet(inputs)
  {
    forall g | g in inputs && e in g.entries
      ensures false
    {
      OneFilePerEntry(v, l, f, k, g, e);
    }
  }

  lemma InstalledEntryForth(v: Version, v': Version, level: nat, inputs0: seq<File>,
                            inputs1: seq<File>, out: seq<File>, e: Entry)
    requires |v| == NUM_LEVELS && Installed(v, v', level, inputs0, inputs1, out)
    requires e in LevelSet(out) || (e in VersionSet(v) && e !in LevelSet(inputs0) && e !in LevelSet(inputs1))
    ensures e in VersionSet(v')
  {
    var l: nat;
    var f: File;
    if e in LevelSet(out) {
      var i := HoldingFile(out, e);
      l, f := level + 1, out[i];
      assert f in out;
    } else {
      l, f := LevelOfEntry(v, e);
      assert l == level ==> f !in inputs0;
      assert l == level + 1 ==> f !in inputs1;
    }
    assert f in v'[l] && v'[l] in v';
    assert e in LevelSet(v'[l]);
  }

  // ---------------------------------------------------------------- when nothing older stays behind

  /** A level-zero input set closed under overlap shares no user key with the files that stay. */
  lemma ClosedLeavesNoOlder(files: seq<File>, reach: Range)
    requires ValidFiles(files) && Closed(files, reach)
    ensures LeavesNoOlder(files, Overlapping(files, reach))
  {
    var inputs := Overlapping(files, reach);
    forall a, b | a in Contents(Others(files, inputs)) && b in LevelSet(inputs)
      ensures a.key.user != b.key.user
    {
      var g :| g in Others(files, inputs) && a in g.entries;
      var i := HoldingFile(inputs, b);
      var f := inputs[i];
      assert f in inputs && f in files && Inside(f, reach);
      MembersAreValid(files, f);
      MembersAreValid(files, g);
      EntryInRange(f, b);
      EntryInRange(g, a);
    }
  }

  lemma LevelUsersIncrease(files: Level, i: nat, j: nat)
    requires ValidFiles(files) && SortedLevel(files) && i <= j < |files|
    ensures files[i].largest.user <= files[j].largest.user
    ensures files[i].smallest.user <= files[j].smallest.user
  {
    EntryInRange(files[i], files[i].entries[0]);
    EntryInRange(files[j], files[j].entries[0]);
    if i < j {
      assert Less(files[i].largest, files[j].smallest);
    }
  }
}
