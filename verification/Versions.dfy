/**
One version of the store: seven levels of sorted table files, and the lookup that walks
them from the newest level down (util/leveldb/db/version_set.cc).
 */
module Versions {
  import opened Keys
  import opened History

  const NUM_LEVELS: nat := 7
  const MAX_MEM_COMPACT_LEVEL: nat := 2
  const TARGET_FILE_SIZE: nat := 2 * 1048576
  const MAX_GRANDPARENT_OVERLAP_BYTES: nat := 10 * TARGET_FILE_SIZE

  /** The metadata of a table file together with the entries the table holds. */
  datatype File = File(number: nat, size: nat, smallest: InternalKey, largest: InternalKey,
                       entries: seq<Entry>)

  type Level = seq<File>
  type Version = seq<Level>

  ghost predicate ValidFile(f: File) {
    && |f.entries| > 0
    && Sorted(f.entries)
    && f.smallest == f.entries[0].key
    && f.largest == f.entries[|f.entries| - 1].key
  }

  ghost predicate ValidFiles(fs: seq<File>) {
    forall i :: 0 <= i < |fs| ==> ValidFile(fs[i])
  }

  lemma MembersAreValid(fs: seq<File>, f: File)
    requires ValidFiles(fs) && f in fs
    ensures ValidFile(f)
  {
  }

  lemma ValidByMembers(fs: seq<File>)
    requires forall f :: f in fs ==> ValidFile(f)
    ensures ValidFiles(fs)
  {
    forall i | 0 <= i < |fs|
      ensures ValidFile(fs[i])
    {
      assert fs[i] in fs;
    }
  }

  /** Files of a level above zero follow each other without overlap. */
  ghost predicate SortedLevel(fs: Level) {
    forall i, j :: 0 <= i < j < |fs| ==> Less(fs[i].largest, fs[j].smallest)
  }

  ghost function LevelSet(fs: seq<File>): set<Entry> {
    set f, e | f in fs && e in f.entries :: e
  }

  ghost function VersionSet(v: Version): set<Entry> {
    set fs, e | fs in v && e in LevelSet(fs) :: e
  }

  /** Two level-zero files are told apart by number, and the larger number is newer. */
  ghost predicate NumberedByAge(fs: Level) {
    forall f, g :: f in fs && g in fs && f != g ==>
      && f.number != g.number
      && (f.number > g.number ==> Newer(Elements(f.entries), Elements(g.entries)))
  }

  /** BySmallestKey: smallest key first, ties broken by file number. */
  predicate Before(f: File, g: File) {
    Less(f.smallest, g.smallest) || (f.smallest == g.smallest && f.number < g.number)
  }

  predicate Equivalent(f: File, g: File) {
    f.smallest == g.smallest && f.number == g.number
  }

  ghost predicate Ordered(fs: seq<File>) {
    forall i, j :: 0 <= i < j < |fs| ==> Before(fs[i], fs[j])
  }

  ghost predicate ValidVersion(v: Version) {
    && |v| == NUM_LEVELS
    && (forall l :: 0 <= l < NUM_LEVELS ==> ValidFiles(v[l]))
    && (forall l :: 1 <= l < NUM_LEVELS ==> SortedLevel(v[l]))
    && NumberedByAge(v[0]) && Ordered(v[0])
  }

  /** For one user key, everything in an earlier level is newer. */
  ghost predicate LevelsByAge(v: Version) {
    forall i, j :: 0 <= i < j < |v| ==> Newer(LevelSet(v[i]), LevelSet(v[j]))
  }

  lemma EntryInRange(f: File, e: Entry)
    requires ValidFile(f) && e in f.entries
    ensures e.key == f.smallest || Less(f.smallest, e.key)
    ensures e.key == f.largest || Less(e.key, f.largest)
    ensures f.smallest.user <= e.key.user <= f.largest.user
  {
  }

  // ---------------------------------------------------------------- searching one table

  /** Seeking a sorted table at the lookup key and keeping a hit on the same user key. */
  function TableGet(es: seq<Entry>, u: UserKey, s: Sequence): (r: Option<Entry>) {
    var i := SeekIndex(es, LookupKey(u, s));
    if i < |es| && es[i].key.user == u then Some(es[i]) else None
  }

  lemma TableGetFindsNewest(es: seq<Entry>, u: UserKey, s: Sequence)
    requires Sorted(es) && UniqueSequences(Elements(es))
    ensures FoundIn(Elements(es), u, s, TableGet(es, u, s))
  {
    var i := SeekIndex(es, LookupKey(u, s));
    forall e | e in Elements(es) && Visible(e, u, s)
      ensures i < |es| && es[i].key.user == u
      ensures e != es[i] ==> e.key.sn < es[i].key.sn
    {
      var j :| 0 <= j < |es| && es[j] == e;
      assert !Less(e.key, LookupKey(u, s));
      assert i <= j;
      if i < j {
        assert Less(es[i].key, es[j].key);
        assert es[i].key.user == u;
        assert es[i].key.sn <= s;
        assert es[i] in Elements(es);
      }
    }
  }

  // ---------------------------------------------------------------- searching a level

  /** Binary search for the first file whose largest key is at or after `key`. */
  method FindFile(files: Level, key: InternalKey) returns (right: nat)
    requires ValidFiles(files) && SortedLevel(files)
    ensures right <= |files|
    ensures forall i :: 0 <= i < right ==> Less(files[i].largest, key)
    ensures forall i :: right <= i < |files| ==> !Less(files[i].largest, key)
  {
    var left := 0;
    right := |files|;
    while left < right
      invariant 0 <= left <= right <= |files|
      invariant forall i :: 0 <= i < left ==> Less(files[i].largest, key)
      invariant forall i :: right <= i < |files| ==> !Less(files[i].largest, key)
    {
      var mid := (left + right) / 2;
      var f := files[mid];
      LargestIncreases(files);
      CompareIsLess(f.largest, key);
      if Compare(f.largest, key) < 0 {
        left := mid + 1;
      } else {
        right := mid;
      }
    }
  }

  lemma LargestIncreases(files: Level)
    requires ValidFiles(files) && SortedLevel(files)
    ensures forall i, j :: 0 <= i < j < |files| ==> Less(files[i].largest, files[j].largest)
  {
    forall i, j | 0 <= i < j < |files|
      ensures Less(files[i].largest, files[j].largest)
    {
      EntryInRange(files[j], files[j].entries[0]);
    }
  }

  lemma FileInLevel(files: seq<File>, i: nat)
    requires i < |files|
    ensures Elements(files[i].entries) <= LevelSet(files)
  {
  }

  lemma HoldingFile(files: seq<File>, e: Entry) returns (j: nat)
    requires e in LevelSet(files)
    ensures j < |files| && e in Elements(files[j].entries)
  {
    var f :| f in files && e in f.entries;
    j :| 0 <= j < |files| && files[j] == f;
  }

  /** Past the file that may hold the lookup key, visible entries are all older than its last. */
  lemma LaterFileIsOlder(files: Level, u: UserKey, s: Sequence, i: nat, j: nat, e: Entry)
    requires ValidFiles(files) && SortedLevel(files)
    requires i < j < |files| && e in files[j].entries && Visible(e, u, s)
    requires !Less(files[i].largest, LookupKey(u, s))
    ensures var last := files[i].entries[|files[i].entries| - 1];
            Visible(last, u, s) && last.key.sn >= e.key.sn && files[i].smallest.user <= u
  {
    EntryInRange(files[j], e);
    EntryInRange(files[i], files[i].entries[0]);
    assert Less(files[i].largest, files[j].smallest);
  }

  /** The only file of a sorted level that can answer, chosen as Version::Get chooses it. */
  method LevelGet(files: Level, u: UserKey, s: Sequence) returns (r: Option<Entry>)
    requires ValidFiles(files) && SortedLevel(files) && UniqueSequences(LevelSet(files))
    ensures FoundIn(LevelSet(files), u, s, r)
  {
    var ikey := LookupKey(u, s);
    var index := FindFile(files, ikey);
    r := None;
    if index < |files| && u >= files[index].smallest.user {
      r := TableGet(files[index].entries, u, s);
    }
    LevelGetIsNewest(files, u, s, index, r);
  }

  lemma LevelGetIsNewest(files: Level, u: UserKey, s: Sequence, index: nat, r: Option<Entry>)
    requires ValidFiles(files) && SortedLevel(files) && UniqueSequences(LevelSet(files))
    requires index <= |files|
    requires forall i :: 0 <= i < index ==> Less(files[i].largest, LookupKey(u, s))
    requires forall i :: index <= i < |files| ==> !Less(files[i].largest, LookupKey(u, s))
    requires r == if index < |files| && u >= files[index].smallest.user
                  then TableGet(files[index].entries, u, s) else None
    ensures FoundIn(LevelSet(files), u, s, r)
  {
    if index < |files| {
      FileInLevel(files, index);
      TableGetFindsNewest(files[index].entries, u, s);
    }
    forall e | e in LevelSet(files) && Visible(e, u, s)
      ensures r.Some? && (e != r.value ==> e.key.sn < r.value.key.sn)
    {
      LevelGetBeats(files, u, s, index, r, e);
    }
  }

  lemma LevelGetBeats(files: Level, u: UserKey, s: Sequence, index: nat, r: Option<Entry>, e: Entry)
    requires ValidFiles(files) && SortedLevel(files) && index <= |files|
    requires forall i :: 0 <= i < index ==> Less(files[i].largest, LookupKey(u, s))
    requires forall i :: index <= i < |files| ==> !Less(files[i].largest, LookupKey(u, s))
    requires index < |files| && u >= files[index].smallest.user ==> FoundIn(Elements(files[index].entries), u, s, r)
    requires e in LevelSet(files) && Visible(e, u, s) && UniqueSequences(LevelSet(files))
    ensures r.Some? && (e != r.value ==> e.key.sn < r.value.key.sn)
  {
    var j := HoldingFile(files, e);
    EntryInRange(files[j], e);
    assert index <= j;
    if index < j {
      LaterFileIsOlder(files, u, s, index, j, e);
      var last := files[index].entries[|files[index].entries| - 1];
      assert last in Elements(files[index].entries);
      assert r.Some? && last.key.sn <= r.value.key.sn;
      FileInLevel(files, index);
      assert last in LevelSet(files);
    }
  }

  // ---------------------------------------------------------------- searching a version

  function InsertByNumber(fs: seq<File>, f: File): (r: seq<File>)
    ensures forall g :: g in r <==> g in fs || g == f
  {
    if fs == [] || f.number > fs[0].number then [f] + fs
    else [fs[0]] + InsertByNumber(fs[1..], f)
  }

  ghost predicate NewestFirst(fs: seq<File>) {
    forall i, j :: 0 <= i < j < |fs| ==> fs[i].number >= fs[j].number
  }

  lemma InsertKeepsOrder(fs: seq<File>, f: File)
    requires NewestFirst(fs)
    ensures NewestFirst(InsertByNumber(fs, f))
  {
    if fs != [] && f.number <= fs[0].number {
      InsertKeepsOrder(fs[1..], f);
      assert forall g :: g in InsertByNumber(fs[1..], f) ==> g.number <= fs[0].number;
    }
  }

  /** The level-zero files whose user-key range holds `u`, newest first. */
  method LevelZeroCandidates(files: Level, u: UserKey) returns (tmp: seq<File>)
    ensures NewestFirst(tmp)
    ensures forall f :: f in tmp <==> f in files && f.smallest.user <= u <= f.largest.user
  {
    tmp := [];
    for i := 0 to |files|
      invariant NewestFirst(tmp)
      invariant forall f :: f in tmp <==> f in files[..i] && f.smallest.user <= u <= f.largest.user
    {
      var f := files[i];
      if f.smallest.user <= u <= f.largest.user {
        InsertKeepsOrder(tmp, f);
        tmp := InsertByNumber(tmp, f);
      }
    }
    assert files[..|files|] == files;
  }

  method LevelZeroGet(files: Level, u: UserKey, s: Sequence) returns (r: Option<Entry>)
    requires ValidFiles(files) && NumberedByAge(files) && UniqueSequences(LevelSet(files))
    ensures FoundIn(LevelSet(files), u, s, r)
  {
    var tmp := LevelZeroCandidates(files, u);
    r := None;
    var i := 0;
    while i < |tmp|
      invariant 0 <= i <= |tmp| && r == None
      invariant forall j :: 0 <= j < i ==> NoneVisible(Elements(tmp[j].entries), u, s)
    {
      assert tmp[i] in files;
      assert Elements(tmp[i].entries) <= LevelSet(files);
      TableGetFindsNewest(tmp[i].entries, u, s);
      r := TableGet(tmp[i].entries, u, s);
      if r.Some? {
        NewestCandidateWins(files, tmp, i, u, s, r.value);
        return;
      }
      i := i + 1;
    }
    forall e | e in LevelSet(files)
      ensures !Visible(e, u, s)
    {
      if Visible(e, u, s) {
        var j := HoldingCandidate(files, tmp, u, e);
        assert false;
      }
    }
  }

  lemma HoldingCandidate(files: Level, tmp: seq<File>, u: UserKey, e: Entry) returns (j: nat)
    requires ValidFiles(files) && e in LevelSet(files) && e.key.user == u
    requires forall f :: f in tmp <==> f in files && f.smallest.user <= u <= f.largest.user
    ensures j < |tmp| && e in Elements(tmp[j].entries)
  {
    var i := HoldingFile(files, e);
    EntryInRange(files[i], e);
    j :| 0 <= j < |tmp| && tmp[j] == files[i];
  }

  lemma NewestCandidateWins(files: Level, tmp: seq<File>, i: nat, u: UserKey, s: Sequence, hit: Entry)
    requires ValidFiles(files) && NumberedByAge(files)
    requires NewestFirst(tmp) && i < |tmp|
    requires forall f :: f in tmp <==> f in files && f.smallest.user <= u <= f.largest.user
    requires forall j :: 0 <= j < i ==> NoneVisible(Elements(tmp[j].entries), u, s)
    requires IsNewest(Elements(tmp[i].entries), u, s, hit)
    ensures IsNewest(LevelSet(files), u, s, hit)
  {
    assert tmp[i] in files;
    forall e | e in LevelSet(files) && Visible(e, u, s) && e != hit
      ensures e.key.sn < hit.key.sn
    {
      var j := HoldingCandidate(files, tmp, u, e);
      OlderCandidate(files, tmp[i], tmp[j], hit, e);
    }
  }

  lemma OlderCandidate(files: Level, f: File, g: File, hit: Entry, e: Entry)
    requires NumberedByAge(files) && f in files && g in files && f.number >= g.number
    requires hit in f.entries && e in g.entries && hit.key.user == e.key.user
    ensures f != g ==> e.key.sn < hit.key.sn
  {
    if f != g {
      assert f.number != g.number;
      assert Newer(Elements(f.entries), Elements(g.entries));
      assert hit in Elements(f.entries) && e in Elements(g.entries);
    }
  }

  lemma LevelFacts(v: Version, l: nat)
    requires ValidVersion(v) && UniqueSequences(VersionSet(v)) && l < NUM_LEVELS
    ensures |v| == NUM_LEVELS && ValidFiles(v[l]) && UniqueSequences(LevelSet(v[l]))
    ensures if l == 0 then NumberedByAge(v[0]) else SortedLevel(v[l])
  {
    assert v[l] in v;
    assert LevelSet(v[l]) <= VersionSet(v);
  }

  /** Layer by layer, the newest entry of the first layer that has one. */
  ghost predicate LayerHit(layers: seq<set<Entry>>, u: UserKey, s: Sequence, r: Option<Entry>) {
    match r
    case None => forall k :: 0 <= k < |layers| ==> NoneVisible(layers[k], u, s)
    case Some(e) => exists k: nat :: HitsAt(layers, u, s, e, k)
  }

  ghost predicate HitsAt(layers: seq<set<Entry>>, u: UserKey, s: Sequence, e: Entry, k: nat) {
    k < |layers| && IsNewest(layers[k], u, s, e) && forall j :: 0 <= j < k ==> NoneVisible(layers[j], u, s)
  }

  ghost function LevelSets(v: Version): seq<set<Entry>> {
    seq(|v|, l requires 0 <= l < |v| => LevelSet(v[l]))
  }

  /** Level by level, stopping at the first hit, whatever the order of the levels by age. */
  method VersionGet(v: Version, u: UserKey, s: Sequence) returns (r: Option<Entry>)
    requires ValidVersion(v) && UniqueSequences(VersionSet(v))
    ensures LayerHit(LevelSets(v), u, s, r)
    ensures LevelsByAge(v) ==> FoundIn(VersionSet(v), u, s, r)
  {
    assert NUM_LEVELS == 7;
    hide *;
    var level := 0;
    LevelFacts(v, 0);
    while level < NUM_LEVELS
      invariant 0 <= level <= NUM_LEVELS
      invariant forall l :: 0 <= l < level ==> NoneVisible(LevelSet(v[l]), u, s)
    {
      LevelFacts(v, level);
      if level == 0 {
        r := LevelZeroGet(v[0], u, s);
      } else {
        r := LevelGet(v[level], u, s);
      }
      HitOrMiss(v[level], u, s, r);
      if r.Some? {
        HitInLevel(v, level, u, s, r.value);
        if LevelsByAge(v) {
          FirstHitWins(v, level, u, s, r.value);
        }
        return;
      }
      level := level + 1;
    }
    r := None;
    NoHitInLevels(v, u, s);
    NoHitAnywhere(v, u, s);
  }

  lemma HitInLevel(v: Version, level: nat, u: UserKey, s: Sequence, hit: Entry)
    requires level < |v| && forall l :: 0 <= l < level ==> NoneVisible(LevelSet(v[l]), u, s)
    requires IsNewest(LevelSet(v[level]), u, s, hit)
    ensures LayerHit(LevelSets(v), u, s, Some(hit))
  {
    assert HitsAt(LevelSets(v), u, s, hit, level);
  }

  lemma NoHitInLevels(v: Version, u: UserKey, s: Sequence)
    requires forall l :: 0 <= l < |v| ==> NoneVisible(LevelSet(v[l]), u, s)
    ensures LayerHit(LevelSets(v), u, s, None)
  {
  }

  lemma HitOrMiss(fs: Level, u: UserKey, s: Sequence, r: Option<Entry>)
    requires FoundIn(LevelSet(fs), u, s, r)
    ensures r.Some? ==> IsNewest(LevelSet(fs), u, s, r.value)
    ensures r.None? ==> NoneVisible(LevelSet(fs), u, s)
  {
  }

  lemma NoHitAnywhere(v: Version, u: UserKey, s: Sequence)
    requires forall l :: 0 <= l < |v| ==> NoneVisible(LevelSet(v[l]), u, s)
    ensures FoundIn(VersionSet(v), u, s, None)
  {
    forall e | e in VersionSet(v)
      ensures !Visible(e, u, s)
    {
      var fs :| fs in v && e in LevelSet(fs);
      var l :| 0 <= l < |v| && v[l] == fs;
      assert NoneVisible(LevelSet(v[l]), u, s);
    }
  }

  lemma FirstHitWins(v: Version, level: nat, u: UserKey, s: Sequence, hit: Entry)
    requires LevelsByAge(v) && level < |v|
    requires forall l :: 0 <= l < level ==> NoneVisible(LevelSet(v[l]), u, s)
    requires IsNewest(LevelSet(v[level]), u, s, hit)
    ensures FoundIn(VersionSet(v), u, s, Some(hit))
  {
    assert v[level] in v;
    forall e | e in VersionSet(v) && Visible(e, u, s) && e != hit
      ensures e.key.sn < hit.key.sn
    {
      var fs :| fs in v && e in LevelSet(fs);
      var l :| 0 <= l < |v| && v[l] == fs;
    }
  }
}
