/**
Which files a flush or a compaction touches: overlap tests, the level a memtable is flushed
to, and the selection of compaction inputs (util/leveldb/db/version_set.cc).
 */
module Inputs {
  import opened Keys
  import opened Versions

  const EXPANDED_COMPACTION_BYTE_LIMIT: nat := 25 * TARGET_FILE_SIZE

  /** A user-key range; a missing end is unbounded. */
  datatype Range = Range(lo: Option<UserKey>, hi: Option<UserKey>)

  predicate AfterFile(user: Option<UserKey>, f: File) {
    user.Some? && user.value > f.largest.user
  }

  predicate BeforeFile(user: Option<UserKey>, f: File) {
    user.Some? && user.value < f.smallest.user
  }

  predicate Overlaps(f: File, r: Range) {
    !AfterFile(r.lo, f) && !BeforeFile(r.hi, f)
  }

  predicate Inside(f: File, r: Range) {
    && (r.lo.Some? ==> r.lo.value <= f.smallest.user)
    && (r.hi.Some? ==> f.largest.user <= r.hi.value)
  }

  predicate Covers(outer: Range, inner: Range) {
    && (outer.lo.Some? ==> inner.lo.Some? && outer.lo.value <= inner.lo.value)
    && (outer.hi.Some? ==> inner.hi.Some? && inner.hi.value <= outer.hi.value)
  }

  ghost predicate SomeOverlap(files: seq<File>, r: Range) {
    exists f :: f in files && Overlaps(f, r)
  }

  // ---------------------------------------------------------------- overlap tests

  method SomeFileOverlapsRange(disjointSorted: bool, files: seq<File>, r: Range)
    returns (overlap: bool)
    requires ValidFiles(files)
    requires disjointSorted ==> SortedLevel(files)
    ensures overlap <==> SomeOverlap(files, r)
  {
    if !disjointSorted {
      for i := 0 to |files|
        invariant forall j :: 0 <= j < i ==> !Overlaps(files[j], r)
      {
        if AfterFile(r.lo, files[i]) || BeforeFile(r.hi, files[i]) {
        } else {
          assert files[i] in files;
          return true;
        }
      }
      return false;
    }
    var index := 0;
    if r.lo.Some? {
      var small := InternalKey(r.lo.value, MAX_SEQUENCE, Value);
      index := FindFile(files, small);
    }
    BoundaryFileDecides(files, r, index);
    if index >= |files| {
      return false;
    }
    return !BeforeFile(r.hi, files[index]);
  }

  /** In a sorted level the first file not wholly before the range decides the test. */
  lemma BoundaryFileDecides(files: Level, r: Range, index: nat)
    requires ValidFiles(files) && SortedLevel(files) && index <= |files|
    requires r.lo.None? ==> index == 0
    requires r.lo.Some? ==>
      var small := InternalKey(r.lo.value, MAX_SEQUENCE, Value);
      && (forall i :: 0 <= i < index ==> Less(files[i].largest, small))
      && (forall i :: index <= i < |files| ==> !Less(files[i].largest, small))
    ensures SomeOverlap(files, r) <==> index < |files| && !BeforeFile(r.hi, files[index])
  {
    forall f | f in files && Overlaps(f, r)
      ensures index < |files| && !BeforeFile(r.hi, files[index])
    {
      var j :| 0 <= j < |files| && files[j] == f;
      assert index <= j;
      if index < j {
        EntryInRange(files[index], files[index].entries[0]);
        assert Less(files[index].largest, files[j].smallest);
      }
    }
    if index < |files| && !BeforeFile(r.hi, files[index]) {
      assert Overlaps(files[index], r) && files[index] in files;
    }
  }

  // ---------------------------------------------------------------- overlapping inputs

  /** The files of `files` that meet `r`, in order. */
  function Overlapping(files: seq<File>, r: Range): (fs: seq<File>)
    ensures forall f :: f in fs <==> f in files && Overlaps(f, r)
  {
    if files == [] then []
    else
      var last := files[|files| - 1];
      Overlapping(files[..|files| - 1], r) + if Overlaps(last, r) then [last] else []
  }

  /** No file straddles an end of `r`: one that meets it lies inside it. */
  ghost predicate Closed(files: seq<File>, r: Range) {
    forall f :: f in files && Overlaps(f, r) ==> Inside(f, r)
  }

  /** How many files reach beyond the two ends of `r`. */
  function Outside(files: seq<File>, r: Range): (n: nat) {
    if files == [] then 0
    else
      (if r.lo.Some? && files[0].smallest.user < r.lo.value then 1 else 0)
      + (if r.hi.Some? && files[0].largest.user > r.hi.value then 1 else 0)
      + Outside(files[1..], r)
  }

  lemma OutsideShrinks(files: seq<File>, r: Range, r': Range, f: File)
    requires Widened(r, r', f)
    ensures Outside(files, r') <= Outside(files, r)
    ensures f in files ==> Outside(files, r') < Outside(files, r)
  {
    if files != [] {
      OutsideShrinks(files[1..], r, r', f);
    }
  }

  /** One end of `r` moved out to the end of `f` that sticks out of it. */
  predicate Widened(r: Range, r': Range, f: File) {
    || (r.lo.Some? && f.smallest.user < r.lo.value && r' == r.(lo := Some(f.smallest.user)))
    || (r.hi.Some? && f.largest.user > r.hi.value && r' == r.(hi := Some(f.largest.user)))
  }

  /** Every closed range around `r` also covers `reach`. */
  ghost predicate Least(files: seq<File>, r: Range, reach: Range) {
    forall c :: Covers(c, r) && Closed(files, c) ==> Covers(c, reach)
  }

  /** The least range around `r` that no file straddles. */
  ghost predicate IsClosure(files: seq<File>, r: Range, reach: Range) {
    Covers(reach, r) && Closed(files, reach) && Least(files, r, reach)
  }

  lemma WideningIsForced(files: seq<File>, r: Range, user: Range, user': Range, f: File)
    requires Least(files, r, user) && Covers(user, r)
    requires f in files && Overlaps(f, user) && Widened(user, user', f)
    ensures Least(files, r, user') && Covers(user', r)
  {
    forall c | Covers(c, r) && Closed(files, c)
      ensures Covers(c, user')
    {
      assert Overlaps(f, c) by {
        assert Covers(c, user);
      }
      assert Inside(f, c);
    }
  }

  /** The scan has taken exactly the first `i` files that meet `user`. */
  ghost predicate Scanned(files: seq<File>, i: nat, r: Range, user: Range, levelZero: bool, inputs: seq<File>)
    requires i <= |files|
  {
    && inputs == Overlapping(files[..i], user)
    && (if levelZero then Covers(user, r) && Closed(files[..i], user) && Least(files, r, user)
        else user == r)
  }

  lemma ScanStarts(files: seq<File>, r: Range, levelZero: bool)
    ensures Scanned(files, 0, r, r, levelZero, [])
  {
  }

  lemma ScanAdvances(files: seq<File>, i: nat, r: Range, user: Range, levelZero: bool, inputs: seq<File>)
    requires i < |files| && Scanned(files, i, r, user, levelZero, inputs)
    requires levelZero && Overlaps(files[i], user) ==> Inside(files[i], user)
    ensures Scanned(files, i + 1, r, user, levelZero, inputs + if Overlaps(files[i], user) then [files[i]] else [])
  {
    assert files[..i + 1] == files[..i] + [files[i]];
  }

  lemma ScanRestarts(files: seq<File>, i: nat, r: Range, user: Range, user': Range, inputs: seq<File>)
    requires i < |files| && Scanned(files, i, r, user, true, inputs)
    requires Overlaps(files[i], user) && Widened(user, user', files[i])
    ensures Scanned(files, 0, r, user', true, [])
    ensures Outside(files, user') < Outside(files, user)
  {
    WideningIsForced(files, r, user, user', files[i]);
    OutsideShrinks(files, user, user', files[i]);
  }

  lemma ScanEnds(files: seq<File>, r: Range, user: Range, levelZero: bool, inputs: seq<File>)
    requires Scanned(files, |files|, r, user, levelZero, inputs)
    ensures inputs == Overlapping(files, user)
    ensures !levelZero ==> user == r
    ensures levelZero ==> Covers(user, r) && Closed(files, user) && Least(files, r, user)
  {
    assert files[..|files|] == files;
  }

  /**
  Version::GetOverlappingInputs.  At level zero a file that reaches beyond the range widens it
  and restarts the scan.
   */
  method GetOverlappingInputs(levelZero: bool, files: seq<File>, r: Range) returns (inputs: seq<File>)
    ensures !levelZero ==> inputs == Overlapping(files, r)
    ensures levelZero ==> exists reach :: IsClosure(files, r, reach) && inputs == Overlapping(files, reach)
  {
    hide Scanned, Overlapping, Closed, Least, Outside, Covers;
    var user := r;
    inputs := [];
    var i := 0;
    ScanStarts(files, r, levelZero);
    while i < |files|
      invariant 0 <= i <= |files|
      invariant Scanned(files, i, r, user, levelZero, inputs)
      decreases Outside(files, user), |files| - i
    {
      var f := files[i];
      ghost var before, taken, at := user, inputs, i;
      i := i + 1;
      if AfterFile(user.lo, f) {
      } else if BeforeFile(user.hi, f) {
      } else {
        inputs := inputs + [f];
        if levelZero {
          if user.lo.Some? && f.smallest.user < user.lo.value {
            user := user.(lo := Some(f.smallest.user));
            inputs := [];
            i := 0;
          } else if user.hi.Some? && f.largest.user > user.hi.value {
            user := user.(hi := Some(f.largest.user));
            inputs := [];
            i := 0;
          }
        }
      }
      if user != before {
        ScanRestarts(files, at, r, before, user, taken);
      } else {
        ScanAdvances(files, at, r, user, levelZero, taken);
        assert taken + [] == taken;
      }
    }
    ScanEnds(files, r, user, levelZero, inputs);
    assert levelZero ==> IsClosure(files, r, user);
  }

  function TotalFileSize(files: seq<File>): (n: nat) {
    if files == [] then 0 else TotalFileSize(files[..|files| - 1]) + files[|files| - 1].size
  }

  // ---------------------------------------------------------------- flushing a memtable

  function Span(smallest: UserKey, largest: UserKey): (r: Range) {
    Range(Some(smallest), Some(largest))
  }

  /** A flushed file may move from `level` to the next one. */
  ghost predicate MayDescend(v: Version, r: Range, level: nat)
    requires |v| == NUM_LEVELS && level < MAX_MEM_COMPACT_LEVEL
  {
    && !SomeOverlap(v[level + 1], r)
    && TotalFileSize(Overlapping(v[level + 2], r)) <= MAX_GRANDPARENT_OVERLAP_BYTES
  }

  /** The user keys of the file and those from `u` to `w` have one in common. */
  predicate Meets(f: File, u: UserKey, w: UserKey) {
    f.smallest.user <= w && u <= f.largest.user
  }

  /** The bytes of the files that meet the keys from `u` to `w`. */
  function MeetingBytes(files: seq<File>, u: UserKey, w: UserKey): (n: nat) {
    if files == [] then 0
    else MeetingBytes(files[1..], u, w) + if Meets(files[0], u, w) then files[0].size else 0
  }

  /** A flush of keys from `u` to `w` may go down to `level`. */
  ghost predicate MayReach(v: Version, u: UserKey, w: UserKey, level: nat)
    requires |v| == NUM_LEVELS
  {
    && level <= MAX_MEM_COMPACT_LEVEL
    && (forall k, f :: 0 <= k <= level && f in v[k] ==> !Meets(f, u, w))
    && (forall k :: 2 <= k < level + 2 ==> MeetingBytes(v[k], u, w) <= MAX_GRANDPARENT_OVERLAP_BYTES)
  }

  /** The deepest level that a flush may go down to; level zero if it cannot even go there freely. */
  ghost predicate DeepestFree(v: Version, u: UserKey, w: UserKey, level: nat)
    requires |v| == NUM_LEVELS
  {
    if exists f :: f in v[0] && Meets(f, u, w) then level == 0
    else MayReach(v, u, w, level) && forall l :: level < l <= MAX_MEM_COMPACT_LEVEL ==> !MayReach(v, u, w, l)
  }

  predicate HasKey(f: File, u: UserKey) {
    f.smallest.user <= u <= f.largest.user
  }

  predicate InSpan(r: Range, u: UserKey) {
    (r.lo.Some? ==> r.lo.value <= u) && (r.hi.Some? ==> u <= r.hi.value)
  }

  /** A file overlaps a range exactly if some user key lies in both. */
  lemma OverlapsIff(f: File, r: Range)
    requires f.smallest.user <= f.largest.user
    requires r.lo.Some? && r.hi.Some? ==> r.lo.value <= r.hi.value
    ensures Overlaps(f, r) <==> exists u :: HasKey(f, u) && InSpan(r, u)
  {
    if Overlaps(f, r) {
      var u := if r.lo.Some? && r.lo.value > f.smallest.user then r.lo.value else f.smallest.user;
      assert HasKey(f, u) && InSpan(r, u);
    }
  }

  lemma MeetsIsOverlaps(f: File, u: UserKey, w: UserKey)
    ensures Meets(f, u, w) <==> Overlaps(f, Span(u, w))
  {
  }

  lemma {:induction false} SizeFromFront(files: seq<File>)
    requires files != []
    ensures TotalFileSize(files) == files[0].size + TotalFileSize(files[1..])
    decreases |files|
  {
    var n := |files| - 1;
    if n > 0 {
      SizeFromFront(files[..n]);
      assert files[..n][1..] == files[1..][..n - 1];
    } else {
      assert files[..0] == [] && files[1..] == [];
    }
  }

  lemma {:induction false} OverlappingFromFront(files: seq<File>, r: Range)
    requires files != []
    ensures Overlapping(files, r) == (if Overlaps(files[0], r) then [files[0]] else []) + Overlapping(files[1..], r)
    decreases |files|
  {
    var n := |files| - 1;
    if n > 0 {
      OverlappingFromFront(files[..n], r);
      assert files[..n][1..] == files[1..][..n - 1] && files[1..][n - 1] == files[n];
    } else {
      assert files[..0] == [] && files[1..] == [];
    }
  }

  /** What the overlap query adds up to. */
  lemma {:induction false} MeetingBytesAre(files: seq<File>, u: UserKey, w: UserKey)
    ensures TotalFileSize(Overlapping(files, Span(u, w))) == MeetingBytes(files, u, w)
    decreases |files|
  {
    if files != [] {
      var r := Span(u, w);
      MeetingBytesAre(files[1..], u, w);
      MeetsIsOverlaps(files[0], u, w);
      OverlappingFromFront(files, r);
      var rest := Overlapping(files[1..], r);
      if Overlaps(files[0], r) {
        SizeFromFront([files[0]] + rest);
        assert ([files[0]] + rest)[1..] == rest;
      } else {
        assert [] + rest == rest;
      }
    }
  }

  method PickLevelForMemTableOutput(v: Version, smallest: UserKey, largest: UserKey)
    returns (level: nat)
    requires ValidVersion(v)
    ensures level <= MAX_MEM_COMPACT_LEVEL && DeepestFree(v, smallest, largest, level)
    ensures level > 0 ==> forall k :: 0 <= k <= level ==> !SomeOverlap(v[k], Span(smallest, largest))
  {
    var r := Span(smallest, largest);
    level := 0;
    var overlap := SomeFileOverlapsRange(false, v[0], r);
    if !overlap {
      while level < MAX_MEM_COMPACT_LEVEL
        invariant level <= MAX_MEM_COMPACT_LEVEL
        invariant forall k :: 0 <= k <= level ==> !SomeOverlap(v[k], r)
        invariant forall k :: 0 <= k < level ==> MayDescend(v, r, k)
      {
        overlap := SomeFileOverlapsRange(true, v[level + 1], r);
        if overlap {
          break;
        }
        var overlaps := GetOverlappingInputs(false, v[level + 2], r);
        if TotalFileSize(overlaps) > MAX_GRANDPARENT_OVERLAP_BYTES {
          break;
        }
        level := level + 1;
      }
      PickIsDeepest(v, smallest, largest, level);
    } else {
      MetAtZero(v, smallest, largest);
    }
  }

  lemma MetAtZero(v: Version, u: UserKey, w: UserKey)
    requires |v| == NUM_LEVELS && SomeOverlap(v[0], Span(u, w))
    ensures DeepestFree(v, u, w, 0)
  {
    var f :| f in v[0] && Overlaps(f, Span(u, w));
    MeetsIsOverlaps(f, u, w);
  }

  /** Stopping at the first step that is not allowed stops at the deepest level. */
  lemma PickIsDeepest(v: Version, u: UserKey, w: UserKey, level: nat)
    requires |v| == NUM_LEVELS && level <= MAX_MEM_COMPACT_LEVEL
    requires forall k :: 0 <= k <= level ==> !SomeOverlap(v[k], Span(u, w))
    requires forall k :: 0 <= k < level ==> MayDescend(v, Span(u, w), k)
    requires level < MAX_MEM_COMPACT_LEVEL ==> !MayDescend(v, Span(u, w), level)
    ensures DeepestFree(v, u, w, level)
  {
    hide Overlapping, TotalFileSize, MeetingBytes;
    forall k, f | 0 <= k <= level && f in v[k]
      ensures !Meets(f, u, w)
    {
      MeetsIsOverlaps(f, u, w);
      assert !SomeOverlap(v[k], Span(u, w));
    }
    forall k | 2 <= k < level + 2
      ensures MeetingBytes(v[k], u, w) <= MAX_GRANDPARENT_OVERLAP_BYTES
    {
      assert MayDescend(v, Span(u, w), k - 2);
      MeetingBytesAre(v[k], u, w);
    }
    forall l | level < l <= MAX_MEM_COMPACT_LEVEL
      ensures !MayReach(v, u, w, l)
    {
      NoStepDown(v, u, w, level, l);
    }
  }

  lemma NoStepDown(v: Version, u: UserKey, w: UserKey, level: nat, l: nat)
    requires |v| == NUM_LEVELS && level < l <= MAX_MEM_COMPACT_LEVEL && !MayDescend(v, Span(u, w), level)
    ensures !MayReach(v, u, w, l)
  {
    var r := Span(u, w);
    if f :| f in v[level + 1] && Overlaps(f, r) {
      MeetsIsOverlaps(f, u, w);
    } else {
      MeetingBytesAre(v[level + 2], u, w);
    }
  }

  // ---------------------------------------------------------------- ranges of input sets

  ghost predicate IsRange(files: seq<File>, smallest: InternalKey, largest: InternalKey) {
    && (exists f :: f in files && f.smallest == smallest)
    && (exists f :: f in files && f.largest == largest)
    && (forall f :: f in files ==> !Less(f.smallest, smallest) && !Less(largest, f.largest))
  }

  method GetRange(inputs: seq<File>) returns (smallest: InternalKey, largest: InternalKey)
    requires |inputs| > 0
    ensures IsRange(inputs, smallest, largest)
  {
    smallest, largest := inputs[0].smallest, inputs[0].largest;
    assert inputs[0] in inputs[..1];
    for i := 1 to |inputs|
      invariant IsRange(inputs[..i], smallest, largest)
    {
      var f := inputs[i];
      CompareIsLess(f.smallest, smallest);
      CompareIsLess(f.largest, largest);
      ghost var s0, l0 := smallest, largest;
      if Compare(f.smallest, smallest) < 0 {
        smallest := f.smallest;
      }
      if Compare(f.largest, largest) > 0 {
        largest := f.largest;
      }
      RangeGrows(inputs[..i], f, s0, l0, smallest, largest);
      assert inputs[..i + 1] == inputs[..i] + [f];
    }
    assert inputs[..|inputs|] == inputs;
  }

  lemma RangeGrows(files: seq<File>, f: File, s0: InternalKey, l0: InternalKey,
                   s1: InternalKey, l1: InternalKey)
    requires IsRange(files, s0, l0)
    requires s1 == if Less(f.smallest, s0) then f.smallest else s0
    requires l1 == if Less(l0, f.largest) then f.largest else l0
    ensures IsRange(files + [f], s1, l1)
  {
    var a :| a in files && a.smallest == s0;
    var b :| b in files && b.largest == l0;
    assert a in files + [f] && b in files + [f] && f in files + [f];
  }

  /** The range is unique, and in user keys it is the smallest span around the files. */
  lemma RangeIsUnique(files: seq<File>, s: InternalKey, l: InternalKey, s': InternalKey, l': InternalKey)
    requires IsRange(files, s, l) && IsRange(files, s', l')
    ensures s == s' && l == l'
  {
    CompareIsLess(s, s');
    CompareIsLess(l, l');
  }

  lemma SpanContains(files: seq<File>, s: InternalKey, l: InternalKey)
    requires IsRange(files, s, l)
    ensures forall f :: f in files ==> Inside(f, Span(s.user, l.user))
  {
  }

  lemma SpanCovers(small: seq<File>, big: seq<File>, s: InternalKey, l: InternalKey,
                   s': InternalKey, l': InternalKey)
    requires IsRange(small, s, l) && IsRange(big, s', l')
    requires forall f :: f in small ==> f in big
    ensures Covers(Span(s'.user, l'.user), Span(s.user, l.user))
  {
  }

  /** A wider range meets at least as many files, and equally many only if they are the same. */
  lemma {:induction false} OverlappingGrows(files: seq<File>, r: Range, r': Range)
    requires Covers(r', r)
    ensures |Overlapping(files, r)| <= |Overlapping(files, r')|
    ensures |Overlapping(files, r)| == |Overlapping(files, r')| ==>
              Overlapping(files, r) == Overlapping(files, r')
  {
    if files != [] {
      OverlappingGrows(files[..|files| - 1], r, r');
    }
  }
}
