/**
Installing a flushed memtable: the new file goes to the level that
Version::PickLevelForMemTableOutput chose (util/leveldb/db/db_impl.cc, WriteLevel0Table and
CompactMemTable).
 */
module Flushes {
  import opened Keys
  import opened History
  import opened Versions
  import opened Inputs
  import opened Edits
  import opened Compactions
  import opened Installs

  function TableFile(number: nat, size: nat, es: seq<Entry>): (f: File)
    requires |es| > 0
  {
    File(number, size, es[0].key, es[|es| - 1].key, es)
  }

  function FlushEdit(level: nat, f: File): (e: Edit) {
    Edit({}, [(level, f)])
  }

  /** The level chosen for a flush holds no file that meets it, nor does any level above. */
  ghost predicate FreeFor(v: Version, level: nat, f: File)
    requires |v| == NUM_LEVELS
  {
    && level < NUM_LEVELS
    && (level > 0 ==> forall k :: 0 <= k <= level ==> !SomeOverlap(v[k], Span(f.smallest.user, f.largest.user)))
  }

  /** `v'` is `v` with `f` added to one level. */
  ghost predicate Flushed(v: Version, v': Version, level: nat, f: File) {
    && |v| == |v'| == NUM_LEVELS && level < NUM_LEVELS
    && (forall l :: 0 <= l < NUM_LEVELS && l != level ==> v'[l] == v[l])
    && (forall g :: g in v'[level] <==> g in v[level] || g == f)
    && Ordered(v'[level])
  }

  /** What a flush needs to know: a fresh number, newer contents, a free level. */
  ghost predicate Flushable(v: Version, level: nat, f: File, next: nat) {
    && ValidVersion(v) && LevelsByAge(v) && NumbersOk(v, next)
    && ValidFile(f) && f.number == next
    && FreeFor(v, level, f)
    && Newer(Elements(f.entries), VersionSet(v))
  }

  lemma UntouchedByFlush(v: Version, v': Version, level: nat, f: File)
    requires Applied(v, v', FlushEdit(level, f))
    ensures forall l :: 0 <= l < NUM_LEVELS && l != level ==> v'[l] == v[l]
  {
    var e := FlushEdit(level, f);
    assert e.deleted == {} && e.added == [(level, f)];
    assert |v| == |v'| == NUM_LEVELS;
    forall l | 0 <= l < NUM_LEVELS && l != level
      ensures v'[l] == v[l]
    {
      hide *;
      UntouchedLevel(v, v', e, l);
    }
  }

  lemma FreshNumber(v: Version, level: nat, f: File, next: nat)
    requires NumbersOk(v, next) && level < |v| && f.number == next
    ensures DistinctNumbers(v[level]) && forall g :: g in v[level] ==> g.number != f.number
  {
  }

  lemma FlushInstalls(v: Version, v': Version, level: nat, f: File, next: nat)
    requires Flushable(v, level, f, next) && Applied(v, v', FlushEdit(level, f))
    ensures Flushed(v, v', level, f)
  {
    hide *;
    FlushableParts(v, level, f, next);
    AppliedAt(v, v', FlushEdit(level, f), level);
    UntouchedByFlush(v, v', level, f);
    FreshNumber(v, level, f, next);
    FlushedLevel(v[level], level, f);
    FlushedByLevels(v, v', level, f);
  }

  lemma FlushableParts(v: Version, level: nat, f: File, next: nat)
    requires Flushable(v, level, f, next)
    ensures |v| == NUM_LEVELS && level < NUM_LEVELS && NumbersOk(v, next) && f.number == next
    ensures Ordered(v[level])
  {
    if level > 0 {
      SortedIsOrdered(v[level]);
    }
  }

  lemma AppliedAt(v: Version, v': Version, e: Edit, l: nat)
    requires Applied(v, v', e) && l < NUM_LEVELS
    ensures |v'| == NUM_LEVELS && v'[l] == SaveLevel(v[l], ApplyEdit(NO_CHANGE, e, l))
  {
  }

  lemma FlushedByLevels(v: Version, v': Version, level: nat, f: File)
    requires |v| == |v'| == NUM_LEVELS && level < NUM_LEVELS
    requires forall l :: 0 <= l < NUM_LEVELS && l != level ==> v'[l] == v[l]
    requires forall g :: g in v'[level] <==> g in v[level] || g == f
    requires Ordered(v'[level])
    ensures Flushed(v, v', level, f)
  {
  }

  lemma FlushedLevel(base: seq<File>, level: nat, f: File)
    requires DistinctNumbers(base) && forall g :: g in base ==> g.number != f.number
    ensures var files := SaveLevel(base, ApplyEdit(NO_CHANGE, FlushEdit(level, f), level));
            && (forall g :: g in files <==> g in base || g == f)
            && (Ordered(base) ==> Ordered(files))
  {
    assert NO_CHANGE.deleted + NumbersDeleted({}, level) == {};
    EditedLevel(base, [], [(level, f)], [f], {}, level);
  }

  lemma FlushKeepsNumbers(v: Version, v': Version, level: nat, f: File, next: nat)
    requires NumbersOk(v, next) && f.number == next && Flushed(v, v', level, f)
    ensures NumbersOk(v', next + 1)
  {
    assert forall l, g :: 0 <= l < |v'| && g in v'[l] ==> g in v[l] || (l == level && g == f);
  }

  lemma ApartFromFree(v: Version, level: nat, f: File, k: nat, g: File)
    requires ValidVersion(v) && ValidFile(f) && FreeFor(v, level, f) && 0 < level && k <= level && g in v[k]
    ensures g.largest.user < f.smallest.user || f.largest.user < g.smallest.user
    ensures Separated(f, g)
  {
    assert !Overlaps(g, Span(f.smallest.user, f.largest.user));
    MembersAreValid(v[k], g);
    EntryInRange(g, g.entries[0]);
    EntryInRange(f, f.entries[0]);
  }

  lemma FlushKeepsVersion(v: Version, v': Version, level: nat, f: File, next: nat)
    requires Flushable(v, level, f, next) && Flushed(v, v', level, f)
    ensures ValidVersion(v')
  {
    forall g | g in v'[level]
      ensures ValidFile(g)
    {
      if g != f { MembersAreValid(v[level], g); }
    }
    ValidByMembers(v'[level]);
    if level > 0 {
      FlushedLevelIsSorted(v, v'[level], level, f, next);
    } else {
      NewestNumber(v, v'[0], f, next);
    }
  }

  lemma FlushedLevelIsSorted(v: Version, files: Level, level: nat, f: File, next: nat)
    requires Flushable(v, level, f, next) && level > 0
    requires forall g :: g in files <==> g in v[level] || g == f
    requires ValidFiles(files) && Ordered(files)
    ensures SortedLevel(files)
  {
    forall g, h | g in files && h in files && g != h
      ensures Separated(g, h)
    {
      if g == f {
        ApartFromFree(v, level, f, level, h);
      } else if h == f {
        ApartFromFree(v, level, f, level, g);
      } else {
        SortedIsSeparated(v[level], g, h);
      }
    }
    hide Flushable;
    OrderedSeparatedIsSorted(files);
  }

  lemma NewestNumber(v: Version, files: Level, f: File, next: nat)
    requires ValidVersion(v) && NumbersOk(v, next) && f.number == next
    requires Newer(Elements(f.entries), VersionSet(v))
    requires forall g :: g in files <==> g in v[0] || g == f
    ensures NumberedByAge(files)
  {
    forall g | g in v[0]
      ensures Newer(Elements(f.entries), Elements(g.entries))
    {
      assert Elements(g.entries) <= LevelSet(v[0]) <= VersionSet(v);
    }
  }

  /** An entry after the flush was in the same level before, or is in the new file. */
  lemma FlushedEntry(v: Version, v': Version, level: nat, f: File, i: nat, a: Entry)
    requires Flushed(v, v', level, f) && i < NUM_LEVELS && a in LevelSet(v'[i])
    ensures a in LevelSet(v[i]) || (i == level && a in f.entries)
  {
    var k := HoldingFile(v'[i], a);
    assert v'[i][k] in v'[i];
  }

  lemma FlushedBelow(v: Version, level: nat, f: File, next: nat, i: nat, a: Entry, b: Entry)
    requires Flushable(v, level, f, next) && i < level && a in LevelSet(v[i]) && b in f.entries
    ensures a.key.user != b.key.user
  {
    var k := HoldingFile(v[i], a);
    assert v[i][k] in v[i];
    ApartFromFree(v, level, f, i, v[i][k]);
    EntryInRange(v[i][k], a);
    EntryInRange(f, b);
  }

  lemma FlushedPair(v: Version, v': Version, level: nat, f: File, next: nat, i: nat, j: nat, a: Entry, b: Entry)
    requires Flushable(v, level, f, next) && Flushed(v, v', level, f) && i < j < NUM_LEVELS
    requires a in LevelSet(v'[i]) && b in LevelSet(v'[j]) && a.key.user == b.key.user
    ensures a.key.sn > b.key.sn
  {
    assert |v| == NUM_LEVELS && LevelsByAge(v);
    FlushedEntry(v, v', level, f, i, a);
    FlushedEntry(v, v', level, f, j, b);
    if a in LevelSet(v[i]) && b in LevelSet(v[j]) {
      hide *;
      AgeOfLevels(v, i, j, a, b);
    } else if b in LevelSet(v[j]) {
      InVersion(v, j, b);
      assert a in Elements(f.entries);
    } else {
      FlushedBelow(v, level, f, next, i, a, b);
    }
  }

  lemma InVersion(v: Version, l: nat, e: Entry)
    requires l < |v| && e in LevelSet(v[l])
    ensures e in VersionSet(v)
  {
    assert v[l] in v;
  }

  lemma FlushKeepsAge(v: Version, v': Version, level: nat, f: File, next: nat)
    requires Flushable(v, level, f, next) && Flushed(v, v', level, f)
    ensures LevelsByAge(v')
  {
    forall i, j | 0 <= i < j < |v'|
      ensures Newer(LevelSet(v'[i]), LevelSet(v'[j]))
    {
      forall a, b | a in LevelSet(v'[i]) && b in LevelSet(v'[j]) && a.key.user == b.key.user
        ensures a.key.sn > b.key.sn
      {
        FlushedPair(v, v', level, f, next, i, j, a, b);
      }
    }
  }

  lemma FlushedContents(v: Version, v': Version, level: nat, f: File)
    requires Flushed(v, v', level, f)
    ensures VersionSet(v') == VersionSet(v) + Elements(f.entries)
  {
    forall e | e in VersionSet(v')
      ensures e in VersionSet(v) + Elements(f.entries)
    {
      var l, g := LevelOfEntry(v', e);
      EntryOfFile(v'[l], g, e);
      FlushedEntry(v, v', level, f, l, e);
      if e !in f.entries { InVersion(v, l, e); }
    }
    forall e | e in VersionSet(v) + Elements(f.entries)
      ensures e in VersionSet(v')
    {
      if e in f.entries {
        EntryOfFile(v'[level], f, e);
        InVersion(v', level, e);
      } else {
        var l, g := LevelOfEntry(v, e);
        EntryOfFile(v'[l], g, e);
        InVersion(v', l, e);
      }
    }
  }
}
