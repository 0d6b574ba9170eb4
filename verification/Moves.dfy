/**
Trivial moves: a single input file that meets nothing in the next level is moved down as it is
(util/leveldb/db/db_impl.cc, BackgroundCompaction; util/leveldb/db/version_set.cc, IsTrivialMove).
 */
module Moves {
  import opened Keys
  import opened History
  import opened Versions
  import opened Edits
  import opened Compactions
  import opened Cuts
  import opened Installs

  ghost predicate Moved(v: Version, v': Version, level: nat, f: File) {
    && ValidVersion(v) && LevelsByAge(v) && level + 1 < NUM_LEVELS
    && ValidInputs(v, level, [f], [])
    && Installed(v, v', level, [f], [], [f])
  }

  lemma SingleFile(f: File)
    ensures LevelSet([f]) == Elements(f.entries) && LevelSet([]) == {}
  {
    assert f in [f];
  }

  /** A trivial move keeps levels ordered by age exactly if it leaves nothing older behind. */
  lemma MoveKeepsAge(v: Version, v': Version, level: nat, f: File)
    requires Moved(v, v', level, f)
    ensures LevelsByAge(v') <==> LeavesNoOlder(v[level], [f])
  {
    SingleFile(f);
    InstalledKeepsAge(v, v', level, [f], [], [f]);
    assert LevelSet([f]) * LevelSet([f]) == LevelSet([f]);
  }

  /** Below level zero the test is local: the next file must not start with the same user key. */
  lemma MoveKeepsAgeIffNoStraddle(v: Version, v': Version, level: nat, i: nat)
    requires ValidVersion(v) && 0 < level && level + 1 < NUM_LEVELS && i < |v[level]|
    requires Moved(v, v', level, v[level][i]) && UniqueSequences(LevelSet(v[level]))
    ensures LevelsByAge(v') <==> !Straddles(v[level], i + 1)
  {
    assert ValidFiles(v[level]) && SortedLevel(v[level]);
    hide *;
    assert v[level][i..i + 1] == [v[level][i]];
    MoveKeepsAge(v, v', level, v[level][i]);
    RunLeavesNoOlder(v[level], i, i + 1);
  }

  lemma MoveInstalls(v: Version, v': Version, level: nat, f: File, next: nat)
    requires ValidVersion(v) && level + 1 < NUM_LEVELS && NumbersOk(v, next)
    requires ValidInputs(v, level, [f], []) && Applied(v, v', CompactionEdit(level, [f], [], [f]))
    ensures Installed(v, v', level, [f], [], [f])
    ensures ValidFiles([f]) && SortedLevel([f]) && LevelSet([f]) <= LevelSet([f]) + LevelSet([])
  {
    MovedFile(v, level, f, next);
    hide *;
    CompactionInstalls(v, v', level, [f], [], [f], next);
  }

  lemma MovedFile(v: Version, level: nat, f: File, next: nat)
    requires ValidVersion(v) && level + 1 < NUM_LEVELS && NumbersOk(v, next) && ValidInputs(v, level, [f], [])
    ensures f in v[level] && ValidFiles([f]) && SortedLevel([f]) && DistinctNumbers([f])
    ensures forall g :: g in v[level + 1] ==> g.number != f.number
    ensures LevelSet([f]) <= LevelSet([f]) + LevelSet([])
  {
    assert f in [f];
    MembersAreValid(v[level], f);
  }

  lemma MovedNumbers(v: Version, v': Version, level: nat, f: File, next: nat)
    requires NumbersOk(v, next) && Installed(v, v', level, [f], [], [f])
    requires ValidInputs(v, level, [f], [])
    ensures NumbersOk(v', next)
  {
    assert f in [f] && f in v[level] && |v| == |v'| == NUM_LEVELS;
    forall l, g | 0 <= l < |v'| && g in v'[l]
      ensures g.number < next
    {
      var x := MovedPlace(v, v', level, f, next, l, g);
    }
    forall l, k, g, h | 0 <= l < |v'| && 0 <= k < |v'| && g in v'[l] && h in v'[k] && g.number == h.number
      ensures l == k && g == h
    {
      var x := MovedPlace(v, v', level, f, next, l, g);
      var y := MovedPlace(v, v', level, f, next, k, h);
    }
  }

  /** Where a file of the new version was before: only the moved file changed place. */
  lemma MovedPlace(v: Version, v': Version, level: nat, f: File, next: nat, l: nat, g: File) returns (x: nat)
    requires NumbersOk(v, next) && Installed(v, v', level, [f], [], [f]) && f in v[level]
    requires l < NUM_LEVELS && g in v'[l]
    ensures x < |v| && g in v[x] && (if g == f then x == level && l == level + 1 else x == l)
  {
    x := if g == f then level else l;
    assert g in [f] <==> g == f;
    assert g in v[x];
  }

  lemma MovedContents(v: Version, v': Version, level: nat, f: File)
    requires VersionSet(v') == VersionSet(v) - LevelSet([f]) - LevelSet([]) + LevelSet([f])
    requires LevelSet([f]) <= VersionSet(v)
    ensures VersionSet(v') == VersionSet(v)
  {
    SingleFile(f);
  }
}
