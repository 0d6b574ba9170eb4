/**
Turning flushes, compactions and trivial moves into version edits and applying them
(util/leveldb/db/db_impl.cc, InstallCompactionResults and WriteLevel0Table;
util/leveldb/db/version_set.cc, LogAndApply).
 */
module Installs {
  import opened Versions
  import opened Edits
  import opened Compactions

  /** File numbers are below `next` and name one file of the whole version. */
  ghost predicate NumbersOk(v: Version, next: nat) {
    && (forall l, f :: 0 <= l < |v| && f in v[l] ==> f.number < next)
    && (forall l, k, f, g :: 0 <= l < |v| && 0 <= k < |v| && f in v[l] && g in v[k] && f.number == g.number ==>
          l == k && f == g)
  }

  ghost predicate Applied(v: Version, v': Version, e: Edit) {
    && |v| == |v'| == NUM_LEVELS
    && forall l :: 0 <= l < NUM_LEVELS ==> v'[l] == SaveLevel(v[l], ApplyEdit(NO_CHANGE, e, l))
  }

  /** LogAndApply without the manifest: one builder over the current version. */
  method ApplyToVersion(v: Version, e: Edit) returns (v': Version)
    requires |v| == NUM_LEVELS
    requires forall p :: p in e.deleted ==> p.0 < NUM_LEVELS
    requires forall p :: p in e.added ==> p.0 < NUM_LEVELS
    ensures Applied(v, v', e)
  {
    var builder := new Builder(v);
    builder.Apply(e);
    assert forall l :: 0 <= l < NUM_LEVELS ==> builder.levels[l] == ApplyEdit(NO_CHANGE, e, l);
    hide *;
    v' := [];
    for level := 0 to NUM_LEVELS
      invariant |v'| == level
      invariant builder.Valid() && builder.base == v
      invariant forall l :: 0 <= l < NUM_LEVELS ==> builder.levels[l] == ApplyEdit(NO_CHANGE, e, l)
      invariant forall l :: 0 <= l < level ==> v'[l] == SaveLevel(v[l], ApplyEdit(NO_CHANGE, e, l))
    {
      var files := builder.SaveTo(level);
      v' := v' + [files];
    }
    AppliedByLevels(v, v', e);
  }

  lemma AppliedByLevels(v: Version, v': Version, e: Edit)
    requires |v| == |v'| == NUM_LEVELS
    requires forall l :: 0 <= l < NUM_LEVELS ==> v'[l] == SaveLevel(v[l], ApplyEdit(NO_CHANGE, e, l))
    ensures Applied(v, v', e)
  {
  }

  lemma {:induction false} NothingAdded(ls: LevelState, added: seq<(nat, File)>, level: nat)
    requires forall p :: p in added ==> p.0 != level
    ensures ApplyAdds(ls, added, level) == ls
  {
    if added != [] {
      NothingAdded(ls, added[..|added| - 1], level);
    }
  }

  lemma UntouchedLevel(v: Version, v': Version, e: Edit, l: nat)
    requires Applied(v, v', e) && l < NUM_LEVELS
    requires forall p :: p in e.added ==> p.0 != l
    requires forall p :: p in e.deleted ==> p.0 != l
    ensures v'[l] == v[l]
  {
    NothingAdded(LevelState({}, []), e.added, l);
    assert NO_CHANGE.deleted + NumbersDeleted(e.deleted, l) == {};
    NoChangeSaves(v[l]);
  }

  lemma SortedIsOrdered(fs: Level)
    requires ValidFiles(fs) && SortedLevel(fs)
    ensures Ordered(fs)
  {
    forall i, j | 0 <= i < j < |fs|
      ensures Before(fs[i], fs[j])
    {
      EntryInRange(fs[i], fs[i].entries[0]);
    }
  }

  // ---------------------------------------------------------------- compactions

  function InputDeletions(level: nat, inputs: seq<File>): (r: set<(nat, nat)>) {
    set f | f in inputs :: (level, f.number)
  }

  function OutputAdds(level: nat, out: seq<File>): (r: seq<(nat, File)>) {
    seq(|out|, i requires 0 <= i < |out| => (level, out[i]))
  }

  function CompactionEdit(level: nat, inputs0: seq<File>, inputs1: seq<File>, out: seq<File>): (e: Edit) {
    Edit(InputDeletions(level, inputs0) + InputDeletions(level + 1, inputs1), OutputAdds(level + 1, out))
  }

  /** Deleting by number removes exactly the inputs, and the outputs join in builder order. */
  lemma EditedLevel(base: seq<File>, inputs: seq<File>, added: seq<(nat, File)>, out: seq<File>,
                    gone: set<nat>, level: nat)
    requires DistinctNumbers(base) && DistinctNumbers(out)
    requires forall f :: f in inputs ==> f in base
    requires forall f, g :: f in base && g in out ==> f.number != g.number
    requires forall f :: f in out <==> (level, f) in added
    requires gone == set f | f in inputs :: f.number
    ensures var ls := ApplyAdds(LevelState(gone, []), added, level);
            && (forall f :: f in SaveLevel(base, ls) <==> (f in base && f !in inputs) || f in out)
            && (Ordered(base) ==> Ordered(SaveLevel(base, ls)))
  {
    var A := set p | p in added && p.0 == level :: p.1;
    forall f
      ensures f in A <==> f in out
    {
      if f in out { assert (level, f) in added; }
    }
    AddsCollect(LevelState(gone, []), added, level);
    var ls := ApplyAdds(LevelState(gone, []), added, level);
    assert forall f :: f in base ==> (f.number in ls.deleted <==> f in inputs);
    if Ordered(base) {
      SavedIsOrdered(base, ls);
    }
  }

  lemma CompactionInstalls(v: Version, v': Version, level: nat, inputs0: seq<File>, inputs1: seq<File>,
                           out: seq<File>, next: nat)
    requires ValidVersion(v) && level + 1 < NUM_LEVELS && NumbersOk(v, next)
    requires forall f :: f in inputs0 ==> f in v[level]
    requires forall f :: f in inputs1 ==> f in v[level + 1]
    requires DistinctNumbers(out) && forall f, g :: f in v[level + 1] && g in out ==> f.number != g.number
    requires Applied(v, v', CompactionEdit(level, inputs0, inputs1, out))
    ensures Installed(v, v', level, inputs0, inputs1, out)
  {
    var e := CompactionEdit(level, inputs0, inputs1, out);
    forall l | 0 <= l < NUM_LEVELS && l != level && l != level + 1
      ensures v'[l] == v[l]
    {
      UntouchedLevel(v, v', e, l);
    }
    SourceLevel(v, v', level, inputs0, inputs1, out, next);
    TargetLevel(v, v', level, inputs0, inputs1, out, next);
  }

  lemma SourceLevel(v: Version, v': Version, level: nat, inputs0: seq<File>, inputs1: seq<File>,
                    out: seq<File>, next: nat)
    requires ValidVersion(v) && level + 1 < NUM_LEVELS && NumbersOk(v, next)
    requires forall f :: f in inputs0 ==> f in v[level]
    requires Applied(v, v', CompactionEdit(level, inputs0, inputs1, out))
    ensures forall f :: f in v'[level] <==> f in v[level] && f !in inputs0
    ensures Ordered(v'[level])
  {
    var e := CompactionEdit(level, inputs0, inputs1, out);
    var gone := set f | f in inputs0 :: f.number;
    DeletedNumbers(level, inputs0, inputs1, out);
    assert NO_CHANGE.deleted + gone == gone;
    EditedLevel(v[level], inputs0, e.added, [], gone, level);
    if level > 0 {
      SortedIsOrdered(v[level]);
    }
  }

  lemma TargetLevel(v: Version, v': Version, level: nat, inputs0: seq<File>, inputs1: seq<File>,
                    out: seq<File>, next: nat)
    requires ValidVersion(v) && level + 1 < NUM_LEVELS && NumbersOk(v, next)
    requires forall f :: f in inputs1 ==> f in v[level + 1]
    requires DistinctNumbers(out) && forall f, g :: f in v[level + 1] && g in out ==> f.number != g.number
    requires Applied(v, v', CompactionEdit(level, inputs0, inputs1, out))
    ensures forall f :: f in v'[level + 1] <==> (f in v[level + 1] && f !in inputs1) || f in out
    ensures Ordered(v'[level + 1])
  {
    assert v'[level + 1] == SaveLevel(v[level + 1], ApplyEdit(NO_CHANGE, CompactionEdit(level, inputs0, inputs1, out), level + 1));
    SortedIsOrdered(v[level + 1]);
    hide ValidVersion, NumbersOk, SaveLevel, ApplyAdds, Ordered, Applied, CompactionEdit, DistinctNumbers, NumbersDeleted;
    var e := CompactionEdit(level, inputs0, inputs1, out);
    var gone := set f | f in inputs1 :: f.number;
    NumbersInLevel(v, next, level + 1);
    DeletedNumbers(level, inputs0, inputs1, out);
    assert NO_CHANGE.deleted + gone == gone;
    EditedLevel(v[level + 1], inputs1, e.added, out, gone, level + 1);
  }

  lemma NumbersInLevel(v: Version, next: nat, l: nat)
    requires NumbersOk(v, next) && l < |v|
    ensures DistinctNumbers(v[l])
  {
  }

  lemma DeletedNumbers(level: nat, inputs0: seq<File>, inputs1: seq<File>, out: seq<File>)
    ensures var e := CompactionEdit(level, inputs0, inputs1, out);
            && NumbersDeleted(e.deleted, level) == (set f | f in inputs0 :: f.number)
            && NumbersDeleted(e.deleted, level + 1) == (set f | f in inputs1 :: f.number)
            && (forall f :: (level + 1, f) in e.added <==> f in out)
            && (forall p :: p in e.added ==> p.0 == level + 1)
  {
    var e := CompactionEdit(level, inputs0, inputs1, out);
    forall f | f in inputs0
      ensures f.number in NumbersDeleted(e.deleted, level)
    {
      assert (level, f.number) in e.deleted;
    }
    forall f | f in inputs1
      ensures f.number in NumbersDeleted(e.deleted, level + 1)
    {
      assert (level + 1, f.number) in e.deleted;
    }
    forall f | f in out
      ensures (level + 1, f) in e.added
    {
      var i :| 0 <= i < |out| && out[i] == f;
      assert e.added[i] == (level + 1, f);
    }
  }
}
