/**
The manifest as the list of all edits of a store, and its replay when the store is opened
(util/leveldb/db/version_set.cc, VersionSet::LogAndApply and VersionSet::Recover).
 */
module Manifests {
  import opened Versions
  import opened Edits
  import opened Compactions
  import opened Installs
  import opened Flushes

  predicate LevelsOk(e: Edit) {
    (forall p :: p in e.deleted ==> p.0 < NUM_LEVELS) && (forall p :: p in e.added ==> p.0 < NUM_LEVELS)
  }

  /** The edits lead from the empty version to `v`, and none gives a level a number it had before. */
  ghost predicate Recorded(manifest: seq<Edit>, v: Version, next: nat) {
    && |v| == NUM_LEVELS && (forall e :: e in manifest ==> LevelsOk(e))
    && forall l :: 0 <= l < NUM_LEVELS ==> RecordedAt(manifest, v, next, l)
  }

  ghost predicate RecordedAt(manifest: seq<Edit>, v: Version, next: nat, l: nat)
    requires l < |v|
  {
    && FreshAdds([], manifest, l) && SaveEach([], manifest, l) == v[l]
    && OnlyBelow(EverHeld([], manifest, l), v, next, l)
  }

  /** Numbers that a level has held are used up, and their files, if still there, are no higher up. */
  ghost predicate OnlyBelow(held: set<nat>, v: Version, next: nat, l: nat) {
    && (forall n :: n in held ==> n < next)
    && forall k, f :: 0 <= k < |v| && f in v[k] && f.number in held ==> l <= k
  }

  /** An edit adds files with new numbers, or moves files down by one level. */
  ghost predicate Tidy(v: Version, v': Version, e: Edit, next: nat, next': nat) {
    && |v| == |v'| == NUM_LEVELS && LevelsOk(e) && next <= next'
    && (forall l, f :: 0 <= l < NUM_LEVELS && f in AddedAt(e, l) ==> f in v'[l] && Comes(v, next, next', l, f))
    && (forall l, f :: 0 <= l < NUM_LEVELS && f in v'[l] ==> f in v[l] || f in AddedAt(e, l))
  }

  ghost predicate Comes(v: Version, next: nat, next': nat, l: nat, f: File)
    requires l < |v|
  {
    next <= f.number < next' || (l > 0 && f in v[l - 1])
  }

  lemma EmptyIsRecorded(v: Version, next: nat)
    requires |v| == NUM_LEVELS && forall l :: 0 <= l < NUM_LEVELS ==> v[l] == []
    ensures Recorded([], v, next)
  {
  }

  /** No level gets a number it has held. */
  lemma AddsAreFresh(held: set<nat>, v: Version, v': Version, e: Edit, next: nat, next': nat, l: nat)
    requires Tidy(v, v', e, next, next') && NumbersOk(v', next') && l < NUM_LEVELS && OnlyBelow(held, v, next, l)
    ensures DistinctAdds(e, l) && forall f :: f in AddedAt(e, l) ==> f.number !in held
  {
    hide NumbersOk, AddedAt;
    forall f | f in AddedAt(e, l)
      ensures f.number !in held
    {
      if f.number < next {
        assert f in v[l - 1];
      }
    }
    DistinctInLevel(v', next', l);
  }

  lemma DistinctInLevel(v: Version, next: nat, l: nat)
    requires NumbersOk(v, next) && l < |v|
    ensures DistinctNumbers(v[l])
  {
  }

  lemma StillBelow(held: set<nat>, v: Version, v': Version, e: Edit, next: nat, next': nat, l: nat)
    requires Tidy(v, v', e, next, next') && NumbersOk(v', next') && l < NUM_LEVELS && OnlyBelow(held, v, next, l)
    ensures OnlyBelow(held + set f | f in AddedAt(e, l) :: f.number, v', next', l)
  {
    var now := held + set f | f in AddedAt(e, l) :: f.number;
    forall n | n in now
      ensures n < next'
    {
      if n !in held {
        var f :| f in AddedAt(e, l) && f.number == n;
        assert f in v'[l];
      }
    }
    forall k, f | 0 <= k < |v'| && f in v'[k] && f.number in now
      ensures l <= k
    {
      if f.number in held {
        if f !in v[k] {
          assert f in AddedAt(e, k);
          assert f in v[k - 1];
        }
      } else {
        var g :| g in AddedAt(e, l) && g.number == f.number;
        assert g in v'[l];
      }
    }
  }

  /** Every tidy edit can be recorded. */
  lemma RecordStep(manifest: seq<Edit>, v: Version, v': Version, e: Edit, next: nat, next': nat)
    requires Recorded(manifest, v, next) && Applied(v, v', e) && Tidy(v, v', e, next, next')
    requires NumbersOk(v', next')
    ensures Recorded(manifest + [e], v', next')
  {
    TidyParts(v, v', e, next, next');
    hide AddedAt, Tidy, NumbersOk, RecordedAt, LevelsOk, Applied;
    forall l | 0 <= l < NUM_LEVELS
      ensures RecordedAt(manifest + [e], v', next', l)
    {
      RecordLevel(manifest, v, v', e, next, next', l);
    }
  }

  lemma RecordLevel(manifest: seq<Edit>, v: Version, v': Version, e: Edit, next: nat, next': nat, l: nat)
    requires |v| == |v'| == NUM_LEVELS && l < NUM_LEVELS && RecordedAt(manifest, v, next, l)
    requires Applied(v, v', e) && Tidy(v, v', e, next, next') && NumbersOk(v', next')
    ensures RecordedAt(manifest + [e], v', next', l)
  {
    var es := manifest + [e];
    assert es[..|es| - 1] == manifest && es[|es| - 1] == e;
    var held := EverHeld([], manifest, l);
    hide OnlyBelow, Tidy, NumbersOk, AddedAt, DistinctAdds;
    AddsAreFresh(held, v, v', e, next, next', l);
    StillBelow(held, v, v', e, next, next', l);
  }

  lemma TidyParts(v: Version, v': Version, e: Edit, next: nat, next': nat)
    requires Tidy(v, v', e, next, next')
    ensures |v'| == NUM_LEVELS && LevelsOk(e)
  {
  }

  lemma FlushIsTidy(v: Version, v': Version, level: nat, f: File)
    requires Flushed(v, v', level, f)
    ensures Tidy(v, v', FlushEdit(level, f), f.number, f.number + 1)
  {
    var e := FlushEdit(level, f);
    assert e.added[0] == (level, f);
    assert forall l, g :: 0 <= l < NUM_LEVELS && g in AddedAt(e, l) ==> l == level && g == f;
    assert f in AddedAt(e, level);
  }

  lemma NothingIsTidy(v: Version, next: nat)
    requires |v| == NUM_LEVELS
    ensures Tidy(v, v, EMPTY_EDIT, next, next) && Applied(v, v, EMPTY_EDIT)
  {
    assert forall l :: AddedAt(EMPTY_EDIT, l) == {};
    forall l | 0 <= l < NUM_LEVELS
      ensures v[l] == SaveLevel(v[l], ApplyEdit(NO_CHANGE, EMPTY_EDIT, l))
    {
      assert NO_CHANGE.deleted + NumbersDeleted({}, l) == {};
      NoChangeSaves(v[l]);
    }
  }

  lemma OutputsAreAdded(level: nat, inputs0: seq<File>, inputs1: seq<File>, out: seq<File>, l: nat, f: File)
    ensures var e := CompactionEdit(level, inputs0, inputs1, out);
            f in AddedAt(e, l) <==> l == level + 1 && f in out
  {
    var added := OutputAdds(level + 1, out);
    if l == level + 1 && f in out {
      var i :| 0 <= i < |out| && out[i] == f;
      assert added[i] == (l, f);
    }
  }

  /** The outputs have new numbers, or the only input moves down. */
  lemma CompactionIsTidy(v: Version, v': Version, level: nat, inputs0: seq<File>, inputs1: seq<File>, out: seq<File>,
                         next: nat, next': nat)
    requires Installed(v, v', level, inputs0, inputs1, out) && next <= next'
    requires forall f :: f in out ==> next <= f.number < next' || f in v[level]
    ensures Tidy(v, v', CompactionEdit(level, inputs0, inputs1, out), next, next')
  {
    var e := CompactionEdit(level, inputs0, inputs1, out);
    assert LevelsOk(e);
    hide CompactionEdit, LevelsOk;
    forall l, f | 0 <= l < NUM_LEVELS && f in AddedAt(e, l)
      ensures f in v'[l] && Comes(v, next, next', l, f)
    {
      OutputsAreAdded(level, inputs0, inputs1, out, l, f);
    }
    forall l, f | 0 <= l < NUM_LEVELS && f in v'[l]
      ensures f in v[l] || f in AddedAt(e, l)
    {
      OutputsAreAdded(level, inputs0, inputs1, out, l, f);
    }
  }

  /** Opening a store: one builder over all edits gives back the version of the last one. */
  method RecoverVersion(manifest: seq<Edit>, ghost v: Version, ghost next: nat) returns (r: Version)
    requires Recorded(manifest, v, next)
    ensures r == v
  {
    assert |v| == NUM_LEVELS;
    hide RecordedAt;
    var builder := new Builder(seq(NUM_LEVELS, _ => []));
    for i := 0 to |manifest|
      invariant builder.Valid()
      invariant forall l :: 0 <= l < NUM_LEVELS ==> builder.levels[l] == ApplyEdits(NO_CHANGE, manifest[..i], l)
    {
      assert manifest[..i + 1][..i] == manifest[..i] && manifest[i] in manifest;
      builder.Apply(manifest[i]);
    }
    assert manifest[..|manifest|] == manifest;
    r := [];
    for level := 0 to NUM_LEVELS
      invariant builder.Valid() && builder.base == seq(NUM_LEVELS, _ => [])
      invariant forall l :: 0 <= l < NUM_LEVELS ==> builder.levels[l] == ApplyEdits(NO_CHANGE, manifest, l)
      invariant |r| == level && forall l :: 0 <= l < level ==> r[l] == v[l]
    {
      var files := builder.SaveTo(level);
      LevelIsBack(manifest, v, next, level);
      r := r + [files];
    }
  }

  lemma LevelIsBack(manifest: seq<Edit>, v: Version, next: nat, level: nat)
    requires level < |v| && RecordedAt(manifest, v, next, level)
    ensures SaveLevel([], ApplyEdits(NO_CHANGE, manifest, level)) == v[level]
  {
    ReplayEqualsStepwise([], manifest, level);
  }
}
