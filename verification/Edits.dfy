/**
Version edits and the builder that folds them into a version
(util/leveldb/db/version_set.cc, VersionSet::Builder, LogAndApply and Recover).
 */
module Edits {
  import opened Keys
  import opened Versions

  /** Deleted (level, file number) pairs and added (level, file) pairs. */
  datatype Edit = Edit(deleted: set<(nat, nat)>, added: seq<(nat, File)>)

  /** What a builder has collected for one level; `added` is kept in builder order. */
  datatype LevelState = LevelState(deleted: set<nat>, added: seq<File>)

  const EMPTY_EDIT := Edit({}, [])

  const NO_CHANGE: LevelState := LevelState({}, [])

  /** Insertion into the ordered set of added files; an equivalent element stays as it is. */
  function InsertOrdered(fs: seq<File>, f: File): (r: seq<File>)
    ensures (forall g :: g in fs ==> !Equivalent(f, g)) ==>
              forall g :: g in r <==> g in fs || g == f
    ensures forall g :: g in r ==> g in fs || g == f
  {
    if fs == [] || Before(f, fs[0]) then [f] + fs
    else if !Before(fs[0], f) then
      CompareIsLess(f.smallest, fs[0].smallest);
      assert Equivalent(f, fs[0]);
      fs
    else
      assert fs == [fs[0]] + fs[1..];
      [fs[0]] + InsertOrdered(fs[1..], f)
  }

  lemma {:induction false} InsertKeepsOrdered(fs: seq<File>, f: File)
    requires Ordered(fs)
    ensures Ordered(InsertOrdered(fs, f))
  {
    if fs != [] && !Before(f, fs[0]) && Before(fs[0], f) {
      InsertKeepsOrdered(fs[1..], f);
      var r := InsertOrdered(fs[1..], f);
      assert forall g :: g in r ==> Before(fs[0], g);
    }
  }

  // ---------------------------------------------------------------- applying edits

  function ApplyAdds(ls: LevelState, added: seq<(nat, File)>, level: nat): (r: LevelState) {
    if added == [] then ls
    else
      var ls' := ApplyAdds(ls, added[..|added| - 1], level);
      var (l, f) := added[|added| - 1];
      if l == level then LevelState(ls'.deleted - {f.number}, InsertOrdered(ls'.added, f)) else ls'
  }

  function NumbersDeleted(deleted: set<(nat, nat)>, level: nat): (r: set<nat>) {
    set p | p in deleted && p.0 == level :: p.1
  }

  function ApplyEdit(ls: LevelState, e: Edit, level: nat): (r: LevelState) {
    ApplyAdds(LevelState(ls.deleted + NumbersDeleted(e.deleted, level), ls.added), e.added, level)
  }

  function ApplyEdits(ls: LevelState, es: seq<Edit>, level: nat): (r: LevelState) {
    if es == [] then ls else ApplyEdit(ApplyEdits(ls, es[..|es| - 1], level), es[|es| - 1], level)
  }

  // ---------------------------------------------------------------- saving a level

  function Live(fs: seq<File>, deleted: set<nat>): (r: seq<File>) {
    if fs == [] then []
    else (if fs[0].number in deleted then [] else [fs[0]]) + Live(fs[1..], deleted)
  }

  function MergeFiles(base: seq<File>, added: seq<File>): (r: seq<File>) {
    if base == [] then added
    else if added == [] then base
    else if Before(added[0], base[0]) then [added[0]] + MergeFiles(base, added[1..])
    else [base[0]] + MergeFiles(base[1..], added)
  }

  lemma {:induction false} LiveMembers(fs: seq<File>, deleted: set<nat>)
    ensures forall f :: f in Live(fs, deleted) <==> f in fs && f.number !in deleted
  {
    if fs != [] { LiveMembers(fs[1..], deleted); }
  }

  lemma {:induction false} MergeMembers(base: seq<File>, added: seq<File>)
    ensures forall f :: f in MergeFiles(base, added) <==> f in base || f in added
  {
    if base != [] && added != [] {
      if Before(added[0], base[0]) {
        MergeMembers(base, added[1..]);
      } else {
        MergeMembers(base[1..], added);
      }
    }
  }

  /** The files of one level after the builder's changes. */
  function SaveLevel(base: seq<File>, ls: LevelState): (r: seq<File>)
    ensures forall f :: f in r <==> (f in base || f in ls.added) && f.number !in ls.deleted
  {
    MergeMembers(base, ls.added);
    LiveMembers(MergeFiles(base, ls.added), ls.deleted);
    Live(MergeFiles(base, ls.added), ls.deleted)
  }

  lemma {:induction false} LiveKeepsOrdered(fs: seq<File>, deleted: set<nat>)
    requires Ordered(fs)
    ensures Ordered(Live(fs, deleted))
  {
    if fs != [] {
      LiveKeepsOrdered(fs[1..], deleted);
      LiveMembers(fs[1..], deleted);
      assert forall g :: g in Live(fs[1..], deleted) ==> Before(fs[0], g);
    }
  }

  lemma {:induction false} MergeKeepsOrdered(base: seq<File>, added: seq<File>)
    requires Ordered(base) && Ordered(added)
    requires forall f, g :: f in base && g in added ==> !Equivalent(f, g)
    ensures Ordered(MergeFiles(base, added))
  {
    if base != [] && added != [] {
      assert !Equivalent(base[0], added[0]);
      CompareIsLess(base[0].smallest, added[0].smallest);
      if Before(added[0], base[0]) {
        MergeKeepsOrdered(base, added[1..]);
        MergeMembers(base, added[1..]);
        assert forall g :: g in MergeFiles(base, added[1..]) ==> Before(added[0], g);
      } else {
        assert Before(base[0], added[0]);
        MergeKeepsOrdered(base[1..], added);
        MergeMembers(base[1..], added);
        assert forall g :: g in MergeFiles(base[1..], added) ==> Before(base[0], g);
      }
    }
  }

  lemma SavedIsOrdered(base: seq<File>, ls: LevelState)
    requires Ordered(base) && Ordered(ls.added)
    requires forall f, g :: f in base && g in ls.added ==> !Equivalent(f, g)
    ensures Ordered(SaveLevel(base, ls))
  {
    MergeKeepsOrdered(base, ls.added);
    LiveKeepsOrdered(MergeFiles(base, ls.added), ls.deleted);
  }

  lemma {:induction false} NoChangeSaves(base: seq<File>)
    ensures Live(base, {}) == base
    ensures SaveLevel(base, NO_CHANGE) == base
  {
    if base != [] {
      NoChangeSaves(base[1..]);
    }
  }

  /** An ordered file list is determined by the files in it. */
  lemma {:induction false} OrderedIsUnique(a: seq<File>, b: seq<File>)
    requires Ordered(a) && Ordered(b)
    requires forall f :: f in a <==> f in b
    ensures a == b
  {
    assert b != [] ==> b[0] in a;
    if a != [] {
      assert a[0] in b && b != [];
      assert b[0] in a;
      assert a[0] == b[0] by {
        var i :| 0 <= i < |b| && b[i] == a[0];
        var j :| 0 <= j < |a| && a[j] == b[0];
        assert i > 0 ==> Before(b[0], a[0]);
        assert j > 0 ==> Before(a[0], b[0]);
      }
      forall f
        ensures f in a[1..] <==> f in b[1..]
      {
        assert a == [a[0]] + a[1..] && b == [b[0]] + b[1..];
        if f in a[1..] { assert f in b && f != b[0]; }
        if f in b[1..] { assert f in a && f != a[0]; }
      }
      OrderedIsUnique(a[1..], b[1..]);
    }
  }

  // ---------------------------------------------------------------- manifest replay

  /** Building and saving a version after every single edit, at one level. */
  function SaveEach(base: seq<File>, es: seq<Edit>, level: nat): (r: seq<File>) {
    if es == [] then base
    else SaveLevel(SaveEach(base, es[..|es| - 1], level), ApplyEdit(NO_CHANGE, es[|es| - 1], level))
  }

  ghost function AddedAt(e: Edit, level: nat): set<File> {
    set p | p in e.added && p.0 == level :: p.1
  }

  /** All numbers that the level held at the start or that some edit put there. */
  ghost function EverHeld(base: seq<File>, es: seq<Edit>, level: nat): set<nat> {
    if es == [] then set f | f in base :: f.number
    else EverHeld(base, es[..|es| - 1], level)
         + set f | f in AddedAt(es[|es| - 1], level) :: f.number
  }

  /** Within one edit the files added to a level have numbers of their own. */
  ghost predicate DistinctAdds(e: Edit, level: nat) {
    forall f, g :: f in AddedAt(e, level) && g in AddedAt(e, level) && f.number == g.number ==> f == g
  }

  /** No edit adds to the level a number that the level has already held. */
  ghost predicate FreshAdds(base: seq<File>, es: seq<Edit>, level: nat) {
    es == [] ||
    (var e := es[|es| - 1];
     && FreshAdds(base, es[..|es| - 1], level)
     && DistinctAdds(e, level)
     && forall f :: f in AddedAt(e, level) ==> f.number !in EverHeld(base, es[..|es| - 1], level))
  }

  ghost predicate DistinctNumbers(fs: seq<File>) {
    forall f, g :: f in fs && g in fs && f.number == g.number ==> f == g
  }

  lemma {:induction false} AddsCollect(ls: LevelState, added: seq<(nat, File)>, level: nat)
    requires Ordered(ls.added)
    requires var A := set p | p in added && p.0 == level :: p.1;
             && (forall f, g :: f in A && g in A && f.number == g.number ==> f == g)
             && (forall f, g :: f in A && g in ls.added ==> f.number != g.number)
    ensures var r := ApplyAdds(ls, added, level);
            var A := set p | p in added && p.0 == level :: p.1;
            && Ordered(r.added)
            && (forall f :: f in r.added <==> f in ls.added || f in A)
            && r.deleted == ls.deleted - set f | f in A :: f.number
  {
    if added != [] {
      var n := |added| - 1;
      var A := set p | p in added && p.0 == level :: p.1;
      var B := set p | p in added[..n] && p.0 == level :: p.1;
      assert added == added[..n] + [added[n]];
      assert A == B + if added[n].0 == level then {added[n].1} else {};
      AddsCollect(ls, added[..n], level);
      var ls' := ApplyAdds(ls, added[..n], level);
      if added[n].0 == level {
        var f := added[n].1;
        InsertKeepsOrdered(ls'.added, f);
        if f in ls'.added {
          InsertExisting(ls'.added, f);
        } else {
          assert forall g :: g in ls'.added ==> !Equivalent(f, g);
        }
      }
    }
  }

  lemma {:induction false} InsertExisting(fs: seq<File>, f: File)
    requires Ordered(fs) && f in fs
    ensures InsertOrdered(fs, f) == fs
  {
    assert fs == [fs[0]] + fs[1..];
    if fs[0] != f {
      assert f in fs[1..];
      assert Before(fs[0], f);
      InsertExisting(fs[1..], f);
    }
  }

  /** What one builder over all edits knows: its live files are those of the repeated saves. */
  lemma {:induction false} ReplayInvariant(base: seq<File>, es: seq<Edit>, level: nat)
    requires Ordered(base) && DistinctNumbers(base) && FreshAdds(base, es, level)
    ensures var ls := ApplyEdits(NO_CHANGE, es, level);
            var each := SaveEach(base, es, level);
            && Ordered(ls.added) && Ordered(each)
            && (forall f, g :: f in base && g in ls.added ==> f.number != g.number)
            && (forall f, g :: f in ls.added && g in ls.added && f.number == g.number ==> f == g)
            && (forall f :: f in base || f in ls.added ==> f.number in EverHeld(base, es, level))
            && (forall f :: f in each <==> (f in base || f in ls.added) && f.number !in ls.deleted)
  {
    if es != [] {
      var n := |es| - 1;
      var e := es[n];
      ReplayInvariant(base, es[..n], level);
      var ls := ApplyEdits(NO_CHANGE, es[..n], level);
      var each := SaveEach(base, es[..n], level);
      var gone := NumbersDeleted(e.deleted, level);
      assert NO_CHANGE.deleted + gone == gone;
      AddsCollect(LevelState(ls.deleted + gone, ls.added), e.added, level);
      AddsCollect(LevelState(gone, []), e.added, level);
      var one := ApplyEdit(NO_CHANGE, e, level);
      assert forall f :: f in one.added <==> f in AddedAt(e, level);
      SavedIsOrdered(each, one);
      ReplayStep(base, ls, each, AddedAt(e, level), gone, EverHeld(base, es[..n], level),
                 ApplyEdits(NO_CHANGE, es, level), one);
    }
  }

  lemma ReplayStep(base: seq<File>, ls: LevelState, each: seq<File>, A: set<File>, gone: set<nat>,
                   held: set<nat>, ls': LevelState, one: LevelState)
    requires forall f :: f in base || f in ls.added ==> f.number in held
    requires forall f :: f in A ==> f.number !in held
    requires forall f :: f in each <==> (f in base || f in ls.added) && f.number !in ls.deleted
    requires forall f :: f in ls'.added <==> f in ls.added || f in A
    requires forall f :: f in one.added <==> f in A
    requires ls'.deleted == ls.deleted + gone - set f | f in A :: f.number
    requires one.deleted == gone - set f | f in A :: f.number
    ensures forall f :: f in SaveLevel(each, one) <==>
              (f in base || f in ls'.added) && f.number !in ls'.deleted
  {
  }

  /** Recovering a manifest through one builder gives the version that was current when it closed. */
  lemma ReplayEqualsStepwise(base: seq<File>, es: seq<Edit>, level: nat)
    requires Ordered(base) && DistinctNumbers(base) && FreshAdds(base, es, level)
    ensures SaveLevel(base, ApplyEdits(NO_CHANGE, es, level)) == SaveEach(base, es, level)
    ensures Ordered(SaveEach(base, es, level))
  {
    ReplayInvariant(base, es, level);
    var ls := ApplyEdits(NO_CHANGE, es, level);
    SavedIsOrdered(base, ls);
    OrderedIsUnique(SaveLevel(base, ls), SaveEach(base, es, level));
  }

  // ---------------------------------------------------------------- the builder

  class Builder {
    const base: Version
    var levels: seq<LevelState>

    ghost predicate Valid()
      reads this
    {
      |base| == |levels| == NUM_LEVELS
    }

    constructor (base: Version)
      requires |base| == NUM_LEVELS
      ensures Valid() && this.base == base
      ensures forall l :: 0 <= l < NUM_LEVELS ==> levels[l] == NO_CHANGE
    {
      this.base := base;
      levels := seq(NUM_LEVELS, _ => NO_CHANGE);
    }

    method Apply(e: Edit)
      requires Valid()
      requires forall p :: p in e.deleted ==> p.0 < NUM_LEVELS
      requires forall p :: p in e.added ==> p.0 < NUM_LEVELS
      modifies this
      ensures Valid()
      ensures forall l :: 0 <= l < NUM_LEVELS ==> levels[l] == ApplyEdit(old(levels)[l], e, l)
    {
      DeleteFiles(e.deleted);
      ghost var mid := levels;
      for i := 0 to |e.added|
        invariant Valid()
        invariant forall l :: 0 <= l < NUM_LEVELS ==>
          levels[l] == ApplyAdds(mid[l], e.added[..i], l)
      {
        var (l, f) := e.added[i];
        assert e.added[..i + 1][..i] == e.added[..i];
        var ls := levels[l];
        levels := levels[l := LevelState(ls.deleted - {f.number}, InsertOrdered(ls.added, f))];
      }
      assert e.added[..|e.added|] == e.added;
    }

    method DeleteFiles(deleted: set<(nat, nat)>)
      requires Valid()
      requires forall p :: p in deleted ==> p.0 < NUM_LEVELS
      modifies this
      ensures Valid() && WithDeletions(old(levels), levels, deleted)
    {
      hide WithDeletions;
      var todo := deleted;
      ghost var done: set<(nat, nat)> := {};
      NoDeletions(levels);
      while todo != {}
        invariant Valid() && todo <= deleted && done == deleted - todo
        invariant WithDeletions(old(levels), levels, done)
        decreases |todo|
      {
        var p :| p in todo;
        OneMoreDeletion(old(levels), levels, done, p);
        levels := levels[p.0 := levels[p.0].(deleted := levels[p.0].deleted + {p.1})];
        done := done + {p};
        todo := todo - {p};
      }
      assert done == deleted;
    }

    method SaveTo(level: nat) returns (files: seq<File>)
      requires Valid() && level < NUM_LEVELS
      ensures files == SaveLevel(base[level], levels[level])
    {
      files := SaveFiles(base[level], levels[level].added, levels[level].deleted);
    }
  }

  /** `files` holds what the merge has passed; the rest is still in `base[b..]` and `added[a..]`. */
  ghost predicate Saving(base: seq<File>, added: seq<File>, deleted: set<nat>, b: nat, a: nat, files: seq<File>) {
    && b <= |base| && a <= |added|
    && files + Live(MergeFiles(base[b..], added[a..]), deleted) == Live(MergeFiles(base, added), deleted)
  }

  lemma SavingStarts(base: seq<File>, added: seq<File>, deleted: set<nat>)
    ensures Saving(base, added, deleted, 0, 0, [])
  {
    assert base[0..] == base && added[0..] == added;
  }

  lemma SavingTakesBase(base: seq<File>, added: seq<File>, deleted: set<nat>, b: nat, a: nat, files: seq<File>)
    requires Saving(base, added, deleted, b, a, files) && b < |base|
    requires a < |added| ==> !Before(added[a], base[b])
    ensures Saving(base, added, deleted, b + 1, a, MaybeAddFile(files, deleted, base[b]))
  {
    var m := MergeFiles(base[b..], added[a..]);
    assert base[b..][1..] == base[b + 1..];
    assert m[0] == base[b] && m[1..] == MergeFiles(base[b + 1..], added[a..]);
    LiveStep(files, m, deleted);
  }

  lemma SavingTakesAdded(base: seq<File>, added: seq<File>, deleted: set<nat>, b: nat, a: nat, files: seq<File>)
    requires Saving(base, added, deleted, b, a, files) && a < |added|
    requires b < |base| ==> Before(added[a], base[b])
    ensures Saving(base, added, deleted, b, a + 1, MaybeAddFile(files, deleted, added[a]))
  {
    var m := MergeFiles(base[b..], added[a..]);
    assert added[a..][1..] == added[a + 1..];
    assert m[0] == added[a] && m[1..] == MergeFiles(base[b..], added[a + 1..]);
    LiveStep(files, m, deleted);
  }

  lemma SavingEnds(base: seq<File>, added: seq<File>, deleted: set<nat>, files: seq<File>)
    requires Saving(base, added, deleted, |base|, |added|, files)
    ensures files == Live(MergeFiles(base, added), deleted)
  {
  }

  /** SaveTo for one level: the base files up to each added file, then that file, then the rest. */
  method SaveFiles(base: seq<File>, added: seq<File>, deleted: set<nat>) returns (files: seq<File>)
    ensures files == Live(MergeFiles(base, added), deleted)
  {
    hide *;
    var b := 0;
    files := [];
    SavingStarts(base, added, deleted);
    var a := 0;
    while a < |added|
      invariant 0 <= a <= |added| && 0 <= b <= |base|
      invariant Saving(base, added, deleted, b, a, files)
    {
      while b < |base| && !Before(added[a], base[b])
        invariant 0 <= b <= |base|
        invariant Saving(base, added, deleted, b, a, files)
      {
        SavingTakesBase(base, added, deleted, b, a, files);
        files := MaybeAddFile(files, deleted, base[b]);
        b := b + 1;
      }
      SavingTakesAdded(base, added, deleted, b, a, files);
      files := MaybeAddFile(files, deleted, added[a]);
      a := a + 1;
    }
    while b < |base|
      invariant 0 <= b <= |base|
      invariant Saving(base, added, deleted, b, a, files)
    {
      SavingTakesBase(base, added, deleted, b, a, files);
      files := MaybeAddFile(files, deleted, base[b]);
      b := b + 1;
    }
    SavingEnds(base, added, deleted, files);
  }

  function MaybeAddFile(files: seq<File>, deleted: set<nat>, f: File): (r: seq<File>) {
    if f.number in deleted then files else files + [f]
  }

  lemma LiveStep(files: seq<File>, rest: seq<File>, deleted: set<nat>)
    requires rest != []
    ensures files + Live(rest, deleted)
            == MaybeAddFile(files, deleted, rest[0]) + Live(rest[1..], deleted)
  {
  }

  /** Every level has the deletions of its own added. */
  ghost predicate WithDeletions(was: seq<LevelState>, now: seq<LevelState>, deleted: set<(nat, nat)>) {
    && |was| == |now|
    && forall l :: 0 <= l < |now| ==>
         now[l] == LevelState(was[l].deleted + NumbersDeleted(deleted, l), was[l].added)
  }

  lemma NoDeletions(levels: seq<LevelState>)
    ensures WithDeletions(levels, levels, {})
  {
    forall l | 0 <= l < |levels|
      ensures levels[l] == LevelState(levels[l].deleted + NumbersDeleted({}, l), levels[l].added)
    {
      assert levels[l].deleted + NumbersDeleted({}, l) == levels[l].deleted;
    }
  }

  lemma OneMoreDeletion(was: seq<LevelState>, now: seq<LevelState>, done: set<(nat, nat)>, p: (nat, nat))
    requires WithDeletions(was, now, done) && p.0 < |now|
    ensures WithDeletions(was, now[p.0 := now[p.0].(deleted := now[p.0].deleted + {p.1})], done + {p})
  {
    var now' := now[p.0 := now[p.0].(deleted := now[p.0].deleted + {p.1})];
    forall l | 0 <= l < |now'|
      ensures now'[l] == LevelState(was[l].deleted + NumbersDeleted(done + {p}, l), was[l].added)
    {
      OneMoreDeleted(done, p, l);
    }
  }

  lemma OneMoreDeleted(done: set<(nat, nat)>, p: (nat, nat), l: nat)
    ensures NumbersDeleted(done + {p}, l)
            == NumbersDeleted(done, l) + if p.0 == l then {p.1} else {}
  {
  }
}
