/**
The abstract store: a set of (user key, sequence, value or tombstone) entries, read at a
sequence number.  Everything the engine does is measured against reads of such a set.
 */
module History {
  import opened Keys

  predicate Visible(e: Entry, u: UserKey, s: Sequence) {
    e.key.user == u && e.key.sn <= s
  }

  ghost predicate IsNewest(S: set<Entry>, u: UserKey, s: Sequence, e: Entry) {
    && e in S
    && Visible(e, u, s)
    && forall o :: o in S && Visible(o, u, s) && o != e ==> o.key.sn < e.key.sn
  }

  ghost predicate NoneVisible(S: set<Entry>, u: UserKey, s: Sequence) {
    forall e :: e in S ==> !Visible(e, u, s)
  }

  ghost predicate FoundIn(S: set<Entry>, u: UserKey, s: Sequence, r: Option<Entry>) {
    match r
    case None => NoneVisible(S, u, s)
    case Some(e) => IsNewest(S, u, s, e)
  }

  /** Every write has a sequence number of its own. */
  ghost predicate UniqueSequences(S: set<Entry>) {
    forall a, b :: a in S && b in S && a.key.sn == b.key.sn ==> a == b
  }

  lemma NewestExists(S: set<Entry>, u: UserKey, s: Sequence) returns (r: Option<Entry>)
    requires UniqueSequences(S)
    ensures FoundIn(S, u, s, r)
    decreases |S|
  {
    if e :| e in S {
      var rest := S - {e};
      r := NewestExists(rest, u, s);
      if Visible(e, u, s) && (r.None? || r.value.key.sn < e.key.sn) {
        r := Some(e);
      } else if r.Some? && Visible(e, u, s) {
        assert r.value.key.sn != e.key.sn;
      }
    } else {
      r := None;
    }
  }

  /** The newest entry for `u` with sequence at most `s`. */
  ghost function Find(S: set<Entry>, u: UserKey, s: Sequence): (r: Option<Entry>)
    requires UniqueSequences(S)
    ensures FoundIn(S, u, s, r)
  {
    assert exists r :: FoundIn(S, u, s, r) by {
      var r := NewestExists(S, u, s);
    }
    var r :| FoundIn(S, u, s, r);
    r
  }

  lemma FoundIsFind(S: set<Entry>, u: UserKey, s: Sequence, r: Option<Entry>)
    requires UniqueSequences(S) && FoundIn(S, u, s, r)
    ensures r == Find(S, u, s)
  {
  }

  /** A tombstone and the absence of any entry are both "not found". */
  function Answer(r: Option<Entry>): (a: Option<Payload>) {
    if r.Some? && r.value.key.kind.Value? then Some(r.value.value) else None
  }

  ghost function Read(S: set<Entry>, u: UserKey, s: Sequence): Option<Payload>
    requires UniqueSequences(S)
  {
    Answer(Find(S, u, s))
  }

  /** Both sets answer every read at sequence `m` or later alike. */
  ghost predicate SameReads(A: set<Entry>, B: set<Entry>, m: Sequence)
    requires UniqueSequences(A) && UniqueSequences(B)
  {
    forall u, s: Sequence :: s >= m ==> Read(A, u, s) == Read(B, u, s)
  }

  /** For one user key, all of `A` was written after all of `B`. */
  ghost predicate Newer(A: set<Entry>, B: set<Entry>) {
    forall a, b :: a in A && b in B && a.key.user == b.key.user ==> a.key.sn > b.key.sn
  }

  /** Hidden from every read at `m` or later by a newer entry that such a read prefers. */
  ghost predicate Shadowed(S: set<Entry>, m: Sequence, d: Entry) {
    exists e :: e in S && e.key.user == d.key.user && d.key.sn < e.key.sn <= m
  }

  /** Without `D`, a read at `m` finds a value that the deletion `d` hid before. */
  ghost predicate Uncovers(S: set<Entry>, D: set<Entry>, m: Sequence, d: Entry) {
    && IsNewest(S, d.key.user, m, d)
    && exists e :: IsNewest(S - D, d.key.user, m, e) && e.key.kind.Value?
  }

  /**
  Dropping shadowed entries and old deletions changes no read at `m` or later if and only if no
  dropped deletion was hiding a value that stays.
   */
  lemma DropKeepsReads(S: set<Entry>, D: set<Entry>, m: Sequence)
    requires UniqueSequences(S) && D <= S
    requires forall d :: d in D ==> Shadowed(S, m, d) || (d.key.kind.Deletion? && d.key.sn <= m)
    ensures UniqueSequences(S - D)
    ensures SameReads(S, S - D, m) <==> forall d :: d in D ==> !Uncovers(S, D, m, d)
  {
    if SameReads(S, S - D, m) {
      forall d | d in D
        ensures !Uncovers(S, D, m, d)
      {
        HiddenReadIsNone(S, D, m, d);
      }
    }
    if forall d :: d in D ==> !Uncovers(S, D, m, d) {
      forall u, s: Sequence | s >= m
        ensures Read(S, u, s) == Read(S - D, u, s)
      {
        ReadStays(S, D, m, u, s);
      }
    }
  }

  lemma HiddenReadIsNone(S: set<Entry>, D: set<Entry>, m: Sequence, d: Entry)
    requires UniqueSequences(S) && D <= S && d in D
    requires Shadowed(S, m, d) || (d.key.kind.Deletion? && d.key.sn <= m)
    requires Read(S, d.key.user, m) == Read(S - D, d.key.user, m)
    ensures !Uncovers(S, D, m, d)
  {
    if Uncovers(S, D, m, d) {
      var e :| IsNewest(S - D, d.key.user, m, e) && e.key.kind.Value?;
      FoundIsFind(S, d.key.user, m, Some(d));
      FoundIsFind(S - D, d.key.user, m, Some(e));
    }
  }

  lemma ReadStays(S: set<Entry>, D: set<Entry>, m: Sequence, u: UserKey, s: Sequence)
    requires UniqueSequences(S) && D <= S && s >= m
    requires forall d :: d in D ==> Shadowed(S, m, d) || (d.key.kind.Deletion? && d.key.sn <= m)
    requires forall d :: d in D ==> !Uncovers(S, D, m, d)
    ensures Read(S, u, s) == Read(S - D, u, s)
  {
    var r := Find(S, u, s);
    var r' := Find(S - D, u, s);
    if r.None? || r.value !in D {
      FoundIsFind(S - D, u, s, r);
    } else {
      var d := r.value;
      assert !Shadowed(S, m, d);
      assert IsNewest(S, u, m, d);
      if r'.Some? {
        assert IsNewest(S - D, u, m, r'.value);
      }
    }
  }

  /** New writes beyond every sequence in use leave old snapshots as they were. */
  lemma NewerWritesKeepReads(S: set<Entry>, W: set<Entry>, u: UserKey, s: Sequence)
    requires UniqueSequences(S) && UniqueSequences(S + W)
    requires forall e :: e in W ==> e.key.sn > s
    ensures Read(S + W, u, s) == Read(S, u, s)
  {
    var r := Find(S, u, s);
    assert FoundIn(S + W, u, s, r);
  }
}
