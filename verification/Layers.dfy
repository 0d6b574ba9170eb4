/**
Searching layers that are not all ordered by age: what a lookup finds after entries have moved from
one layer into the next (util/leveldb/db/version_set.cc, Version::Get; the memtables before it in
util/leveldb/db/db_impl.cc, DBImpl::Get).
 */
module Layers {
  import opened Keys
  import opened History
  import opened Versions

  ghost function Union(layers: seq<set<Entry>>): set<Entry> {
    set k, e | 0 <= k < |layers| && e in layers[k] :: e
  }

  /** Earlier layers are newer, key by key. */
  ghost predicate ByAge(layers: seq<set<Entry>>) {
    forall i, j :: 0 <= i < j < |layers| ==> Newer(layers[i], layers[j])
  }

  /** Every search at `m` or later ends at the newest entry of all layers. */
  ghost predicate FindsNewest(layers: seq<set<Entry>>, m: Sequence) {
    forall u, s: Sequence, r :: s >= m && LayerHit(layers, u, s, r) ==> FoundIn(Union(layers), u, s, r)
  }

  /** Where layers are ordered by age, the first hit is the newest of all. */
  lemma FirstHitIsNewest(layers: seq<set<Entry>>, u: UserKey, s: Sequence, r: Option<Entry>)
    requires ByAge(layers) && LayerHit(layers, u, s, r)
    ensures FoundIn(Union(layers), u, s, r)
  {
    if r.Some? {
      var k: nat :| HitsAt(layers, u, s, r.value, k);
      assert r.value in Union(layers);
      forall t | t in Union(layers) && Visible(t, u, s) && t != r.value
        ensures t.key.sn < r.value.key.sn
      {
        var l :| 0 <= l < |layers| && t in layers[l];
        if k < l {
          AgeOf(layers, k, l, r.value, t);
        }
      }
    }
  }

  /** Some entries of layer `p` have moved into the next one, and some of both are gone. */
  ghost predicate MovesDown(was: seq<set<Entry>>, now: seq<set<Entry>>, p: nat) {
    && |was| == |now| && p + 1 < |was|
    && (forall k :: 0 <= k < |was| && k != p && k != p + 1 ==> now[k] == was[k])
    && now[p] <= was[p] && now[p + 1] <= was[p] + was[p + 1] && now[p] !! now[p + 1]
  }

  /** An entry before or beside it hides `x` from every search at `m` or later. */
  ghost predicate Hidden(now: seq<set<Entry>>, p: nat, m: Sequence, x: Entry) {
    exists k, e :: 0 <= k <= p && k < |now| && e in now[k] && Hides(e, m, x)
  }

  predicate Hides(e: Entry, m: Sequence, x: Entry) {
    e.key.user == x.key.user && x.key.sn < e.key.sn <= m
  }

  /** Whatever came down over something that stays is hidden anyway. */
  ghost predicate NothingShows(was: seq<set<Entry>>, now: seq<set<Entry>>, p: nat, m: Sequence)
    requires p + 1 < |was| == |now|
  {
    forall x, y :: x in now[p + 1] && x in was[p] && y in now[p] && y.key.user == x.key.user && y.key.sn < x.key.sn ==>
      Hidden(now, p, m, x)
  }

  lemma FromBefore(was: seq<set<Entry>>, now: seq<set<Entry>>, p: nat, k: nat, e: Entry) returns (k': nat)
    requires MovesDown(was, now, p) && k < |now| && e in now[k]
    ensures k' < |was| && e in was[k'] && (k' == k || (k == p + 1 && k' == p))
  {
    k' := if k == p + 1 && e !in was[k] then p else k;
  }

  lemma AgeOf(layers: seq<set<Entry>>, i: nat, j: nat, a: Entry, b: Entry)
    requires ByAge(layers) && i < j < |layers| && a in layers[i] && b in layers[j] && a.key.user == b.key.user
    ensures a.key.sn > b.key.sn
  {
    assert Newer(layers[i], layers[j]);
  }

  /** If nothing shows, the first hit is the newest of all. */
  lemma HitIsNewest(was: seq<set<Entry>>, now: seq<set<Entry>>, p: nat, m: Sequence, u: UserKey, s: Sequence,
                    r: Entry, k: nat, t: Entry, l: nat)
    requires MovesDown(was, now, p) && ByAge(was) && UniqueSequences(Union(was)) && NothingShows(was, now, p, m)
    requires s >= m && HitsAt(now, u, s, r, k) && l < |now| && t in now[l] && Visible(t, u, s) && t != r
    ensures t.key.sn < r.key.sn
  {
    assert l >= k;
    if l > k {
      var k' := FromBefore(was, now, p, k, r);
      var l' := FromBefore(was, now, p, l, t);
      if k' < l' {
        AgeOf(was, k', l', r, t);
      } else {
        assert k == p && l == p + 1 && l' == p;
        NoneOver(was, now, p, m, u, s, r, t);
      }
    }
  }

  lemma NoneOver(was: seq<set<Entry>>, now: seq<set<Entry>>, p: nat, m: Sequence, u: UserKey, s: Sequence,
                 r: Entry, t: Entry)
    requires MovesDown(was, now, p) && UniqueSequences(Union(was)) && NothingShows(was, now, p, m)
    requires s >= m && HitsAt(now, u, s, r, p) && t in now[p + 1] && t in was[p] && Visible(t, u, s)
    ensures t.key.sn < r.key.sn
  {
    SameSequence(was, p, r, t);
  }

  /** After a move down, searches find the newest entry if and only if nothing shows that came down over what stays. */
  lemma FindsNewestIff(was: seq<set<Entry>>, now: seq<set<Entry>>, p: nat, m: Sequence)
    requires MovesDown(was, now, p) && ByAge(was) && UniqueSequences(Union(was))
    ensures FindsNewest(now, m) <==> NothingShows(was, now, p, m)
  {
    if NothingShows(was, now, p, m) {
      forall u, s: Sequence, r | s >= m && LayerHit(now, u, s, r)
        ensures FoundIn(Union(now), u, s, r)
      {
        if r.Some? {
          var k: nat :| HitsAt(now, u, s, r.value, k);
          HitInUnion(was, now, p, m, u, s, r.value, k);
        }
      }
    } else {
      var x, y :| && x in now[p + 1] && x in was[p] && y in now[p] && y.key.user == x.key.user && y.key.sn < x.key.sn
                  && !Hidden(now, p, m, x);
      var s, r := StaleHit(was, now, p, m, x, y);
      assert LayerHit(now, x.key.user, s, Some(r));
      assert x in Union(now) && Visible(x, x.key.user, s);
      assert !FoundIn(Union(now), x.key.user, s, Some(r));
    }
  }

  lemma HitInUnion(was: seq<set<Entry>>, now: seq<set<Entry>>, p: nat, m: Sequence, u: UserKey, s: Sequence,
                   r: Entry, k: nat)
    requires MovesDown(was, now, p) && ByAge(was) && UniqueSequences(Union(was)) && NothingShows(was, now, p, m)
    requires s >= m && HitsAt(now, u, s, r, k)
    ensures FoundIn(Union(now), u, s, Some(r))
  {
    assert r in Union(now);
    forall t | t in Union(now) && Visible(t, u, s) && t != r
      ensures t.key.sn < r.key.sn
    {
      var l :| 0 <= l < |now| && t in now[l];
      HitIsNewest(was, now, p, m, u, s, r, k, t, l);
    }
  }

  /** The search that goes wrong: late enough to see `x`, too early for anything that would hide it. */
  lemma StaleHit(was: seq<set<Entry>>, now: seq<set<Entry>>, p: nat, m: Sequence, x: Entry, y: Entry)
    returns (s: Sequence, r: Entry)
    requires MovesDown(was, now, p) && ByAge(was) && UniqueSequences(Union(was))
    requires x in now[p + 1] && x in was[p] && y in now[p] && y.key.user == x.key.user && y.key.sn < x.key.sn
    requires !Hidden(now, p, m, x)
    ensures s >= m && x.key.sn <= s && r.key.sn < x.key.sn && HitsAt(now, x.key.user, s, r, p)
  {
    var u := x.key.user;
    s := if m < x.key.sn then x.key.sn else m;
    assert UniqueSequences(now[p]) by {
      assert now[p] <= Union(was);
    }
    assert Visible(y, u, s);
    var found := NewestExists(now[p], u, s);
    r := found.value;
    forall k | 0 <= k < p
      ensures NoneVisible(now[k], u, s)
    {
      forall e | e in now[k]
        ensures !Visible(e, u, s)
      {
        if Visible(e, u, s) {
          AgeOf(was, k, p, e, x);
          assert Hides(e, m, x);
        }
      }
    }
    SameSequence(was, p, r, x);
    if r.key.sn > x.key.sn {
      assert Hides(r, m, x);
    }
  }

  lemma SameSequence(was: seq<set<Entry>>, p: nat, r: Entry, t: Entry)
    requires p < |was| && UniqueSequences(Union(was)) && r in was[p] && t in was[p]
    ensures r.key.sn == t.key.sn ==> r == t
  {
    assert r in Union(was) && t in Union(was);
  }

  /** Every search has an outcome. */
  lemma {:induction false} HitExists(layers: seq<set<Entry>>, u: UserKey, s: Sequence) returns (r: Option<Entry>)
    requires forall k :: 0 <= k < |layers| ==> UniqueSequences(layers[k])
    ensures LayerHit(layers, u, s, r)
  {
    r := None;
    var k := 0;
    while k < |layers|
      invariant 0 <= k <= |layers| && r == None && forall j :: 0 <= j < k ==> NoneVisible(layers[j], u, s)
    {
      r := NewestExists(layers[k], u, s);
      if r.Some? {
        assert HitsAt(layers, u, s, r.value, k);
        return;
      }
      k := k + 1;
    }
  }

  /** Two silent layers in front do not change the outcome. */
  lemma HitBehind(a: set<Entry>, b: set<Entry>, layers: seq<set<Entry>>, u: UserKey, s: Sequence, r: Option<Entry>)
    requires NoneVisible(a, u, s) && NoneVisible(b, u, s) && LayerHit(layers, u, s, r)
    ensures LayerHit([a, b] + layers, u, s, r)
  {
    hide NoneVisible, IsNewest;
    var all := [a, b] + layers;
    if r.Some? {
      var k: nat :| HitsAt(layers, u, s, r.value, k);
      assert HitsAt(all, u, s, r.value, k + 2);
    }
  }
}
