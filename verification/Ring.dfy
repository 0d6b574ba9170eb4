/** The circular list of cache handles around a dummy (util/leveldb/util/cache.cc: LRU_Remove, LRU_Append). */
module Ring {
  import opened Common

  type Ref = nat
  const DUMMY: Ref := 0

  datatype Links = Links(prev: map<Ref, Ref>, next: map<Ref, Ref>)

  /** The handle at a position, counting from the oldest; the dummy outside the list. */
  function At(s: seq<Ref>, i: int): (r: Ref) {
    if 0 <= i < |s| then s[i] else DUMMY
  }

  /** The neighbour on the older side of position `i`. */
  function Before(s: seq<Ref>, i: int): (r: Ref) {
    At(s, i - 1)
  }

  ghost predicate Distinct(s: seq<Ref>) {
    && DUMMY !in s && forall i, j :: 0 <= i < j < |s| ==> s[i] != s[j]
  }

  /** Going round from the dummy meets exactly the handles `s`, in either direction. */
  ghost predicate Linked(m: Links, s: seq<Ref>) {
    && Distinct(s)
    && (forall i :: 0 <= i <= |s| ==> Before(s, i) in m.next && m.next[Before(s, i)] == At(s, i))
    && (forall i :: 0 <= i <= |s| ==> At(s, i) in m.prev && m.prev[At(s, i)] == Before(s, i))
  }

  lemma NextOf(m: Links, s: seq<Ref>, i: nat)
    requires Linked(m, s) && i <= |s|
    ensures Before(s, i) in m.next && m.next[Before(s, i)] == At(s, i)
    ensures At(s, i) in m.prev && m.prev[At(s, i)] == Before(s, i)
  {
    hide At;
  }

  lemma SameAt(s: seq<Ref>, i: int, j: int)
    requires Distinct(s) && -1 <= i <= |s| && -1 <= j <= |s|
    ensures At(s, i) == At(s, j) <==> i == j || (At(s, i) == DUMMY && At(s, j) == DUMMY)
    ensures At(s, i) == DUMMY <==> i == -1 || i == |s|
    ensures At(s, j) == DUMMY <==> j == -1 || j == |s|
  {
  }

  function Remove(m: Links, e: Ref): (m': Links)
    requires e in m.next && e in m.prev
  {
    var p, n := m.prev[e], m.next[e];
    Links(m.prev[n := p], m.next[p := n])
  }

  function Append(m: Links, e: Ref): (m': Links)
    requires DUMMY in m.prev
  {
    var last := m.prev[DUMMY];
    Links(m.prev[e := last][DUMMY := e], m.next[e := DUMMY][last := e])
  }

  lemma RemovedAt(s: seq<Ref>, i: nat, k: int)
    requires i < |s| && -1 <= k <= |s| - 1
    ensures At(Removed(s, i), k) == At(s, if k < i then k else k + 1)
  {
  }

  lemma RemoveLinks(m: Links, s: seq<Ref>, i: nat)
    requires Linked(m, s) && i < |s|
    ensures s[i] in m.next && s[i] in m.prev && Linked(Remove(m, s[i]), Removed(s, i))
  {
    hide Linked, At, Removed;
    EntryOf(m, s, i);
    var m', r := Remove(m, s[i]), Removed(s, i);
    RemovedDistinct(m, s, i);
    forall k | 0 <= k <= |r|
      ensures Before(r, k) in m'.next && m'.next[Before(r, k)] == At(r, k)
      ensures At(r, k) in m'.prev && m'.prev[At(r, k)] == Before(r, k)
    {
      RemoveLinkAt(m, s, i, k);
    }
    LinkedFrom(m', r);
  }

  lemma EntryOf(m: Links, s: seq<Ref>, i: nat)
    requires Linked(m, s) && i < |s|
    ensures s[i] in m.next && s[i] in m.prev && m.next[s[i]] == At(s, i + 1) && m.prev[s[i]] == Before(s, i)
    ensures s[i] == At(s, i) && DUMMY in m.prev && DUMMY in m.next
    ensures m.prev[DUMMY] == At(s, |s| - 1) && m.next[DUMMY] == At(s, 0)
  {
    NextOf(m, s, i);
    NextOf(m, s, i + 1);
    NextOf(m, s, |s|);
    NextOf(m, s, 0);
  }

  lemma RemovedDistinct(m: Links, s: seq<Ref>, i: nat)
    requires Linked(m, s) && i < |s|
    ensures Distinct(Removed(s, i)) && Distinct(s)
  {
    hide At;
    var r := Removed(s, i);
    forall k | 0 <= k < |r|
      ensures r[k] != DUMMY
    {
      assert r[k] == s[if k < i then k else k + 1] && r[k] in s;
    }
  }

  lemma RemoveLinkAt(m: Links, s: seq<Ref>, i: nat, k: nat)
    requires Linked(m, s) && i < |s| && k <= |s| - 1
    ensures s[i] in m.next && s[i] in m.prev
    ensures var m', r := Remove(m, s[i]), Removed(s, i);
            && Before(r, k) in m'.next && m'.next[Before(r, k)] == At(r, k)
            && At(r, k) in m'.prev && m'.prev[At(r, k)] == Before(r, k)
  {
    hide Linked, At, Removed;
    EntryOf(m, s, i);
    RemovedDistinct(m, s, i);
    RemovedAt(s, i, k - 1);
    RemovedAt(s, i, k);
    var a := if k - 1 < i then k - 1 else k;
    var b := if k < i then k else k + 1;
    NextOf(m, s, a + 1);
    NextOf(m, s, b);
    SameAt(s, a, i - 1);
    SameAt(s, b, i + 1);
  }

  lemma LinkedFrom(m: Links, s: seq<Ref>)
    requires Distinct(s)
    requires forall i :: 0 <= i <= |s| ==> Before(s, i) in m.next && m.next[Before(s, i)] == At(s, i)
    requires forall i :: 0 <= i <= |s| ==> At(s, i) in m.prev && m.prev[At(s, i)] == Before(s, i)
    ensures Linked(m, s)
  {
  }

  lemma AppendLinks(m: Links, s: seq<Ref>, e: Ref)
    requires Linked(m, s) && e != DUMMY && e !in s
    ensures DUMMY in m.prev && Linked(Append(m, e), s + [e])
  {
    hide Linked, At;
    NextOf(m, s, |s|);
    AtEnds(s);
    var m', r := Append(m, e), s + [e];
    AppendDistinct(m, s, e);
    forall k | 0 <= k <= |r|
      ensures Before(r, k) in m'.next && m'.next[Before(r, k)] == At(r, k)
      ensures At(r, k) in m'.prev && m'.prev[At(r, k)] == Before(r, k)
    {
      AppendLinkAt(m, s, e, k);
    }
    LinkedFrom(m', r);
  }

  lemma AtEnds(s: seq<Ref>)
    ensures At(s, |s|) == DUMMY && At(s, -1) == DUMMY
  {
  }

  lemma AppendDistinct(m: Links, s: seq<Ref>, e: Ref)
    requires Linked(m, s) && e != DUMMY && e !in s
    ensures Distinct(s) && Distinct(s + [e])
  {
    hide At;
    assert forall i :: 0 <= i < |s| ==> s[i] in s;
  }

  lemma AppendLinkAt(m: Links, s: seq<Ref>, e: Ref, k: nat)
    requires Linked(m, s) && e != DUMMY && e !in s && k <= |s| + 1
    ensures DUMMY in m.prev
    ensures var m', r := Append(m, e), s + [e];
            && Before(r, k) in m'.next && m'.next[Before(r, k)] == At(r, k)
            && At(r, k) in m'.prev && m'.prev[At(r, k)] == Before(r, k)
  {
    hide Linked;
    NextOf(m, s, |s|);
    AppendDistinct(m, s, e);
    if k <= |s| {
      NextOf(m, s, k);
      SameAt(s, k - 1, |s| - 1);
      assert k > 0 ==> s[k - 1] in s;
      assert k < |s| ==> s[k] in s;
    }
  }

  lemma EmptyRing()
    ensures Linked(Links(map[DUMMY := DUMMY], map[DUMMY := DUMMY]), [])
  {
  }
}
