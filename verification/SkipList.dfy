/**
The memtable's skip list with one writer and concurrent readers (util/leveldb/db/skiplist.h).
Links are single memory cells; a reader may see a different state of the list at every load.
 */
module SkipList {

  type Ref = nat
  const NULL: Ref := 0
  const MAX_HEIGHT: nat := 12

  /** The cells of the list: a node's key, and its link at each level. */
  datatype List = List(key: map<Ref, int>, next: seq<map<Ref, Ref>>, head: Ref, height: nat)

  function At(s: seq<Ref>, i: int): (r: Ref) {
    if 0 <= i < |s| then s[i] else NULL
  }

  /** The node in front of position `i`. */
  function Behind(head: Ref, s: seq<Ref>, i: nat): (r: Ref)
    requires i <= |s|
  {
    if i == 0 then head else s[i - 1]
  }

  ghost predicate Ascending(key: map<Ref, int>, s: seq<Ref>) {
    && (forall i :: 0 <= i < |s| ==> s[i] in key)
    && (forall i, j :: 0 <= i < j < |s| ==> key[s[i]] < key[s[j]])
  }

  /** Following the links of one level from the head gives the nodes `s`, in ascending order. */
  ghost predicate LevelOk(key: map<Ref, int>, next: map<Ref, Ref>, head: Ref, s: seq<Ref>) {
    && head != NULL && head !in s && NULL !in s && Ascending(key, s)
    && (forall i :: 0 <= i <= |s| ==> Behind(head, s, i) in next && next[Behind(head, s, i)] == At(s, i))
  }

  ghost predicate Within(a: seq<Ref>, b: seq<Ref>) {
    forall n :: n in a ==> n in b
  }

  /** Every level is such a list, and a sublist of the level below. */
  ghost predicate Good(l: List, lv: seq<seq<Ref>>) {
    && |l.next| == |lv| == MAX_HEIGHT && 1 <= l.height <= MAX_HEIGHT
    && (forall i :: 0 <= i < MAX_HEIGHT ==> LevelOk(l.key, l.next[i], l.head, lv[i]))
    && (forall i, j :: 0 <= i < j < MAX_HEIGHT ==> Within(lv[j], lv[i]))
    && (forall i :: l.height <= i < MAX_HEIGHT ==> lv[i] == [])
  }

  /** Nodes never leave the list, and keys never change. */
  ghost predicate Grows(l: List, lv: seq<seq<Ref>>, l': List, lv': seq<seq<Ref>>) {
    && |lv| == |lv'| == MAX_HEIGHT && l'.head == l.head && l'.height >= l.height
    && (forall n :: n in l.key ==> n in l'.key && l'.key[n] == l.key[n])
    && (forall i :: 0 <= i < MAX_HEIGHT ==> Within(lv[i], lv'[i]))
  }

  // ---------------------------------------------------------------- one load

  /** The reader stands on the head, or on a node of the level with a smaller key. */
  ghost predicate Standing(l: List, lv: seq<seq<Ref>>, level: nat, x: Ref, target: int) {
    && level < |lv| == MAX_HEIGHT
    && (x == l.head || (x in lv[level] && x in l.key && l.key[x] < target))
  }

  /** Position `i` splits the level into smaller keys and keys that are not smaller. */
  ghost predicate Splits(key: map<Ref, int>, s: seq<Ref>, i: nat, target: int)
    requires Ascending(key, s)
  {
    && i <= |s|
    && (forall k :: 0 <= k < i ==> key[s[k]] < target)
    && (forall k :: i <= k < |s| ==> key[s[k]] >= target)
  }

  lemma Load(l: List, lv: seq<seq<Ref>>, level: nat, x: Ref, target: int) returns (i: nat)
    requires Good(l, lv) && Standing(l, lv, level, x, target)
    ensures x in l.next[level] && i <= |lv[level]| && x == Behind(l.head, lv[level], i)
    ensures l.next[level][x] == At(lv[level], i)
    ensures l.next[level][x] != NULL ==> l.next[level][x] in lv[level] && l.next[level][x] in l.key
    ensures Ascending(l.key, lv[level])
    ensures (l.next[level][x] == NULL || l.key[l.next[level][x]] >= target) ==> Splits(l.key, lv[level], i, target)
  {
    var s := lv[level];
    assert LevelOk(l.key, l.next[level], l.head, s);
    if x == l.head {
      i := 0;
    } else {
      var j :| 0 <= j < |s| && s[j] == x;
      i := j + 1;
    }
    assert x == Behind(l.head, s, i);
  }

  // ---------------------------------------------------------------- searching while the list grows

  /** What a reader loads over time: good states, each at least as large as the one before. */
  ghost predicate History(obs: nat -> List, lv: nat -> seq<seq<Ref>>) {
    && (forall k :: Good(obs(k), lv(k)))
    && (forall k, k' :: k <= k' ==> Grows(obs(k), lv(k), obs(k'), lv(k')))
  }

  lemma StillStanding(obs: nat -> List, lv: nat -> seq<seq<Ref>>, k: nat, level: nat, x: Ref, target: int)
    requires History(obs, lv) && Standing(obs(k), lv(k), level, x, target)
    ensures Standing(obs(k + 1), lv(k + 1), level, x, target)
  {
    assert Grows(obs(k), lv(k), obs(k + 1), lv(k + 1));
    assert Within(lv(k)[level], lv(k + 1)[level]);
  }

  lemma StandingLower(l: List, lv: seq<seq<Ref>>, level: nat, x: Ref, target: int)
    requires Good(l, lv) && Standing(l, lv, level, x, target) && level > 0
    ensures Standing(l, lv, level - 1, x, target)
  {
    assert Within(lv[level], lv[level - 1]);
  }

  /** `p` is the last node of the level with a key below the target, or the head. */
  ghost predicate IsPrev(l: List, lv: seq<seq<Ref>>, level: nat, target: int, p: Ref) {
    && level < |lv| && Ascending(l.key, lv[level])
    && exists i :: 0 <= i <= |lv[level]| && Splits(l.key, lv[level], i, target) && p == Behind(l.head, lv[level], i)
  }

  /** `r` is the first node of the bottom level with a key not below the target. */
  ghost predicate IsFirst(l: List, lv: seq<seq<Ref>>, target: int, r: Ref) {
    && |lv| > 0 && Ascending(l.key, lv[0])
    && exists i :: 0 <= i <= |lv[0]| && Splits(l.key, lv[0], i, target) && r == At(lv[0], i)
  }

  /**
  FindGreaterOrEqual.  Each round loads one link, from whatever state the list has by then; the
  answer is right for the state of the last load.
   */
  method FindGreaterOrEqual(obs: nat -> List, target: int, ghost lv: nat -> seq<seq<Ref>>)
    returns (r: Ref, prev: seq<Ref>, last: nat)
    requires History(obs, lv)
    ensures IsFirst(obs(last), lv(last), target, r)
    ensures |prev| == obs(0).height
    ensures forall i :: 0 <= i < |prev| ==> exists k :: IsPrev(obs(k), lv(k), i, target, prev[i])
  {
    hide Good, Grows, Standing, IsPrev, IsFirst, Ascending, Splits, At, Behind, History;
    var k := 0;
    StartFacts(obs, lv, target);
    var x := obs(0).head;
    var level := obs(0).height - 1;
    prev := seq(obs(0).height, _ => NULL);
    ghost var room := target + 1;
    while true
      invariant 0 <= level < |prev| == obs(0).height
      invariant Standing(obs(k), lv(k), level, x, target)
      invariant x != obs(0).head ==> KeyIs(obs(k), x, room)
      invariant x == obs(0).head || room < target
      invariant forall i :: level < i < |prev| ==> exists k :: IsPrev(obs(k), lv(k), i, target, prev[i])
      decreases level, x == obs(0).head, target - room
    {
      ghost var i := Load(obs(k), lv(k), level, x, target);
      StepFacts(obs, lv, k, level, x);
      var next := obs(k).next[level][x];
      if next != NULL && obs(k).key[next] < target {
        Advance(obs(k), lv(k), level, i, x, target, room);
        StillStanding(obs, lv, k, level, next, target);
        room := obs(k).key[next];
        x := next;
      } else {
        prev := prev[level := x];
        FoundPrev(obs(k), lv(k), level, target, x, i);
        if level == 0 {
          last := k;
          return next, prev, last;
        }
        StandingLower(obs(k), lv(k), level, x, target);
        StillStanding(obs, lv, k, level - 1, x, target);
        level := level - 1;
      }
      k := k + 1;
    }
  }

  ghost predicate KeyIs(l: List, x: Ref, key: int) {
    x in l.key && l.key[x] == key
  }

  lemma StartFacts(obs: nat -> List, lv: nat -> seq<seq<Ref>>, target: int)
    requires History(obs, lv)
    ensures 1 <= obs(0).height <= MAX_HEIGHT
    ensures Standing(obs(0), lv(0), obs(0).height - 1, obs(0).head, target)
    ensures forall k :: Good(obs(k), lv(k))
  {
    assert Good(obs(0), lv(0));
  }

  lemma StepFacts(obs: nat -> List, lv: nat -> seq<seq<Ref>>, k: nat, level: nat, x: Ref)
    requires History(obs, lv) && level < MAX_HEIGHT
    ensures obs(k).head == obs(0).head && level < |lv(k)| == |obs(k).next|
    ensures forall n :: n in obs(k).key ==> KeyIs(obs(k + 1), n, obs(k).key[n])
    ensures obs(k).head !in lv(k)[level]
  {
    assert Grows(obs(0), lv(0), obs(k), lv(k)) && Grows(obs(k), lv(k), obs(k + 1), lv(k + 1));
    assert Good(obs(k), lv(k));
    assert LevelOk(obs(k).key, obs(k).next[level], obs(k).head, lv(k)[level]);
  }

  lemma Advance(l: List, lv: seq<seq<Ref>>, level: nat, i: nat, x: Ref, target: int, room: int)
    requires Good(l, lv) && level < |lv| && i <= |lv[level]| && x == Behind(l.head, lv[level], i)
    requires At(lv[level], i) != NULL
    requires x != l.head ==> KeyIs(l, x, room)
    requires At(lv[level], i) in l.key && l.key[At(lv[level], i)] < target
    ensures Standing(l, lv, level, At(lv[level], i), target)
    ensures x != l.head ==> room < l.key[At(lv[level], i)]
  {
    assert LevelOk(l.key, l.next[level], l.head, lv[level]);
  }

  lemma FoundPrev(l: List, lv: seq<seq<Ref>>, level: nat, target: int, x: Ref, i: nat)
    requires level < |lv| && i <= |lv[level]| && Ascending(l.key, lv[level]) && Splits(l.key, lv[level], i, target)
    requires x == Behind(l.head, lv[level], i)
    ensures IsPrev(l, lv, level, target, x)
    ensures level == 0 ==> IsFirst(l, lv, target, At(lv[0], i))
  {
  }

  /** A key that was in the list before the search began is never passed over. */
  lemma NeverMissed(obs: nat -> List, lv: nat -> seq<seq<Ref>>, last: nat, target: int, r: Ref, n: Ref)
    requires History(obs, lv) && IsFirst(obs(last), lv(last), target, r)
    requires n in lv(0)[0] && n in obs(0).key && obs(0).key[n] >= target
    ensures r != NULL && r in obs(last).key && n in obs(last).key
    ensures target <= obs(last).key[r] <= obs(last).key[n] == obs(0).key[n]
  {
    var l, s := obs(last), lv(last)[0];
    assert Grows(obs(0), lv(0), l, lv(last)) && Within(lv(0)[0], s);
    assert Good(l, lv(last)) && LevelOk(l.key, l.next[0], l.head, s);
    var i :| 0 <= i <= |s| && Splits(l.key, s, i, target) && r == At(s, i);
    var j :| 0 <= j < |s| && s[j] == n;
    assert i <= j;
  }

  /** FindLessThan: the last node below the target, or the head, in the state of the last load. */
  method FindLessThan(obs: nat -> List, target: int, ghost lv: nat -> seq<seq<Ref>>) returns (r: Ref, last: nat)
    requires History(obs, lv)
    ensures IsPrev(obs(last), lv(last), 0, target, r)
  {
    hide Good, Grows, Standing, IsPrev, Ascending, Splits, At, Behind, History;
    var k := 0;
    StartFacts(obs, lv, target);
    var x := obs(0).head;
    var level := obs(0).height - 1;
    ghost var room := target + 1;
    while true
      invariant 0 <= level < MAX_HEIGHT
      invariant Standing(obs(k), lv(k), level, x, target)
      invariant x != obs(0).head ==> KeyIs(obs(k), x, room)
      invariant x == obs(0).head || room < target
      decreases level, x == obs(0).head, target - room
    {
      ghost var i := Load(obs(k), lv(k), level, x, target);
      StepFacts(obs, lv, k, level, x);
      var next := obs(k).next[level][x];
      if next == NULL || obs(k).key[next] >= target {
        FoundPrev(obs(k), lv(k), level, target, x, i);
        if level == 0 {
          return x, k;
        }
        StandingLower(obs(k), lv(k), level, x, target);
        StillStanding(obs, lv, k, level - 1, x, target);
        level := level - 1;
      } else {
        Advance(obs(k), lv(k), level, i, x, target, room);
        StillStanding(obs, lv, k, level, next, target);
        room := obs(k).key[next];
        x := next;
      }
      k := k + 1;
    }
  }

  ghost predicate HasKey(l: List, lv: seq<seq<Ref>>, key: int) {
    |lv| > 0 && exists n :: n in lv[0] && KeyIs(l, n, key)
  }

  lemma FirstHasKey(l: List, lv: seq<seq<Ref>>, key: int, r: Ref)
    requires Good(l, lv) && IsFirst(l, lv, key, r)
    ensures r != NULL ==> r in l.key
    ensures HasKey(l, lv, key) <==> r != NULL && l.key[r] == key
  {
    var s := lv[0];
    assert LevelOk(l.key, l.next[0], l.head, s);
    var i :| 0 <= i <= |s| && Splits(l.key, s, i, key) && r == At(s, i);
    if HasKey(l, lv, key) {
      var n :| n in s && KeyIs(l, n, key);
      var j :| 0 <= j < |s| && s[j] == n;
      assert i <= j;
    }
    if r != NULL && l.key[r] == key {
      assert r in s && KeyIs(l, r, key);
    }
  }

  /** Contains: right for the state of the last load. */
  method Contains(obs: nat -> List, key: int, ghost lv: nat -> seq<seq<Ref>>) returns (found: bool, last: nat)
    requires History(obs, lv)
    ensures found <==> HasKey(obs(last), lv(last), key)
  {
    hide Good, Grows, IsPrev, IsFirst;
    var r, prev;
    r, prev, last := FindGreaterOrEqual(obs, key, lv);
    FirstHasKey(obs(last), lv(last), key, r);
    found := r != NULL && obs(last).key[r] == key;
  }

  /** From `settled` on the list stands still. */
  ghost predicate Settles(obs: nat -> List, lv: nat -> seq<seq<Ref>>, settled: nat) {
    forall k :: settled <= k ==> obs(k) == obs(settled) && lv(k) == lv(settled)
  }

  /**
  FindLast: the last node of the bottom level, or the head of an empty list, in the state of the
  last load.  A writer that keeps appending can keep the search from ending.
   */
  method FindLast(obs: nat -> List, ghost lv: nat -> seq<seq<Ref>>, ghost settled: nat) returns (x: Ref, last: nat)
    requires History(obs, lv) && Settles(obs, lv, settled)
    ensures |lv(last)| > 0 && x == Behind(obs(last).head, lv(last)[0], |lv(last)[0]|)
  {
    hide Good, Grows, At, Behind;
    last := 0;
    GoodFacts(obs(0), lv(0));
    x := obs(0).head;
    var level := obs(0).height - 1;
    ghost var i := 0;
    OnHead(obs(0), lv(0), level);
    while true
      invariant 0 <= level < MAX_HEIGHT == |lv(last)| && 0 <= i <= |lv(last)[level]|
      invariant x == Behind(obs(last).head, lv(last)[level], i)
      decreases if last < settled then settled - last else 0, level, |lv(last)[level]| - i
    {
      LinkOf(obs(last), lv(last), level, i);
      var next := obs(last).next[level][x];
      if next == NULL {
        if level == 0 {
          return;
        }
        i := Down(obs(last), lv(last), level, x, i);
        level := level - 1;
      } else {
        x := next;
        i := i + 1;
      }
      i := OnNext(obs, lv, settled, last, level, x, i);
      last := last + 1;
    }
  }

  lemma OnNext(obs: nat -> List, lv: nat -> seq<seq<Ref>>, settled: nat, k: nat, level: nat, x: Ref, i: nat)
    returns (j: nat)
    requires History(obs, lv) && Settles(obs, lv, settled) && level < MAX_HEIGHT == |lv(k)|
    requires i <= |lv(k)[level]| && x == Behind(obs(k).head, lv(k)[level], i)
    ensures |lv(k + 1)| == MAX_HEIGHT && j <= |lv(k + 1)[level]|
    ensures x == Behind(obs(k + 1).head, lv(k + 1)[level], j) && (settled <= k ==> j == i)
  {
    assert Grows(obs(k), lv(k), obs(k + 1), lv(k + 1));
    if settled <= k || i == 0 {
      j := i;
    } else {
      assert x in lv(k)[level] && Within(lv(k)[level], lv(k + 1)[level]);
      var n :| 0 <= n < |lv(k + 1)[level]| && lv(k + 1)[level][n] == x;
      j := n + 1;
    }
  }

  lemma OnHead(l: List, lv: seq<seq<Ref>>, level: nat)
    requires level < |lv|
    ensures l.head == Behind(l.head, lv[level], 0)
  {
  }

  lemma LinkOf(l: List, lv: seq<seq<Ref>>, level: nat, i: nat)
    requires Good(l, lv) && level < MAX_HEIGHT && i <= |lv[level]|
    ensures var x := Behind(l.head, lv[level], i);
            && |l.next| == MAX_HEIGHT && x in l.next[level]
            && (l.next[level][x] == NULL <==> i == |lv[level]|)
            && (i < |lv[level]| ==> l.next[level][x] == Behind(l.head, lv[level], i + 1))
  {
    assert LevelOk(l.key, l.next[level], l.head, lv[level]);
    assert i < |lv[level]| ==> lv[level][i] in lv[level];
  }

  lemma Down(l: List, lv: seq<seq<Ref>>, level: nat, x: Ref, i: nat) returns (j: nat)
    requires Good(l, lv) && 0 < level < MAX_HEIGHT && i <= |lv[level]| && x == Behind(l.head, lv[level], i)
    ensures j <= |lv[level - 1]| && x == Behind(l.head, lv[level - 1], j)
  {
    assert Within(lv[level], lv[level - 1]);
    if i == 0 {
      j := 0;
    } else {
      assert x in lv[level];
      var k :| 0 <= k < |lv[level - 1]| && lv[level - 1][k] == x;
      j := k + 1;
    }
  }

  // ---------------------------------------------------------------- insertion, store by store

  /** One state of the list together with the nodes on its levels. */
  datatype Shot = Shot(list: List, levels: seq<seq<Ref>>)

  /** All states a reader may see during an insertion, in order. */
  ghost predicate Trace(ts: seq<Shot>) {
    && (forall i :: 0 <= i < |ts| ==> Good(ts[i].list, ts[i].levels))
    && (forall i, j :: 0 <= i <= j < |ts| ==> Grows(ts[i].list, ts[i].levels, ts[j].list, ts[j].levels))
  }

  /** The state at a time; the last one stays. */
  function Sample(ts: seq<Shot>, i: nat): (t: Shot)
    requires ts != []
  {
    if i < |ts| then ts[i] else ts[|ts| - 1]
  }

  /** Whenever a reader looks while the list runs through a trace, what it sees over time is a history. */
  lemma SampledIsHistory(ts: seq<Shot>, at: nat -> nat)
    requires Trace(ts) && ts != [] && forall k: nat, k': nat :: k <= k' ==> at(k) <= at(k')
    ensures History((k: nat) => Sample(ts, at(k)).list, (k: nat) => Sample(ts, at(k)).levels)
  {
    hide Good, Grows;
    forall i: nat, j: nat | i <= j
      ensures Grows(Sample(ts, i).list, Sample(ts, i).levels, Sample(ts, j).list, Sample(ts, j).levels)
    {
      var a, b := if i < |ts| then i else |ts| - 1, if j < |ts| then j else |ts| - 1;
      assert a <= b && Sample(ts, i) == ts[a] && Sample(ts, j) == ts[b];
    }
  }

  /** The traces of insertions one after the other are one trace. */
  lemma TracesJoin(ts: seq<Shot>, us: seq<Shot>)
    requires Trace(ts) && Trace(us) && ts != [] && us != [] && ts[|ts| - 1] == us[0]
    ensures Trace(ts + us)
  {
    var all, n := ts + us, |ts|;
    hide Good, Grows;
    forall i, j | 0 <= i <= j < |all|
      ensures Grows(all[i].list, all[i].levels, all[j].list, all[j].levels)
    {
      if i < n <= j {
        GrowsTwice(ts[i], us[0], us[j - n]);
      }
    }
  }

  function Inserted(s: seq<Ref>, i: nat, x: Ref): (r: seq<Ref>)
    requires i <= |s|
    ensures |r| == |s| + 1
    ensures forall n :: n in r <==> n in s || n == x
  {
    s[..i] + [x] + s[i..]
  }

  /** The two stores that link a node into one level. */
  lemma LinkLevel(key: map<Ref, int>, next: map<Ref, Ref>, head: Ref, s: seq<Ref>, i: nat, x: Ref)
    requires LevelOk(key, next, head, s) && i <= |s| && x in key && x != NULL && x != head && x !in s
    requires Splits(key, s, i, key[x]) && (i < |s| ==> key[s[i]] != key[x])
    ensures var p := Behind(head, s, i);
            var first := next[x := next[p]];
            && LevelOk(key, first, head, s)
            && LevelOk(key, first[p := x], head, Inserted(s, i, x))
  {
    var p := Behind(head, s, i);
    var first := next[x := next[p]];
    var second, r := first[p := x], Inserted(s, i, x);
    InsertedAscends(key, s, i, x);
    forall k | 0 <= k <= |r|
      ensures Behind(head, r, k) in second && second[Behind(head, r, k)] == At(r, k)
    {
      LinkedAt(key, next, head, s, i, x, k);
    }
  }

  lemma InsertedAscends(key: map<Ref, int>, s: seq<Ref>, i: nat, x: Ref)
    requires Ascending(key, s) && i <= |s| && x in key && Splits(key, s, i, key[x]) && (i < |s| ==> key[s[i]] != key[x])
    ensures Ascending(key, Inserted(s, i, x))
  {
    var r := Inserted(s, i, x);
    assert forall k :: 0 <= k < |r| ==> r[k] == if k < i then s[k] else if k == i then x else s[k - 1];
  }

  lemma LinkedAt(key: map<Ref, int>, next: map<Ref, Ref>, head: Ref, s: seq<Ref>, i: nat, x: Ref, k: nat)
    requires LevelOk(key, next, head, s) && i <= |s| && x != NULL && x != head && x !in s && k <= |s| + 1
    ensures var p, r := Behind(head, s, i), Inserted(s, i, x);
            var second := next[x := next[p]][p := x];
            Behind(head, r, k) in second && second[Behind(head, r, k)] == At(r, k)
  {
    hide Ascending;
    var p, r := Behind(head, s, i), Inserted(s, i, x);
    if k <= i {
      SamePlace(key, next, head, s, k, i, x);
      assert Behind(head, r, k) == Behind(head, s, k);
    } else if k == i + 1 {
      assert Behind(head, r, k) == x;
    } else {
      SamePlace(key, next, head, s, k - 1, i, x);
      assert Behind(head, r, k) == Behind(head, s, k - 1);
    }
  }

  lemma SamePlace(key: map<Ref, int>, next: map<Ref, Ref>, head: Ref, s: seq<Ref>, j: nat, i: nat, x: Ref)
    requires LevelOk(key, next, head, s) && j <= |s| && i <= |s| && x != head && x !in s
    ensures Behind(head, s, j) == Behind(head, s, i) <==> i == j
    ensures Behind(head, s, j) != x && Behind(head, s, j) in next && next[Behind(head, s, j)] == At(s, j)
  {
    assert i > 0 ==> s[i - 1] in s;
    assert j > 0 ==> s[j - 1] in s;
  }

  lemma GrowsTwice(a: Shot, b: Shot, c: Shot)
    requires Grows(a.list, a.levels, b.list, b.levels) && Grows(b.list, b.levels, c.list, c.levels)
    ensures Grows(a.list, a.levels, c.list, c.levels)
  {
    forall i | 0 <= i < MAX_HEIGHT
      ensures Within(a.levels[i], c.levels[i])
    {
      assert Within(a.levels[i], b.levels[i]) && Within(b.levels[i], c.levels[i]);
    }
  }

  lemma GrowsSame(l: List, lv: seq<seq<Ref>>)
    requires |lv| == MAX_HEIGHT
    ensures Grows(l, lv, l, lv)
  {
  }

  lemma OneMoreState(ts: seq<Shot>, t: Shot)
    requires Trace(ts) && ts != [] && Good(t.list, t.levels)
    requires var last := ts[|ts| - 1]; Grows(last.list, last.levels, t.list, t.levels)
    ensures Trace(ts + [t])
  {
    hide Good, Grows;
    var all, n := ts + [t], |ts|;
    GoodFacts(t.list, t.levels);
    GrowsSame(t.list, t.levels);
    forall i, j | 0 <= i <= j < |all|
      ensures Grows(all[i].list, all[i].levels, all[j].list, all[j].levels)
    {
      if j == n && i < n {
        GrowsTwice(ts[i], ts[n - 1], t);
      }
    }
  }

  lemma GoodFacts(l: List, lv: seq<seq<Ref>>)
    requires Good(l, lv)
    ensures |lv| == |l.next| == MAX_HEIGHT && 1 <= l.height <= MAX_HEIGHT && l.head != NULL
    ensures forall i :: 0 <= i < MAX_HEIGHT ==> Ascending(l.key, lv[i])
    ensures forall i :: l.height <= i < MAX_HEIGHT ==> lv[i] == []
    ensures forall i, n :: 0 <= i < MAX_HEIGHT && n in lv[i] ==> n in l.key && n != l.head
  {
    assert LevelOk(l.key, l.next[0], l.head, lv[0]);
    forall i | 0 <= i < MAX_HEIGHT
      ensures Ascending(l.key, lv[i]) && forall n :: n in lv[i] ==> n in l.key && n != l.head
    {
      assert LevelOk(l.key, l.next[i], l.head, lv[i]);
    }
  }

  lemma RaiseHeight(l: List, lv: seq<seq<Ref>>, height: nat)
    requires Good(l, lv) && l.height <= height <= MAX_HEIGHT
    ensures Good(l.(height := height), lv) && Grows(l, lv, l.(height := height), lv)
  {
    hide LevelOk;
  }

  lemma AddKey(l: List, lv: seq<seq<Ref>>, x: Ref, key: int)
    requires Good(l, lv) && x !in l.key
    ensures Good(l.(key := l.key[x := key]), lv) && Grows(l, lv, l.(key := l.key[x := key]), lv)
  {
    var l' := l.(key := l.key[x := key]);
    forall i | 0 <= i < MAX_HEIGHT
      ensures LevelOk(l'.key, l'.next[i], l'.head, lv[i])
    {
      KeyAdded(l.key, l.next[i], l.head, lv[i], x, key);
    }
  }

  lemma KeyAdded(keys: map<Ref, int>, next: map<Ref, Ref>, head: Ref, s: seq<Ref>, x: Ref, key: int)
    requires LevelOk(keys, next, head, s) && x !in keys
    ensures LevelOk(keys[x := key], next, head, s)
  {
    hide At, Behind;
  }

  /** Storing links of one level only, with the other levels as they were. */
  lemma StoreLevel(l: List, lv: seq<seq<Ref>>, i: nat, next: map<Ref, Ref>, s: seq<Ref>)
    requires Good(l, lv) && i < MAX_HEIGHT && (i < l.height || s == lv[i])
    requires LevelOk(l.key, next, l.head, s) && Within(lv[i], s)
    requires i > 0 ==> Within(s, lv[i - 1])
    ensures Good(l.(next := l.next[i := next]), lv[i := s]) && Grows(l, lv, l.(next := l.next[i := next]), lv[i := s])
  {
    hide LevelOk;
    var l', lv' := l.(next := l.next[i := next]), lv[i := s];
    forall a, b | 0 <= a < b < MAX_HEIGHT
      ensures Within(lv'[b], lv'[a])
    {
      assert Within(lv[b], lv[a]);
      if b == i && i > 0 {
        assert a <= i - 1;
        assert a < i - 1 ==> Within(lv[i - 1], lv[a]);
      }
    }
  }

  /** What the levels hold after linking `x` below `height`. */
  ghost predicate Linked(lv: seq<seq<Ref>>, lv': seq<seq<Ref>>, x: Ref, height: nat) {
    && |lv| == |lv'| == MAX_HEIGHT
    && (forall i, n :: 0 <= i < height && i < MAX_HEIGHT ==> (n in lv'[i] <==> n in lv[i] || n == x))
    && (forall i :: height <= i < MAX_HEIGHT ==> lv'[i] == lv[i])
  }

  /** Both stores for level `i`: the new node's link, then the link that publishes it. */
  lemma LinkStep(l: List, lv: seq<seq<Ref>>, i: nat, x: Ref, p: Ref) returns (j: nat)
    requires Good(l, lv) && i < l.height && x in l.key && x != NULL && x != l.head && x !in lv[i]
    requires i > 0 ==> x in lv[i - 1]
    requires IsPrev(l, lv, i, l.key[x], p) && forall n :: n in lv[i] ==> n in l.key && l.key[n] != l.key[x]
    ensures j <= |lv[i]| && p in l.next[i]
    ensures var first: map<Ref, Ref> := l.next[i][x := l.next[i][p]];
            var l1 := l.(next := l.next[i := first]);
            var l2, lv2 := l.(next := l.next[i := first[p := x]]), lv[i := Inserted(lv[i], j, x)];
            && Good(l1, lv) && Grows(l, lv, l1, lv)
            && Good(l2, lv2) && Grows(l1, lv, l2, lv2)
  {
    hide At, Behind;
    var s := lv[i];
    j :| 0 <= j <= |s| && Splits(l.key, s, j, l.key[x]) && p == Behind(l.head, s, j);
    assert LevelOk(l.key, l.next[i], l.head, s);
    assert j < |s| ==> s[j] in s;
    LinkLevel(l.key, l.next[i], l.head, s, j, x);
    var first: map<Ref, Ref> := l.next[i][x := l.next[i][p]];
    assert i > 0 ==> Within(s, lv[i - 1]);
    StoreLevel(l, lv, i, first, s);
    assert lv[i := s] == lv;
    var l1 := l.(next := l.next[i := first]);
    StoreLevel(l1, lv, i, first[p := x], Inserted(s, j, x));
    assert l1.next[i := first[p := x]] == l.next[i := first[p := x]];
  }

  /** A list that stands still is a history. */
  lemma Still(l: List, lv: seq<seq<Ref>>)
    requires Good(l, lv)
    ensures History(_ => l, _ => lv)
  {
    hide Good, Grows;
    GoodFacts(l, lv);
    GrowsSame(l, lv);
  }

  lemma HeadIsPrev(l: List, lv: seq<seq<Ref>>, i: nat, target: int)
    requires i < |lv| && lv[i] == []
    ensures IsPrev(l, lv, i, target, l.head)
  {
    assert Splits(l.key, lv[i], 0, target) && l.head == Behind(l.head, lv[i], 0);
  }

  /** The predecessor found earlier still is one, as long as its level has not changed. */
  lemma PrevKept(l: List, lv: seq<seq<Ref>>, l': List, lv': seq<seq<Ref>>, i: nat, target: int, p: Ref)
    requires IsPrev(l, lv, i, target, p) && Grows(l, lv, l', lv') && i < |lv'| && lv'[i] == lv[i]
    ensures IsPrev(l', lv', i, target, p)
  {
    var j :| 0 <= j <= |lv[i]| && Splits(l.key, lv[i], j, target) && p == Behind(l.head, lv[i], j);
    assert Splits(l'.key, lv'[i], j, target) && p == Behind(l'.head, lv'[i], j);
  }

  class Skip {
    var list: List
    ghost var levels: seq<seq<Ref>>

    ghost predicate Valid()
      reads this
    {
      Good(list, levels)
    }

    constructor (head: Ref)
      requires head != NULL
      ensures Valid() && levels == seq(MAX_HEIGHT, _ => [])
    {
      var links: map<Ref, Ref> := map[head := NULL];
      list := List(map[], seq(MAX_HEIGHT, _ => links), head, 1);
      levels := seq(MAX_HEIGHT, _ => []);
    }

    /**
    Insert, with the random height as a parameter.  `trace` records the list after every single
    store: all of these states are good, each contains the ones before, and the new node ends up on
    its lowest `height` levels.
     */
    method Insert(key: int, x: Ref, height: nat) returns (ghost trace: seq<Shot>)
      requires Valid() && 1 <= height <= MAX_HEIGHT && x != NULL && x != list.head && x !in list.key
      requires forall n :: n in levels[0] ==> list.key[n] != key
      modifies this
      ensures Valid() && list.key == old(list.key)[x := key] && Linked(old(levels), levels, x, height)
      ensures Trace(trace) && trace != []
      ensures trace[0] == Shot(old(list), old(levels)) && trace[|trace| - 1] == Shot(list, levels)
    {
      hide Good, Grows, History, Trace, IsPrev, IsFirst, LevelOk, Linked, Within;
      GoodFacts(list, levels);
      GrowsSame(list, levels);
      OneState(Shot(list, levels));
      trace := [Shot(list, levels)];
      var prev := Predecessors(list, key, height, levels);
      if height > list.height {
        RaiseHeight(list, levels, height);
        list := list.(height := height);
        OneMoreState(trace, Shot(list, levels));
        trace := trace + [Shot(list, levels)];
      }
      AddKey(list, levels, x, key);
      list := list.(key := list.key[x := key]);
      OneMoreState(trace, Shot(list, levels));
      trace := trace + [Shot(list, levels)];
      StartLinking(old(list), old(levels), list, levels, x, key, height);
      for i := 0 to height
        invariant Linking(old(list), old(levels), list, levels, x, key, i, height)
        invariant Trace(trace) && trace != []
        invariant trace[0] == Shot(old(list), old(levels)) && trace[|trace| - 1] == Shot(list, levels)
      {
        ghost var j := LinkNext(old(list), old(levels), list, levels, x, key, i, height, prev[i]);
        var links: map<Ref, Ref> := list.next[i][x := list.next[i][prev[i]]];
        list := list.(next := list.next[i := links]);
        OneMoreState(trace, Shot(list, levels));
        trace := trace + [Shot(list, levels)];
        links := list.next[i][prev[i] := x];
        list := list.(next := list.next[i := links]);
        levels := levels[i := Inserted(levels[i], j, x)];
        OneMoreState(trace, Shot(list, levels));
        trace := trace + [Shot(list, levels)];
      }
    }
  }

  /** The state of an insertion when levels below `i` are linked. */
  ghost predicate Linking(l0: List, lv0: seq<seq<Ref>>, l: List, lv: seq<seq<Ref>>, x: Ref, key: int, i: nat, height: nat) {
    && Good(l, lv) && Grows(l0, lv0, l, lv) && l.key == l0.key[x := key] && l.height >= height
    && Linked(lv0, lv, x, i)
  }

  lemma StartLinking(l0: List, lv0: seq<seq<Ref>>, l: List, lv: seq<seq<Ref>>, x: Ref, key: int, height: nat)
    requires Good(l, lv) && |lv0| == MAX_HEIGHT && lv == lv0 && l.height >= height && l.height >= l0.height
    requires l.head == l0.head && l.key == l0.key[x := key] && x !in l0.key
    ensures Linking(l0, lv0, l, lv, x, key, 0, height)
  {
    hide Good;
  }

  /** Both stores of round `i`, with everything Insert needs to go on. */
  lemma LinkNext(l0: List, lv0: seq<seq<Ref>>, l: List, lv: seq<seq<Ref>>, x: Ref, key: int, i: nat, height: nat, p: Ref)
    returns (j: nat)
    requires Good(l0, lv0) && Linking(l0, lv0, l, lv, x, key, i, height) && i < height <= MAX_HEIGHT
    requires x != NULL && x != l0.head && x !in l0.key && forall n :: n in lv0[0] ==> l0.key[n] != key
    requires IsPrev(l0, lv0, i, key, p)
    ensures |lv| == |l.next| == MAX_HEIGHT && j <= |lv[i]| && p in l.next[i]
    ensures var first: map<Ref, Ref> := l.next[i][x := l.next[i][p]];
            var l1 := l.(next := l.next[i := first]);
            var second: map<Ref, Ref> := l1.next[i][p := x];
            var l2, lv2 := l1.(next := l1.next[i := second]), lv[i := Inserted(lv[i], j, x)];
            && Good(l1, lv) && Grows(l, lv, l1, lv)
            && Good(l2, lv2) && Grows(l1, lv, l2, lv2)
            && Linking(l0, lv0, l2, lv2, x, key, i + 1, height)
  {
    hide Good, Grows, LevelOk, IsPrev, Within, Linking, Linked, Ascending;
    LinkingParts(l0, lv0, l, lv, x, key, i, height);
    PrevKept(l0, lv0, l, lv, i, key, p);
    j := LinkStep(l, lv, i, x, p);
    var first: map<Ref, Ref> := l.next[i][x := l.next[i][p]];
    var l1 := l.(next := l.next[i := first]);
    assert l1.next[i := first[p := x]] == l.next[i := first[p := x]];
    var l2, lv2 := l.(next := l.next[i := first[p := x]]), lv[i := Inserted(lv[i], j, x)];
    GrowsTwice(Shot(l0, lv0), Shot(l, lv), Shot(l1, lv));
    GrowsTwice(Shot(l0, lv0), Shot(l1, lv), Shot(l2, lv2));
    LinkingOn(l0, lv0, l, lv, l2, x, key, i, j, height);
  }

  /** What round `i` starts from. */
  lemma LinkingParts(l0: List, lv0: seq<seq<Ref>>, l: List, lv: seq<seq<Ref>>, x: Ref, key: int, i: nat, height: nat)
    requires Good(l0, lv0) && Linking(l0, lv0, l, lv, x, key, i, height) && i < height <= MAX_HEIGHT
    requires x != NULL && x != l0.head && x !in l0.key && forall n :: n in lv0[0] ==> l0.key[n] != key
    ensures |lv| == |l.next| == |lv0| == MAX_HEIGHT && lv[i] == lv0[i] && Good(l, lv) && Grows(l0, lv0, l, lv)
    ensures i < l.height && x in l.key && l.key[x] == key && x != l.head && x !in lv[i]
    ensures i > 0 ==> x in lv[i - 1]
    ensures forall n :: n in lv[i] ==> n in l.key && l.key[n] != key
  {
    hide Good, Grows, LevelOk, Within, Ascending;
    GoodFacts(l0, lv0);
    GoodFacts(l, lv);
    LevelsWithin(l0, lv0, i);
    GrowsFacts(l0, lv0, l, lv);
  }

  lemma LinkingOn(l0: List, lv0: seq<seq<Ref>>, l: List, lv: seq<seq<Ref>>, l2: List, x: Ref, key: int,
                  i: nat, j: nat, height: nat)
    requires Linking(l0, lv0, l, lv, x, key, i, height) && |lv| == MAX_HEIGHT && i < MAX_HEIGHT && j <= |lv[i]|
    requires var lv2 := lv[i := Inserted(lv[i], j, x)]; Good(l2, lv2) && Grows(l0, lv0, l2, lv2)
    requires l2.key == l.key && l2.height == l.height
    ensures Linking(l0, lv0, l2, lv[i := Inserted(lv[i], j, x)], x, key, i + 1, height)
  {
    hide Good, Grows, Inserted;
    InsertedHas(lv[i], j, x);
  }

  lemma InsertedHas(s: seq<Ref>, j: nat, x: Ref)
    requires j <= |s|
    ensures forall n :: n in Inserted(s, j, x) <==> n in s || n == x
  {
    assert s == s[..j] + s[j..];
  }

  lemma GrowsFacts(l: List, lv: seq<seq<Ref>>, l': List, lv': seq<seq<Ref>>)
    requires Grows(l, lv, l', lv')
    ensures l'.head == l.head
  {
  }

  lemma LevelsWithin(l: List, lv: seq<seq<Ref>>, i: nat)
    requires Good(l, lv) && i < MAX_HEIGHT
    ensures forall n :: n in lv[i] ==> n in lv[0]
  {
    assert i > 0 ==> Within(lv[i], lv[0]);
  }

  lemma OneState(t: Shot)
    requires Good(t.list, t.levels)
    ensures Trace([t])
  {
    GoodFacts(t.list, t.levels);
    GrowsSame(t.list, t.levels);
  }

  /** The prev array of Insert: found by the search, and the head above the old height. */
  method Predecessors(l: List, key: int, height: nat, ghost lv: seq<seq<Ref>>) returns (prev: seq<Ref>)
    requires Good(l, lv) && height <= MAX_HEIGHT
    ensures |prev| >= height && forall i :: 0 <= i < height ==> IsPrev(l, lv, i, key, prev[i])
  {
    hide Good, Grows, IsPrev, IsFirst, History;
    GoodFacts(l, lv);
    Still(l, lv);
    var r;
    ghost var last;
    r, prev, last := FindGreaterOrEqual(_ => l, key, _ => lv);
    var i := l.height;
    while i < height
      invariant l.height <= i && |prev| == i && (i <= height || i == l.height)
      invariant forall k :: 0 <= k < |prev| && k < MAX_HEIGHT ==> IsPrev(l, lv, k, key, prev[k])
    {
      HeadIsPrev(l, lv, i, key);
      prev := prev + [l.head];
      i := i + 1;
    }
  }
}
