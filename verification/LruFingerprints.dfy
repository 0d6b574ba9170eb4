/**
The prototype's fingerprint cache: a doubly linked list in order of use, found through hash chains
(prototype/lrucache.cc).
 */
module LruFingerprints {
  import opened Common
  import opened Fingerprints

  const HASH_SIZE: nat := 5000000

  // ---------------------------------------------------------------- which keys the cache takes for one

  /** The cache compares keys as strings, and only within a bucket. */
  predicate Alias(a: Fp, b: Fp) {
    Bucket(a) == Bucket(b) && SameString(a, b, 0)
  }

  lemma AliasReflexive(a: Fp)
    ensures Alias(a, a)
  {
    SameStringReflexive(a, 0);
  }

  lemma AliasSymmetric(a: Fp, b: Fp)
    ensures Alias(a, b) <==> Alias(b, a)
  {
    hide SameString, Bucket;
    SameStringSymmetric(a, b, 0);
  }

  lemma AliasTransitive(a: Fp, b: Fp, c: Fp)
    requires Alias(a, b) && Alias(b, c)
    ensures Alias(a, c)
  {
    hide SameString, Bucket;
    SameStringTransitive(a, b, c, 0);
  }

  ghost predicate HasAlias(keys: seq<Fp>, key: Fp) {
    exists i :: 0 <= i < |keys| && Alias(keys[i], key)
  }

  /** No two keys of a list are taken for one. */
  ghost predicate NoAliases(keys: seq<Fp>) {
    forall i, j :: 0 <= i < j < |keys| ==> !Alias(keys[i], keys[j])
  }

  /** Looking a key up answers whether it is there exactly if no other key there is taken for it. */
  lemma FindIsExact(keys: seq<Fp>, key: Fp)
    requires NoAliases(keys)
    ensures (HasAlias(keys, key) <==> key in keys)
            <==> !exists i :: 0 <= i < |keys| && keys[i] != key && Alias(keys[i], key)
  {
    hide Alias;
    if key in keys {
      var k :| 0 <= k < |keys| && keys[k] == key;
      AliasReflexive(key);
      forall i | 0 <= i < |keys| && keys[i] != key
        ensures !Alias(keys[i], key)
      {
        AliasSymmetric(keys[i], key);
        assert if i < k then !Alias(keys[i], keys[k]) else !Alias(keys[k], keys[i]);
      }
    }
  }

  // ---------------------------------------------------------------- the plain least-recently-used list

  /** The list without the first key that is taken for `key`. */
  ghost function Without(keys: seq<Fp>, key: Fp): (r: seq<Fp>)
    ensures forall k :: k in r ==> k in keys
  {
    if keys == [] then []
    else if Alias(keys[0], key) then keys[1..]
    else [keys[0]] + Without(keys[1..], key)
  }

  /** A key that is found takes the place of the one it was taken for, in front. */
  ghost function Used(keys: seq<Fp>, key: Fp): seq<Fp> {
    if HasAlias(keys, key) then [key] + Without(keys, key) else keys
  }

  /** Putting a key uses it, or adds it in front and drops the last one beyond the capacity. */
  ghost function Put(keys: seq<Fp>, key: Fp, max: nat): seq<Fp> {
    if HasAlias(keys, key) then Used(keys, key)
    else if |keys| < max then [key] + keys
    else ([key] + keys)[..|keys|]
  }

  // ---------------------------------------------------------------- hash chains

  /** str_hash: characters are signed, sums wrap at 64 bits. */
  function StrHash(key: Fp, n: nat): (h: nat)
    requires n <= FP_SIZE
    ensures h < TWO_64
  {
    if n == 0 then 0
    else
      var c := key[n - 1] as int;
      (StrHash(key, n - 1) * 5 + if c < 128 then c else c - 256) % TWO_64
  }

  /** A byte above 127 counts as a negative number, and the sum wraps. */
  lemma HashIsSigned(key: Fp)
    requires key[0] == 255
    ensures StrHash(key, 1) == TWO_64 - 1 && (key[1] < 128 ==> StrHash(key, 2) == (TWO_64 - 5 + key[1] as int) % TWO_64)
  {
    assert StrHash(key, 0) == 0;
  }

  function Bucket(key: Fp): (b: nat)
    ensures b < HASH_SIZE
  {
    StrHash(key, FP_SIZE) % HASH_SIZE
  }

  // ---------------------------------------------------------------- linked nodes

  /** A node's address; 0 is the null pointer. */
  type Ref = nat
  const NULL: Ref := 0

  /** The memory of the list nodes: each field by address. */
  datatype Memory = Memory(key: map<Ref, Fp>, front: map<Ref, Ref>, next: map<Ref, Ref>)

  function At(nodes: seq<Ref>, i: int): (r: Ref) {
    if 0 <= i < |nodes| then nodes[i] else NULL
  }

  ghost predicate Allocated(m: Memory, nodes: seq<Ref>) {
    && (forall i :: 0 <= i < |nodes| ==>
          nodes[i] != NULL && nodes[i] in m.key && nodes[i] in m.front && nodes[i] in m.next)
    && (forall i, j :: 0 <= i < j < |nodes| ==> nodes[i] != nodes[j])
  }

  /** The nodes, in this order, point at their neighbours. */
  ghost predicate Linked(m: Memory, nodes: seq<Ref>) {
    && Allocated(m, nodes)
    && (forall i :: 0 <= i < |nodes| ==> m.front[nodes[i]] == At(nodes, i - 1))
    && (forall i :: 0 <= i < |nodes| ==> m.next[nodes[i]] == At(nodes, i + 1))
  }

  ghost function Keys(m: Memory, nodes: seq<Ref>): (ks: seq<Fp>)
    requires Allocated(m, nodes)
    ensures |ks| == |nodes| && forall i :: 0 <= i < |ks| ==> ks[i] == m.key[nodes[i]]
  {
    if nodes == [] then [] else Keys(m, nodes[..|nodes| - 1]) + [m.key[nodes[|nodes| - 1]]]
  }

  /** The pointer updates of delete_node. */
  method Unlink(m: Memory, head: Ref, back: Ref, t: Ref, ghost nodes: seq<Ref>, ghost i: nat)
    returns (m': Memory, head': Ref, back': Ref)
    requires Linked(m, nodes) && head == At(nodes, 0) && back == At(nodes, |nodes| - 1)
    requires i < |nodes| && nodes[i] == t
    ensures Linked(m', Removed(nodes, i)) && m'.key == m.key
    ensures head' == At(Removed(nodes, i), 0) && back' == At(Removed(nodes, i), |nodes| - 2)
  {
    m', head', back' := m, head, back;
    if m.front[t] != NULL {
      m' := m'.(next := m'.next[m.front[t] := m.next[t]]);
    } else {
      head' := m.next[t];
    }
    if m.next[t] != NULL {
      m' := m'.(front := m'.front[m.next[t] := m.front[t]]);
    } else {
      back' := m.front[t];
    }
    Spliced(m, nodes, i, m');
    SpliceEnds(nodes, i);
  }

  lemma SpliceEnds(nodes: seq<Ref>, i: nat)
    requires i < |nodes|
    ensures At(Removed(nodes, i), 0) == if i == 0 then At(nodes, 1) else At(nodes, 0)
    ensures At(Removed(nodes, i), |nodes| - 2) == if i == |nodes| - 1 then At(nodes, i - 1) else At(nodes, |nodes| - 1)
  {
  }

  ghost predicate Splice(m: Memory, nodes: seq<Ref>, i: nat, m': Memory)
    requires i < |nodes|
  {
    && m'.key == m.key
    && m'.next == (if i == 0 then m.next else m.next[nodes[i - 1] := At(nodes, i + 1)])
    && m'.front == (if i == |nodes| - 1 then m.front else m.front[nodes[i + 1] := At(nodes, i - 1)])
  }

  lemma SplicedAt(m: Memory, nodes: seq<Ref>, i: nat, m': Memory, k: nat)
    requires Linked(m, nodes) && i < |nodes| && Splice(m, nodes, i, m') && k < |nodes| - 1
    ensures var r := Removed(nodes, i);
            && |r| == |nodes| - 1 && r[k] in m'.front && r[k] in m'.next
            && m'.front[r[k]] == At(r, k - 1) && m'.next[r[k]] == At(r, k + 1)
  {
    hide Removed, Linked, Allocated;
    LinkedAt(m, nodes, if k < i then k else k + 1, i);
  }

  lemma LinkedAt(m: Memory, nodes: seq<Ref>, j: nat, i: nat)
    requires Linked(m, nodes) && j < |nodes|
    ensures nodes[j] in m.front && nodes[j] in m.next
    ensures m.front[nodes[j]] == At(nodes, j - 1) && m.next[nodes[j]] == At(nodes, j + 1)
    ensures 0 < i <= |nodes| ==> (nodes[j] == nodes[i - 1] <==> j == i - 1)
    ensures i + 1 < |nodes| ==> (nodes[j] == nodes[i + 1] <==> j == i + 1)
  {
    hide At;
  }

  lemma Spliced(m: Memory, nodes: seq<Ref>, i: nat, m': Memory)
    requires Linked(m, nodes) && i < |nodes| && Splice(m, nodes, i, m')
    ensures Linked(m', Removed(nodes, i))
  {
    hide Splice, Removed, At;
    var r := Removed(nodes, i);
    RemovedIsDistinct(m, nodes, i);
    forall k | 0 <= k < |r|
      ensures r[k] in m'.front && r[k] in m'.next
      ensures m'.front[r[k]] == At(r, k - 1) && m'.next[r[k]] == At(r, k + 1)
    {
      SplicedAt(m, nodes, i, m', k);
    }
    SameKeys(m, nodes, i, m');
  }

  lemma SameKeys(m: Memory, nodes: seq<Ref>, i: nat, m': Memory)
    requires i < |nodes| && Splice(m, nodes, i, m')
    ensures m'.key == m.key
  {
  }

  lemma RemovedIsDistinct(m: Memory, nodes: seq<Ref>, i: nat)
    requires Allocated(m, nodes) && i < |nodes|
    ensures Allocated(m, Removed(nodes, i))
  {
    hide Removed;
  }

  /** The pointer updates of add_node_to_head; `q` is the address of the new node. */
  method PushFront(m: Memory, head: Ref, back: Ref, q: Ref, key: Fp, ghost nodes: seq<Ref>)
    returns (m': Memory, head': Ref, back': Ref)
    requires Linked(m, nodes) && head == At(nodes, 0) && back == At(nodes, |nodes| - 1)
    requires q != NULL && q !in nodes
    ensures Linked(m', [q] + nodes) && m'.key == m.key[q := key]
    ensures head' == q == At([q] + nodes, 0) && back' == At([q] + nodes, |nodes|)
  {
    m' := Memory(m.key[q := key], m.front[q := NULL], m.next[q := head]);
    back' := back;
    if head == NULL {
      back' := q;
    } else {
      m' := m'.(front := m'.front[head := q]);
    }
    head' := q;
    PushedFront(m, nodes, q, m');
  }

  lemma PushedFront(m: Memory, nodes: seq<Ref>, q: Ref, m': Memory)
    requires Linked(m, nodes) && q != NULL && q !in nodes
    requires q in m'.key && m'.key == m.key[q := m'.key[q]] && m'.next == m.next[q := At(nodes, 0)]
    requires m'.front == if nodes == [] then m.front[q := NULL] else m.front[q := NULL][nodes[0] := q]
    ensures Linked(m', [q] + nodes)
  {
    hide Linked, At;
    var all := [q] + nodes;
    forall k | 0 <= k < |all|
      ensures all[k] in m'.front && all[k] in m'.next && all[k] in m'.key && all[k] != NULL
      ensures m'.front[all[k]] == At(all, k - 1) && m'.next[all[k]] == At(all, k + 1)
    {
      PushedAt(m, nodes, q, m', k);
    }
    PushedDistinct(m, nodes, q);
    LinkedFrom(m', all);
  }

  lemma PushedAt(m: Memory, nodes: seq<Ref>, q: Ref, m': Memory, k: nat)
    requires Linked(m, nodes) && q != NULL && q !in nodes && k <= |nodes|
    requires q in m'.key && m'.key == m.key[q := m'.key[q]] && m'.next == m.next[q := At(nodes, 0)]
    requires m'.front == if nodes == [] then m.front[q := NULL] else m.front[q := NULL][nodes[0] := q]
    ensures var all := [q] + nodes;
            && all[k] in m'.front && all[k] in m'.next && all[k] in m'.key && all[k] != NULL
            && m'.front[all[k]] == At(all, k - 1) && m'.next[all[k]] == At(all, k + 1)
  {
    hide Linked, Allocated;
    if k > 0 {
      LinkedAt(m, nodes, k - 1, 1);
      AllocatedAt(m, nodes, k - 1);
    }
    if nodes != [] {
      AllocatedAt(m, nodes, 0);
    }
  }

  lemma AllocatedAt(m: Memory, nodes: seq<Ref>, j: nat)
    requires Linked(m, nodes) && j < |nodes|
    ensures nodes[j] != NULL && nodes[j] in m.key
  {
    hide At;
  }

  lemma PushedDistinct(m: Memory, nodes: seq<Ref>, q: Ref)
    requires Linked(m, nodes) && q !in nodes
    ensures var all := [q] + nodes; forall i, j :: 0 <= i < j < |all| ==> all[i] != all[j]
  {
    hide At;
    var all := [q] + nodes;
    forall i, j | 0 <= i < j < |all|
      ensures all[i] != all[j]
    {
      assert all[j] == nodes[j - 1] && (i > 0 ==> all[i] == nodes[i - 1]);
    }
  }

  lemma LinkedFrom(m: Memory, nodes: seq<Ref>)
    requires forall i, j :: 0 <= i < j < |nodes| ==> nodes[i] != nodes[j]
    requires forall k :: 0 <= k < |nodes| ==>
      nodes[k] in m.front && nodes[k] in m.next && nodes[k] in m.key && nodes[k] != NULL
    requires forall k :: 0 <= k < |nodes| ==> m.front[nodes[k]] == At(nodes, k - 1)
    requires forall k :: 0 <= k < |nodes| ==> m.next[nodes[k]] == At(nodes, k + 1)
    ensures Linked(m, nodes)
  {
    hide At;
  }

  // ---------------------------------------------------------------- hash chains over the nodes

  ghost predicate DistinctKeys(key: map<Ref, Fp>, s: seq<Ref>) {
    && (forall i :: 0 <= i < |s| ==> s[i] in key)
    && (forall i, j :: 0 <= i < j < |s| ==> !Alias(key[s[i]], key[s[j]]))
  }

  /** Every node is in the chain of its bucket, and nothing else is in any chain. */
  ghost predicate Chained(key: map<Ref, Fp>, table: seq<seq<Ref>>, nodes: seq<Ref>) {
    && |table| == HASH_SIZE && DistinctKeys(key, nodes)
    && (forall n :: n in nodes ==> n in key && n in table[Bucket(key[n])])
    && (forall b, n :: 0 <= b < HASH_SIZE && n in table[b] ==> n in nodes && n in key && Bucket(key[n]) == b)
    && (forall b :: 0 <= b < HASH_SIZE ==> DistinctKeys(key, table[b]))
  }

  ghost predicate HasKey(key: map<Ref, Fp>, nodes: seq<Ref>, k: Fp) {
    exists n :: n in nodes && n in key && Alias(key[n], k)
  }

  /** Walks a chain; returns the position of the first key that is the same string, or the length of the chain. */
  method SearchChain(key: map<Ref, Fp>, chain: seq<Ref>, k: Fp) returns (i: nat)
    requires forall j :: 0 <= j < |chain| ==> chain[j] in key
    ensures i <= |chain| && (forall j :: 0 <= j < i ==> !SameString(key[chain[j]], k, 0))
    ensures i < |chain| ==> SameString(key[chain[i]], k, 0)
  {
    hide SameString;
    i := 0;
    while i < |chain|
      invariant i <= |chain| && forall j :: 0 <= j < i ==> !SameString(key[chain[j]], k, 0)
    {
      if SameString(key[chain[i]], k, 0) {
        return;
      }
      i := i + 1;
    }
  }

  lemma FoundInBucket(key: map<Ref, Fp>, table: seq<seq<Ref>>, nodes: seq<Ref>, k: Fp, i: nat)
    requires Chained(key, table, nodes) && i <= |table[Bucket(k)]|
    requires forall j :: 0 <= j < |table[Bucket(k)]| ==> table[Bucket(k)][j] in key
    requires forall j :: 0 <= j < i ==> !SameString(key[table[Bucket(k)][j]], k, 0)
    requires i < |table[Bucket(k)]| ==> SameString(key[table[Bucket(k)][i]], k, 0)
    ensures i < |table[Bucket(k)]| <==> HasKey(key, nodes, k)
    ensures i < |table[Bucket(k)]| ==> table[Bucket(k)][i] in nodes && Alias(key[table[Bucket(k)][i]], k)
  {
    hide Bucket, DistinctKeys, SameString;
    var chain := table[Bucket(k)];
    if i < |chain| {
      assert chain[i] in chain;
    }
    if HasKey(key, nodes, k) {
      var n :| n in nodes && n in key && Alias(key[n], k);
      assert n in chain;
    }
  }

  lemma ChainGrows(key: map<Ref, Fp>, table: seq<seq<Ref>>, nodes: seq<Ref>, q: Ref, k: Fp)
    requires Chained(key, table, nodes) && q !in nodes && !HasKey(key, nodes, k)
    ensures Chained(key[q := k], table[Bucket(k) := table[Bucket(k)] + [q]], [q] + nodes)
  {
    hide Bucket, DistinctKeys, Alias;
    var key', b := key[q := k], Bucket(k);
    var table' := table[b := table[b] + [q]];
    NewKeyInFront(key, nodes, q, k);
    forall c | 0 <= c < HASH_SIZE
      ensures DistinctKeys(key', table'[c])
    {
      NewKeyBehind(key, table[c], q, k, nodes);
    }
    forall n | n in [q] + nodes
      ensures n in key' && n in table'[Bucket(key'[n])]
    {
      if n in nodes {
        assert n in table[Bucket(key[n])];
      } else {
        assert table'[b][|table[b]|] == q;
      }
    }
  }

  lemma NewKeyInFront(key: map<Ref, Fp>, nodes: seq<Ref>, q: Ref, k: Fp)
    requires DistinctKeys(key, nodes) && q !in nodes && !HasKey(key, nodes, k)
    ensures DistinctKeys(key[q := k], [q] + nodes)
  {
    hide Alias;
    var all := [q] + nodes;
    forall i | 0 < i < |all|
      ensures all[i] == nodes[i - 1] && all[i] in nodes && !Alias(k, key[all[i]])
    {
      AliasSymmetric(key[nodes[i - 1]], k);
    }
  }

  lemma NewKeyBehind(key: map<Ref, Fp>, chain: seq<Ref>, q: Ref, k: Fp, nodes: seq<Ref>)
    requires DistinctKeys(key, chain) && q !in nodes && !HasKey(key, nodes, k)
    requires forall n :: n in chain ==> n in nodes
    ensures DistinctKeys(key[q := k], chain) && DistinctKeys(key[q := k], chain + [q])
  {
    hide Alias;
    forall i | 0 <= i < |chain|
      ensures chain[i] != q && chain[i] in nodes
    {
      assert chain[i] in chain;
    }
  }

  /** A node is found by its own key only. */
  lemma OneNodePerKey(key: map<Ref, Fp>, s: seq<Ref>, i: nat, n: Ref)
    requires DistinctKeys(key, s) && i < |s| && n in s && n in key && Alias(key[n], key[s[i]])
    ensures n == s[i]
  {
    hide Alias;
    var k :| 0 <= k < |s| && s[k] == n;
    AliasSymmetric(key[s[k]], key[s[i]]);
  }

  /** Taking one node out of a list without repeated keys. */
  lemma RemovedNodes(key: map<Ref, Fp>, s: seq<Ref>, i: nat)
    requires DistinctKeys(key, s) && i < |s|
    ensures DistinctKeys(key, Removed(s, i))
    ensures forall n :: n in Removed(s, i) <==> n in s && n != s[i]
  {
    hide Alias;
    var r := Removed(s, i);
    assert forall k :: 0 <= k < |r| ==> r[k] == s[if k < i then k else k + 1];
    AliasReflexive(key[s[i]]);
    forall n | n in s && n != s[i]
      ensures n in r
    {
      var k :| 0 <= k < |s| && s[k] == n;
      assert r[if k < i then k else k - 1] == n;
    }
  }

  lemma ChainShrinks(key: map<Ref, Fp>, table: seq<seq<Ref>>, nodes: seq<Ref>, i: nat, j: nat)
    requires Chained(key, table, nodes) && i < |nodes| && nodes[i] in key
    requires var b := Bucket(key[nodes[i]]);
             j < |table[b]| && table[b][j] in key && Alias(key[table[b][j]], key[nodes[i]])
    ensures var b := Bucket(key[nodes[i]]);
            Chained(key, table[b := Removed(table[b], j)], Removed(nodes, i))
  {
    hide Bucket, DistinctKeys, Removed, Alias;
    var b := Bucket(key[nodes[i]]);
    var table', rest := table[b := Removed(table[b], j)], Removed(nodes, i);
    assert table[b][j] in table[b];
    OneNodePerKey(key, nodes, i, table[b][j]);
    RemovedNodes(key, nodes, i);
    RemovedNodes(key, table[b], j);
    forall n | n in rest
      ensures n in key && n in table'[Bucket(key[n])]
    {
      assert n in nodes && n in table[Bucket(key[n])];
    }
    forall c, n | 0 <= c < HASH_SIZE && n in table'[c]
      ensures n in rest && n in key && Bucket(key[n]) == c
    {
      assert n in table[c];
    }
  }

  // ---------------------------------------------------------------- the cache

  lemma KeysOfRemoved(m: Memory, nodes: seq<Ref>, i: nat)
    requires Allocated(m, nodes) && i < |nodes|
    ensures Allocated(m, Removed(nodes, i)) && Keys(m, Removed(nodes, i)) == Removed(Keys(m, nodes), i)
  {
    hide Allocated, Keys, Removed, Removed;
    RemovedIsDistinct(m, nodes, i);
  }

  lemma {:induction false} RemovedIsWithout(keys: seq<Fp>, i: nat, key: Fp)
    requires i < |keys| && NoAliases(keys) && Alias(keys[i], key)
    ensures HasAlias(keys, key) && Removed(keys, i) == Without(keys, key)
    ensures NoAliases(Removed(keys, i)) && !HasAlias(Removed(keys, i), key)
  {
    hide Alias, Removed;
    RemovedIsFirst(keys, i, key);
    var r := Removed(keys, i);
    forall j | 0 <= j < |r|
      ensures !Alias(r[j], key)
    {
      OtherIsNoAlias(keys, i, if j < i then j else j + 1, key);
    }
  }

  lemma OtherIsNoAlias(keys: seq<Fp>, i: nat, j: nat, key: Fp)
    requires i < |keys| && j < |keys| && i != j && NoAliases(keys) && Alias(keys[i], key)
    ensures !Alias(keys[j], key)
  {
    hide Alias;
    AliasSymmetric(keys[i], key);
    AliasSymmetric(keys[j], key);
    if Alias(keys[j], key) {
      AliasTransitive(keys[j], key, keys[i]);
      AliasSymmetric(keys[j], keys[i]);
    }
  }

  lemma {:induction false} RemovedIsFirst(keys: seq<Fp>, i: nat, key: Fp)
    requires i < |keys| && NoAliases(keys) && Alias(keys[i], key)
    ensures Removed(keys, i) == Without(keys, key)
    decreases i
  {
    hide Alias, Removed;
    if i > 0 {
      OtherIsNoAlias(keys, i, 0, key);
      RemovedIsFirst(keys[1..], i - 1, key);
      assert Removed(keys, i) == [keys[0]] + Removed(keys[1..], i - 1);
    } else {
      assert Removed(keys, i) == keys[1..];
    }
  }

  /** Everything that holds between the fields of a cache, apart from its size. */
  ghost predicate Sound(m: Memory, table: seq<seq<Ref>>, nodes: seq<Ref>, head: Ref, back: Ref, free: Ref) {
    && Linked(m, nodes) && Chained(m.key, table, nodes)
    && head == At(nodes, 0) && back == At(nodes, |nodes| - 1)
    && free > NULL && (forall n :: n in nodes ==> n < free)
  }

  lemma SoundFacts(m: Memory, table: seq<seq<Ref>>, nodes: seq<Ref>, head: Ref, back: Ref, free: Ref)
    requires Sound(m, table, nodes, head, back, free)
    ensures Linked(m, nodes) && Allocated(m, nodes) && Chained(m.key, table, nodes) && |table| == HASH_SIZE
    ensures head == At(nodes, 0) && back == At(nodes, |nodes| - 1)
    ensures free > NULL && forall n :: n in nodes ==> n < free
    ensures forall b, j :: 0 <= b < |table| && 0 <= j < |table[b]| ==> table[b][j] in m.key
    ensures nodes != [] ==> back == nodes[|nodes| - 1]
  {
    hide Bucket;
    forall b, j | 0 <= b < |table| && 0 <= j < |table[b]|
      ensures table[b][j] in m.key
    {
      assert table[b][j] in table[b];
    }
  }

  lemma HasKeyIsIn(m: Memory, table: seq<seq<Ref>>, nodes: seq<Ref>, k: Fp)
    requires Linked(m, nodes) && Chained(m.key, table, nodes)
    ensures HasKey(m.key, nodes, k) <==> HasAlias(Keys(m, nodes), k)
    ensures NoAliases(Keys(m, nodes))
  {
    hide Bucket, Keys, At, Alias;
    var ks := Keys(m, nodes);
    if HasKey(m.key, nodes, k) {
      var n :| n in nodes && n in m.key && Alias(m.key[n], k);
      var i :| 0 <= i < |nodes| && nodes[i] == n;
      assert Alias(ks[i], k);
    }
    if HasAlias(ks, k) {
      var i :| 0 <= i < |ks| && Alias(ks[i], k);
      assert nodes[i] in nodes && Alias(m.key[nodes[i]], k);
    }
  }

  class LruCache {
    const maxSize: nat
    var nowSize: int
    var head: Ref
    var back: Ref
    var table: seq<seq<Ref>>
    var memory: Memory
    /** The next address that was never used. */
    var free: Ref
    /** The list from head to back. */
    ghost var nodes: seq<Ref>

    ghost predicate Consistent()
      reads this
    {
      Sound(memory, table, nodes, head, back, free)
    }

    ghost predicate Valid()
      reads this
    {
      Consistent() && nowSize == |nodes| <= maxSize
    }

    ghost function Contents(): seq<Fp>
      requires Consistent()
      reads this
    {
      Keys(memory, nodes)
    }

    constructor (maxSize: nat)
      ensures Valid() && Contents() == [] && this.maxSize == maxSize
    {
      this.maxSize, nowSize, head, back, nodes := maxSize, 0, NULL, NULL, [];
      table := seq(HASH_SIZE, _ => []);
      memory, free := Memory(map[], map[], map[]), 1;
    }

    /** delete_node, with delete_hash. */
    method DeleteNode(t: Ref, ghost i: nat)
      requires Consistent() && i < |nodes| && nodes[i] == t
      modifies this
      ensures Consistent() && nowSize == old(nowSize) - 1 && |nodes| == |old(nodes)| - 1
      ensures Contents() == Removed(old(Contents()), i)
    {
      hide Bucket, Sound, Linked, Allocated, Chained, Removed, Keys, At, Alias, SameString;
      SoundFacts(memory, table, nodes, head, back, free);
      nowSize := nowSize - 1;
      AllocatedAt(memory, nodes, i);
      var k := memory.key[t];
      var j := SearchChain(memory.key, table[Bucket(k)], k);
      FoundInBucket(memory.key, table, nodes, k, j);
      OwnKey(memory.key, nodes, t);
      ChainShrinks(memory.key, table, nodes, i, j);
      table := table[Bucket(k) := Removed(table[Bucket(k)], j)];
      KeysOfRemoved(memory, nodes, i);
      ghost var before := memory;
      memory, head, back := Unlink(memory, head, back, t, nodes, i);
      SameKeySameContents(before, memory, Removed(nodes, i));
      ghost var rest := Removed(nodes, i);
      StillBelow(nodes, i, rest, free);
      nodes := rest;
      SoundFrom(memory, table, nodes, head, back, free);
    }

    method AddNodeToHead(key: Fp)
      requires Consistent() && nowSize == |nodes| <= maxSize && !HasAlias(Contents(), key)
      modifies this
      ensures Valid() && Contents() == Put(old(Contents()), key, maxSize)
    {
      hide Bucket, Sound, Linked, Allocated, Chained, Removed, Keys, At, Used, Without, HasAlias;
      SoundFacts(memory, table, nodes, head, back, free);
      HasKeyIsIn(memory, table, nodes, key);
      var q := free;
      ChainGrows(memory.key, table, nodes, q, key);
      ghost var before := memory;
      memory, head, back := PushFront(memory, head, back, q, key, nodes);
      PushedContents(before, memory, nodes, q, key);
      table := table[Bucket(key) := table[Bucket(key)] + [q]];
      nodes, free := [q] + nodes, free + 1;
      SoundFrom(memory, table, nodes, head, back, free);
      if nowSize < maxSize {
        nowSize := nowSize + 1;
      } else {
        SoundFacts(memory, table, nodes, head, back, free);
        DropLast(Contents());
        DeleteNode(back, |nodes| - 1);
        nowSize := nowSize + 1;
      }
    }

    /** find_hash: a key that is taken for a cached one takes its place and becomes the most recently used. */
    method Find(key: Fp) returns (found: bool)
      requires Valid()
      modifies this
      ensures Valid() && (found <==> HasAlias(old(Contents()), key)) && Contents() == Used(old(Contents()), key)
    {
      hide Bucket, Sound, Linked, Allocated, Chained, Removed, Keys, At, Without, HasKey, Alias, SameString, HasAlias;
      SoundFacts(memory, table, nodes, head, back, free);
      HasKeyIsIn(memory, table, nodes, key);
      var chain := table[Bucket(key)];
      var i := SearchChain(memory.key, chain, key);
      FoundInBucket(memory.key, table, nodes, key, i);
      found := i < |chain|;
      if found {
        var p := chain[i];
        ghost var k :| 0 <= k < |nodes| && nodes[k] == p;
        RemovedIsWithout(Contents(), k, key);
        DeleteNode(p, k);
        AddNodeToHead(key);
      }
    }

    method PutData(key: Fp) returns (added: bool)
      requires Valid()
      modifies this
      ensures Valid() && (added <==> !HasAlias(old(Contents()), key))
      ensures Contents() == Put(old(Contents()), key, maxSize)
    {
      hide Bucket, Sound, Keys, Without, HasAlias;
      var found := Find(key);
      if found {
        return false;
      }
      AddNodeToHead(key);
      added := true;
    }

    /** output_conf: the keys from head to back, by following the list. */
    method OutputConf() returns (saved: seq<Fp>)
      requires Valid()
      ensures saved == Contents()
    {
      hide Bucket, Sound, Linked, Allocated, Chained, Keys, At;
      SoundFacts(memory, table, nodes, head, back, free);
      saved := [];
      var p := head;
      ghost var i := 0;
      while p != NULL
        invariant 0 <= i <= |nodes| && p == At(nodes, i) && saved == Contents()[..i]
        decreases |nodes| - i
      {
        NotPastEnd(nodes, i);
        AllocatedAt(memory, nodes, i);
        LinkedAt(memory, nodes, i, 0);
        saved := saved + [memory.key[p]];
        p := memory.next[p];
        i := i + 1;
      }
      AtEnd(memory, nodes, i);
    }

    /** init_conf: adds the saved keys one by one, so that the last one ends up in front. */
    method InitConf(saved: seq<Fp>)
      requires Valid() && Contents() == [] && |saved| <= maxSize && NoAliases(saved)
      modifies this
      ensures Valid() && Contents() == Reversed(saved)
    {
      hide Bucket, Sound, Keys, Without, Alias, HasAlias;
      for i := 0 to |saved|
        invariant Valid() && Contents() == Reversed(saved[..i])
      {
        NotYetThere(saved, i);
        assert saved[..i + 1] == saved[..i] + [saved[i]];
        ReversedAppend(saved[..i], saved[i]);
        AddNodeToHead(saved[i]);
      }
      assert saved[..|saved|] == saved;
    }
  }

  function Reversed(s: seq<Fp>): (r: seq<Fp>)
    ensures |r| == |s|
  {
    if s == [] then [] else Reversed(s[1..]) + [s[0]]
  }

  lemma {:induction false} ReversedAppend(s: seq<Fp>, x: Fp)
    ensures Reversed(s + [x]) == [x] + Reversed(s)
  {
    if s != [] {
      assert (s + [x])[1..] == s[1..] + [x];
      ReversedAppend(s[1..], x);
    }
  }

  /** Reloading keeps the set of keys, not their order. */
  lemma {:induction false} ReversedHas(s: seq<Fp>, x: Fp)
    ensures x in Reversed(s) <==> x in s
  {
    if s != [] {
      ReversedHas(s[1..], x);
    }
  }

  lemma NotYetThere(saved: seq<Fp>, i: nat)
    requires i < |saved| && NoAliases(saved)
    ensures !HasAlias(Reversed(saved[..i]), saved[i])
  {
    hide Alias, Reversed;
    var r := Reversed(saved[..i]);
    forall j | 0 <= j < |r|
      ensures !Alias(r[j], saved[i])
    {
      assert r[j] in r;
      ReversedHas(saved[..i], r[j]);
      var k :| 0 <= k < i && saved[..i][k] == r[j];
    }
  }

  lemma NotPastEnd(nodes: seq<Ref>, i: nat)
    requires i <= |nodes| && At(nodes, i) != NULL
    ensures i < |nodes| && nodes[i] == At(nodes, i)
  {
  }

  lemma AtEnd(m: Memory, nodes: seq<Ref>, i: nat)
    requires Linked(m, nodes) && i <= |nodes| && At(nodes, i) == NULL
    ensures i == |nodes|
  {
    if i < |nodes| {
      AllocatedAt(m, nodes, i);
    }
  }

  lemma OwnKey(key: map<Ref, Fp>, nodes: seq<Ref>, t: Ref)
    requires t in nodes && t in key
    ensures HasKey(key, nodes, key[t])
  {
    AliasReflexive(key[t]);
  }

  lemma SameKeySameContents(m: Memory, m': Memory, nodes: seq<Ref>)
    requires Allocated(m, nodes) && Linked(m', nodes) && m'.key == m.key
    ensures Allocated(m', nodes) && Keys(m', nodes) == Keys(m, nodes)
  {
    hide Keys, At;
  }

  lemma PushedContents(m: Memory, m': Memory, nodes: seq<Ref>, q: Ref, key: Fp)
    requires Allocated(m, nodes) && Linked(m', [q] + nodes) && m'.key == m.key[q := key] && q !in nodes
    ensures Allocated(m', [q] + nodes) && Keys(m', [q] + nodes) == [key] + Keys(m, nodes)
  {
    hide Keys, At;
    var all := [q] + nodes;
    forall k | 0 <= k < |all|
      ensures m'.key[all[k]] == ([key] + Keys(m, nodes))[k]
    {
      assert k > 0 ==> all[k] == nodes[k - 1] && nodes[k - 1] in nodes;
    }
  }

  lemma DropLast(s: seq<Fp>)
    requires s != []
    ensures Removed(s, |s| - 1) == s[..|s| - 1]
  {
  }

  lemma StillBelow(nodes: seq<Ref>, i: nat, r: seq<Ref>, free: Ref)
    requires i < |nodes| && r == Removed(nodes, i) && forall n :: n in nodes ==> n < free
    ensures forall n :: n in r ==> n < free
  {
    forall n | n in r
      ensures n < free
    {
      var k :| 0 <= k < |r| && r[k] == n;
      assert nodes[if k < i then k else k + 1] in nodes;
    }
  }

  lemma SoundFrom(m: Memory, table: seq<seq<Ref>>, nodes: seq<Ref>, head: Ref, back: Ref, free: Ref)
    requires Linked(m, nodes) && Chained(m.key, table, nodes)
    requires head == At(nodes, 0) && back == At(nodes, |nodes| - 1)
    requires free > NULL && (forall n :: n in nodes ==> n < free)
    ensures Sound(m, table, nodes, head, back, free)
  {
  }
}
