/** What a fingerprint cache of bounded size remembers: the keys used last (prototype/lrucache.cc). */
module Recency {
  import opened Common
  import opened Fingerprints
  import opened LruFingerprints

  /** The use at `i` was the last one of its key. */
  ghost predicate IsLastUse(uses: seq<Fp>, i: nat) {
    i < |uses| && forall j :: i < j < |uses| ==> !Alias(uses[i], uses[j])
  }

  /** The keys by their last use, the latest first: the list without a capacity. */
  ghost function ByLastUse(uses: seq<Fp>): seq<Fp> {
    if uses == [] then []
    else
      var key := uses[|uses| - 1];
      [key] + Without(ByLastUse(uses[..|uses| - 1]), key)
  }

  /** `at` are the positions of all last uses, from the latest to the first. */
  ghost predicate AreLastUses(uses: seq<Fp>, at: seq<nat>) {
    && (forall p, q :: 0 <= p < q < |at| ==> at[p] > at[q])
    && (forall p :: 0 <= p < |at| ==> IsLastUse(uses, at[p]))
    && (forall i: nat :: IsLastUse(uses, i) ==> i in at)
  }

  /** The list has every key once, in the form it was last used with, in the order of the last uses. */
  lemma {:induction false} LastUses(uses: seq<Fp>) returns (at: seq<nat>)
    ensures AreLastUses(uses, at) && |at| == |ByLastUse(uses)|
    ensures forall p :: 0 <= p < |at| ==> ByLastUse(uses)[p] == uses[at[p]]
    ensures NoAliases(ByLastUse(uses))
  {
    hide Alias, Without;
    if uses == [] {
      at := [];
    } else {
      var front := uses[..|uses| - 1];
      var before := LastUses(front);
      at := LaterUse(uses, before, ByLastUse(front));
      LastUsesDiffer(uses, at, ByLastUse(uses));
    }
  }

  lemma LastUsesDiffer(uses: seq<Fp>, at: seq<nat>, keys: seq<Fp>)
    requires AreLastUses(uses, at) && |at| == |keys| && forall p :: 0 <= p < |keys| ==> keys[p] == uses[at[p]]
    ensures NoAliases(keys)
  {
    hide Alias;
    forall p, q | 0 <= p < q < |keys|
      ensures !Alias(keys[p], keys[q])
    {
      assert IsLastUse(uses, at[q]) && at[p] > at[q];
      AliasSymmetric(keys[p], keys[q]);
    }
  }

  /** One use more: an earlier one of the same key is no longer the last. */
  lemma LaterUse(uses: seq<Fp>, before: seq<nat>, keys: seq<Fp>) returns (at: seq<nat>)
    requires uses != [] && AreLastUses(uses[..|uses| - 1], before) && NoAliases(keys) && |before| == |keys|
    requires forall p :: 0 <= p < |keys| ==> keys[p] == uses[before[p]]
    ensures AreLastUses(uses, at) && |at| == 1 + |Without(keys, uses[|uses| - 1])|
    ensures forall p :: 0 <= p < |at| ==> ([uses[|uses| - 1]] + Without(keys, uses[|uses| - 1]))[p] == uses[at[p]]
  {
    var n := |uses| - 1;
    Positions(uses[..n], before);
    hide *;
    var rest := Remaining(uses, before, keys);
    StillLast(uses, before, rest);
    at := [n] + rest;
  }

  /** The earlier uses that are still the last ones. */
  ghost predicate Stay(uses: seq<Fp>, before: seq<nat>, rest: seq<nat>) {
    uses != [] && forall i :: i in rest <==> i in before && i < |uses| && !Alias(uses[i], uses[|uses| - 1])
  }

  lemma Remaining(uses: seq<Fp>, before: seq<nat>, keys: seq<Fp>) returns (rest: seq<nat>)
    requires uses != [] && NoAliases(keys) && |before| == |keys|
    requires forall p :: 0 <= p < |keys| ==> before[p] < |uses| - 1 && keys[p] == uses[before[p]]
    requires forall p, q :: 0 <= p < q < |before| ==> before[p] > before[q]
    ensures |rest| == |Without(keys, uses[|uses| - 1])| && Stay(uses, before, rest)
    ensures forall p :: 0 <= p < |rest| ==> rest[p] < |uses| - 1 && Without(keys, uses[|uses| - 1])[p] == uses[rest[p]]
    ensures forall p, q :: 0 <= p < q < |rest| ==> rest[p] > rest[q]
  {
    hide *;
    var key := uses[|uses| - 1];
    if p :| 0 <= p < |keys| && Alias(keys[p], key) {
      rest := Removed(before, p);
      RemovedIsWithout(keys, p, key);
      OthersStay(uses, before, keys, p);
    } else {
      rest := before;
      NoneFound(keys, key);
      NothingWithout(keys, key);
      AllStay(uses, before, keys);
    }
  }

  lemma AllStay(uses: seq<Fp>, before: seq<nat>, keys: seq<Fp>)
    requires uses != [] && |before| == |keys| && !HasAlias(keys, uses[|uses| - 1])
    requires forall p :: 0 <= p < |keys| ==> before[p] < |uses| && keys[p] == uses[before[p]]
    ensures Stay(uses, before, before)
  {
    hide Alias;
    forall i | i in before
      ensures i < |uses| && !Alias(uses[i], uses[|uses| - 1])
    {
      var p :| 0 <= p < |before| && before[p] == i;
      assert !Alias(keys[p], uses[|uses| - 1]);
    }
  }

  lemma Positions(uses: seq<Fp>, at: seq<nat>)
    requires AreLastUses(uses, at)
    ensures forall p, q :: 0 <= p < q < |at| ==> at[p] > at[q]
    ensures forall p :: 0 <= p < |at| ==> at[p] < |uses|
  {
  }

  lemma NoneFound(keys: seq<Fp>, key: Fp)
    requires forall p :: 0 <= p < |keys| ==> !Alias(keys[p], key)
    ensures !HasAlias(keys, key)
  {
  }

  lemma OthersStay(uses: seq<Fp>, before: seq<nat>, keys: seq<Fp>, p: nat)
    requires uses != [] && p < |keys| == |before| && NoAliases(keys) && Alias(keys[p], uses[|uses| - 1])
    requires forall q :: 0 <= q < |keys| ==> before[q] < |uses| && keys[q] == uses[before[q]]
    ensures Stay(uses, before, Removed(before, p))
  {
    hide Alias, NoAliases, Removed;
    var rest := Removed(before, p);
    forall r | 0 <= r < |keys| && r != p
      ensures !Alias(keys[r], uses[|uses| - 1]) && before[r] in rest
    {
      OtherIsNoAlias(keys, p, r, uses[|uses| - 1]);
      assert before[r] == rest[if r < p then r else r - 1];
    }
  }

  lemma StillLast(uses: seq<Fp>, before: seq<nat>, rest: seq<nat>)
    requires uses != [] && AreLastUses(uses[..|uses| - 1], before) && Stay(uses, before, rest)
    requires forall p, q :: 0 <= p < q < |rest| ==> rest[p] > rest[q]
    ensures AreLastUses(uses, [|uses| - 1] + rest)
  {
    hide Alias;
    var n := |uses| - 1;
    var front, at := uses[..n], [n] + rest;
    forall i | i in rest
      ensures i < n && IsLastUse(uses, i)
    {
      assert IsLastUse(front, i);
    }
    forall p | 0 <= p < |at|
      ensures IsLastUse(uses, at[p]) && (p > 0 ==> at[p] < n)
    {
      assert p > 0 ==> at[p] == rest[p - 1] && rest[p - 1] in rest;
    }
    forall i: nat | IsLastUse(uses, i)
      ensures i in at
    {
      assert i == n ==> at[0] == i;
      assert i < n ==> IsLastUse(front, i);
      assert i in rest ==> i in at;
    }
  }

  lemma {:induction false} NothingWithout(keys: seq<Fp>, key: Fp)
    requires !HasAlias(keys, key)
    ensures Without(keys, key) == keys
  {
    hide Alias;
    if keys != [] {
      assert !Alias(keys[0], key);
      assert forall i :: 0 <= i < |keys| - 1 ==> keys[1..][i] == keys[i + 1];
      NothingWithout(keys[1..], key);
    }
  }

  ghost function Front(keys: seq<Fp>, n: nat): seq<Fp> {
    if |keys| <= n then keys else keys[..n]
  }

  /** Cutting the list to a capacity before or after a key is put into it makes no difference. */
  lemma PutTruncates(keys: seq<Fp>, key: Fp, max: nat)
    requires NoAliases(keys)
    ensures Put(Front(keys, max), key, max) == Front([key] + Without(keys, key), max)
  {
    hide Alias, Without, Removed;
    var front := Front(keys, max);
    if i :| 0 <= i < |keys| && Alias(keys[i], key) {
      RemovedIsWithout(keys, i, key);
      if i < |front| {
        assert front[i] == keys[i];
        RemovedIsWithout(front, i, key);
      } else {
        forall j | 0 <= j < |front|
          ensures !Alias(front[j], key)
        {
          OtherIsNoAlias(keys, i, j, key);
        }
      }
    } else {
      NothingWithout(keys, key);
    }
  }
}
