/**
The merging iterator (util/leveldb/table/merger.cc): a cursor that moves both ways over the sorted
union of its children, with each child at its own position.
 */
module Merger {
  import opened Keys

  // ---------------------------------------------------------------- the sorted union

  /** No internal key occurs in two children. */
  ghost predicate Distinct(a: seq<Entry>, b: seq<Entry>) {
    forall x, y :: x in a && y in b ==> x.key != y.key
  }

  ghost predicate ValidChildren(children: seq<seq<Entry>>) {
    && (forall i :: 0 <= i < |children| ==> Sorted(children[i]))
    && (forall i, j :: 0 <= i < j < |children| ==> Distinct(children[i], children[j]))
  }

  function MergeTwo(a: seq<Entry>, b: seq<Entry>): (r: seq<Entry>)
    ensures forall e :: e in r <==> e in a || e in b
  {
    if a == [] then b
    else if b == [] then a
    else if Less(a[0].key, b[0].key) then [a[0]] + MergeTwo(a[1..], b)
    else [b[0]] + MergeTwo(a, b[1..])
  }

  lemma {:induction false} MergeTwoSorted(a: seq<Entry>, b: seq<Entry>)
    requires Sorted(a) && Sorted(b) && Distinct(a, b)
    ensures Sorted(MergeTwo(a, b))
  {
    if a != [] && b != [] {
      assert a[0].key != b[0].key;
      CompareIsLess(a[0].key, b[0].key);
      if Less(a[0].key, b[0].key) {
        MergeTwoSorted(a[1..], b);
        assert forall e :: e in MergeTwo(a[1..], b) ==> Less(a[0].key, e.key);
      } else {
        MergeTwoSorted(a, b[1..]);
        assert forall e :: e in MergeTwo(a, b[1..]) ==> Less(b[0].key, e.key);
      }
    }
  }

  function Merged(children: seq<seq<Entry>>): (r: seq<Entry>) {
    if children == [] then [] else MergeTwo(Merged(children[..|children| - 1]), children[|children| - 1])
  }

  lemma {:induction false} MergedHolds(children: seq<seq<Entry>>, i: nat, e: Entry)
    requires i < |children| && e in children[i]
    ensures e in Merged(children)
  {
    var n := |children| - 1;
    if i < n {
      assert children[..n][i] == children[i];
      MergedHolds(children[..n], i, e);
    }
  }

  lemma {:induction false} MergedOwner(children: seq<seq<Entry>>, e: Entry) returns (i: nat)
    requires e in Merged(children)
    ensures i < |children| && e in children[i]
  {
    var n := |children| - 1;
    if e in children[n] {
      i := n;
    } else {
      i := MergedOwner(children[..n], e);
    }
  }

  lemma {:induction false} MergedSorted(children: seq<seq<Entry>>)
    requires ValidChildren(children)
    ensures Sorted(Merged(children))
  {
    if children != [] {
      var n := |children| - 1;
      assert forall i :: 0 <= i < n ==> children[..n][i] == children[i];
      MergedSorted(children[..n]);
      forall x, y | x in Merged(children[..n]) && y in children[n]
        ensures x.key != y.key
      {
        var i := MergedOwner(children[..n], x);
        assert Distinct(children[i], children[n]);
      }
      MergeTwoSorted(Merged(children[..n]), children[n]);
    }
  }

  // ---------------------------------------------------------------- child positions

  /** `e` comes before position `t` of the union. */
  predicate Before(all: seq<Entry>, t: nat, e: Entry)
    requires t <= |all|
  {
    t == |all| || Less(e.key, all[t].key)
  }

  /** Every child stands at its first entry that is not before position `t`. */
  ghost predicate Ahead(children: seq<seq<Entry>>, all: seq<Entry>, pos: seq<nat>, t: nat) {
    && |pos| == |children| && t <= |all|
    && forall i :: 0 <= i < |children| ==> ChildAhead(children[i], all, pos[i], t)
  }

  ghost predicate ChildAhead(child: seq<Entry>, all: seq<Entry>, p: nat, t: nat)
    requires t <= |all|
  {
    p <= |child| && forall j :: 0 <= j < |child| ==> (j < p <==> Before(all, t, child[j]))
  }

  /** `e` is at or before position `t` of the union; nothing is before position -1. */
  predicate UpTo(all: seq<Entry>, t: int, e: Entry)
    requires -1 <= t < |all|
  {
    t >= 0 && !Less(all[t].key, e.key)
  }

  /** Every child stands at its last entry up to position `t`, or is invalid if it has none. */
  ghost predicate Back(children: seq<seq<Entry>>, all: seq<Entry>, pos: seq<nat>, t: int) {
    && |pos| == |children| && -1 <= t < |all|
    && forall i :: 0 <= i < |children| ==> ChildBack(children[i], all, pos[i], t)
  }

  ghost predicate ChildBack(child: seq<Entry>, all: seq<Entry>, p: nat, t: int)
    requires -1 <= t < |all|
  {
    && p <= |child|
    && if p < |child| then forall j :: 0 <= j < |child| ==> (j <= p <==> UpTo(all, t, child[j]))
       else forall j :: 0 <= j < |child| ==> !UpTo(all, t, child[j])
  }

  // ---------------------------------------------------------------- choosing the current child

  /** `all` is the sorted union of the children. */
  ghost predicate IsUnion(children: seq<seq<Entry>>, all: seq<Entry>) {
    ValidChildren(children) && all == Merged(children)
  }

  lemma UnionSorted(children: seq<seq<Entry>>, all: seq<Entry>)
    requires IsUnion(children, all)
    ensures Sorted(all)
  {
    MergedSorted(children);
  }

  lemma UnionOwner(children: seq<seq<Entry>>, all: seq<Entry>, t: nat) returns (c: nat, j: nat)
    requires IsUnion(children, all) && t < |all|
    ensures c < |children| && j < |children[c]| && children[c][j] == all[t] && Sorted(children[c])
  {
    assert all[t] in all;
    c := MergedOwner(children, all[t]);
    j :| 0 <= j < |children[c]| && children[c][j] == all[t];
  }

  lemma ChildStandsAhead(child: seq<Entry>, all: seq<Entry>, p: nat, t: nat, j: nat)
    requires Sorted(child) && t < |all| && ChildAhead(child, all, p, t) && j < |child| && child[j] == all[t]
    ensures p == j
  {
    assert !Before(all, t, child[j]);
    var q := if p < j then p else j;
    assert q < p <==> Before(all, t, child[q]);
  }

  lemma ChildStandsBack(child: seq<Entry>, all: seq<Entry>, p: nat, t: nat, j: nat)
    requires Sorted(child) && t < |all| && ChildBack(child, all, p, t) && j < |child| && child[j] == all[t]
    ensures p == j
  {
    assert UpTo(all, t, child[j]);
    var q := if j < p then p else j;
    assert q <= p <==> UpTo(all, t, child[q]);
  }

  /** The child chosen by FindSmallest: valid, and no valid child has a smaller key. */
  ghost predicate Smallest(children: seq<seq<Entry>>, pos: seq<nat>, c: Option<nat>)
    requires |pos| == |children|
  {
    match c
    case None => forall i :: 0 <= i < |children| ==> pos[i] >= |children[i]|
    case Some(k) =>
      && k < |children| && pos[k] < |children[k]|
      && forall i :: 0 <= i < |children| && pos[i] < |children[i]| ==>
           !Less(children[i][pos[i]].key, children[k][pos[k]].key)
  }

  ghost predicate Largest(children: seq<seq<Entry>>, pos: seq<nat>, c: Option<nat>)
    requires |pos| == |children|
  {
    match c
    case None => forall i :: 0 <= i < |children| ==> pos[i] >= |children[i]|
    case Some(k) =>
      && k < |children| && pos[k] < |children[k]|
      && forall i :: 0 <= i < |children| && pos[i] < |children[i]| ==>
           !Less(children[k][pos[k]].key, children[i][pos[i]].key)
  }

  method FindSmallest(children: seq<seq<Entry>>, pos: seq<nat>) returns (smallest: Option<nat>)
    requires |pos| == |children|
    ensures Smallest(children, pos, smallest)
  {
    smallest := None;
    for i := 0 to |children|
      invariant smallest.None? ==> forall k :: 0 <= k < i ==> pos[k] >= |children[k]|
      invariant smallest.Some? ==> smallest.value < i && pos[smallest.value] < |children[smallest.value]|
      invariant smallest.Some? ==> forall k :: 0 <= k < i && pos[k] < |children[k]| ==>
        !Less(children[k][pos[k]].key, children[smallest.value][pos[smallest.value]].key)
    {
      if pos[i] < |children[i]| {
        if smallest.None? {
          smallest := Some(i);
        } else {
          CompareIsLess(children[i][pos[i]].key, children[smallest.value][pos[smallest.value]].key);
          if Compare(children[i][pos[i]].key, children[smallest.value][pos[smallest.value]].key) < 0 {
            smallest := Some(i);
          }
        }
      }
    }
  }

  method FindLargest(children: seq<seq<Entry>>, pos: seq<nat>) returns (largest: Option<nat>)
    requires |pos| == |children|
    ensures Largest(children, pos, largest)
  {
    largest := None;
    for i := |children| downto 0
      invariant largest.None? ==> forall k :: i <= k < |children| ==> pos[k] >= |children[k]|
      invariant largest.Some? ==> i <= largest.value < |children| && pos[largest.value] < |children[largest.value]|
      invariant largest.Some? ==> forall k :: i <= k < |children| && pos[k] < |children[k]| ==>
        !Less(children[largest.value][pos[largest.value]].key, children[k][pos[k]].key)
    {
      if pos[i] < |children[i]| {
        if largest.None? {
          largest := Some(i);
        } else {
          CompareIsLess(children[i][pos[i]].key, children[largest.value][pos[largest.value]].key);
          if Compare(children[i][pos[i]].key, children[largest.value][pos[largest.value]].key) > 0 {
            largest := Some(i);
          }
        }
      }
    }
  }

  /** With all children ahead of `t`, the smallest is the union's entry at `t`. */
  lemma SmallestIsNext(children: seq<seq<Entry>>, all: seq<Entry>, pos: seq<nat>, t: nat, c: Option<nat>)
    requires IsUnion(children, all) && Ahead(children, all, pos, t) && Smallest(children, pos, c)
    ensures c.None? <==> t == |all|
    ensures c.Some? ==> children[c.value][pos[c.value]] == all[t]
  {
    assert forall i :: 0 <= i < |children| ==> ChildAhead(children[i], all, pos[i], t);
    if t < |all| {
      var o, j := UnionOwner(children, all, t);
      assert ChildAhead(children[o], all, pos[o], t);
      ChildStandsAhead(children[o], all, pos[o], t, j);
      var k := c.value;
      assert ChildAhead(children[k], all, pos[k], t);
      CompareIsLess(children[k][pos[k]].key, all[t].key);
      SameKeySameEntry(children, o, pos[o], k, pos[k]);
    }
  }

  lemma LargestIsPrevious(children: seq<seq<Entry>>, all: seq<Entry>, pos: seq<nat>, t: int, c: Option<nat>)
    requires IsUnion(children, all) && Back(children, all, pos, t) && Largest(children, pos, c)
    ensures c.None? <==> t == -1
    ensures c.Some? ==> children[c.value][pos[c.value]] == all[t]
  {
    assert forall i :: 0 <= i < |children| ==> ChildBack(children[i], all, pos[i], t);
    if t >= 0 {
      var o, j := UnionOwner(children, all, t);
      assert ChildBack(children[o], all, pos[o], t);
      ChildStandsBack(children[o], all, pos[o], t, j);
      var k := c.value;
      assert ChildBack(children[k], all, pos[k], t);
      CompareIsLess(children[k][pos[k]].key, all[t].key);
      SameKeySameEntry(children, o, pos[o], k, pos[k]);
    }
  }

  lemma SameKeySameEntry(children: seq<seq<Entry>>, a: nat, i: nat, b: nat, j: nat)
    requires ValidChildren(children) && a < |children| && b < |children|
    requires i < |children[a]| && j < |children[b]| && children[a][i].key == children[b][j].key
    ensures a == b && i == j
  {
    assert children[a][i] in children[a] && children[b][j] in children[b];
    assert Sorted(children[a]);
    assert forall x, y :: 0 <= x < y < |children| ==> Distinct(children[x], children[y]);
  }

  // ---------------------------------------------------------------- moving the children

  lemma ChildSeeks(child: seq<Entry>, all: seq<Entry>, t: nat, k: InternalKey)
    requires Sorted(child) && Sorted(all) && t <= |all|
    requires forall r :: 0 <= r < t ==> Less(all[r].key, k)
    requires t < |all| ==> !Less(all[t].key, k)
    requires forall e :: e in child ==> e in all
    ensures ChildAhead(child, all, SeekIndex(child, k), t)
  {
    var p := SeekIndex(child, k);
    forall j | 0 <= j < |child|
      ensures j < p <==> Before(all, t, child[j])
    {
      assert child[j] in all;
      var r :| 0 <= r < |all| && all[r] == child[j];
      assert r < t <==> Before(all, t, child[j]);
      assert p < j ==> Less(child[p].key, child[j].key);
      assert t < r ==> Less(all[t].key, all[r].key);
    }
  }

  /** Stepping the current child over the union's entry at `t`; the others do not hold it. */
  lemma ChildSteps(child: seq<Entry>, all: seq<Entry>, p: nat, t: nat)
    requires Sorted(child) && Sorted(all) && t < |all| && ChildAhead(child, all, p, t)
    requires forall e :: e in child ==> e in all
    ensures p < |child| && child[p] == all[t] ==> ChildAhead(child, all, p + 1, t + 1)
    ensures all[t] !in child ==> ChildAhead(child, all, p, t + 1)
  {
    forall j | 0 <= j < |child|
      ensures Before(all, t + 1, child[j]) <==> Before(all, t, child[j]) || child[j] == all[t]
    {
      assert child[j] in all;
      var r :| 0 <= r < |all| && all[r] == child[j];
    }
  }

  /** A child ahead of `t` turned back: one step before, or the last entry, or invalid. */
  lemma ChildTurnsBack(child: seq<Entry>, all: seq<Entry>, p: nat, t: nat)
    requires Sorted(child) && Sorted(all) && t < |all| && ChildAhead(child, all, p, t) && all[t] !in child
    requires forall e :: e in child ==> e in all
    ensures ChildBack(child, all, if p == 0 then |child| else p - 1, t)
  {
    forall j | 0 <= j < |child|
      ensures UpTo(all, t, child[j]) <==> j < p
    {
      assert child[j] in all && child[j] in child;
      var r :| 0 <= r < |all| && all[r] == child[j];
    }
  }

  lemma ChildStepsBack(child: seq<Entry>, all: seq<Entry>, p: nat, t: nat)
    requires Sorted(child) && Sorted(all) && t < |all| && ChildBack(child, all, p, t)
    requires forall e :: e in child ==> e in all
    ensures p < |child| && child[p] == all[t] ==> ChildBack(child, all, if p == 0 then |child| else p - 1, t - 1)
    ensures all[t] !in child ==> ChildBack(child, all, p, t - 1)
  {
    forall j | 0 <= j < |child|
      ensures UpTo(all, t - 1, child[j]) <==> UpTo(all, t, child[j]) && child[j] != all[t]
    {
      assert child[j] in all && child[j] in child;
      var r :| 0 <= r < |all| && all[r] == child[j];
      assert UpTo(all, t, child[j]) <==> r <= t;
      assert t > 0 ==> (UpTo(all, t - 1, child[j]) <==> r <= t - 1);
    }
  }

  lemma ChildAt(child: seq<Entry>, all: seq<Entry>, p: nat, t: nat)
    requires Sorted(child) && t < |all| && p < |child| && child[p] == all[t]
    ensures ChildAhead(child, all, p, t) && ChildBack(child, all, p, t)
  {
    forall j | 0 <= j < |child|
      ensures j < p <==> Less(child[j].key, child[p].key)
      ensures j > p <==> Less(child[p].key, child[j].key)
    {
    }
  }

  lemma ChildFacts(children: seq<seq<Entry>>, all: seq<Entry>, i: nat)
    requires IsUnion(children, all) && i < |children|
    ensures Sorted(children[i]) && Sorted(all) && forall e :: e in children[i] ==> e in all
  {
    UnionSorted(children, all);
    forall e | e in children[i]
      ensures e in all
    {
      MergedHolds(children, i, e);
    }
  }

  /** Only the owner of an entry of the union holds it. */
  lemma OtherLacks(children: seq<seq<Entry>>, all: seq<Entry>, c: nat, p: nat, i: nat, t: nat)
    requires IsUnion(children, all) && c < |children| && i < |children| && i != c
    requires t < |all| && p < |children[c]| && children[c][p] == all[t]
    ensures all[t] !in children[i]
  {
    if all[t] in children[i] {
      var j :| 0 <= j < |children[i]| && children[i][j] == all[t];
      SameKeySameEntry(children, c, p, i, j);
    }
  }

  function LastPos(child: seq<Entry>): (p: nat) {
    if |child| == 0 then 0 else |child| - 1
  }

  function PrevPos(child: seq<Entry>, p: nat): (q: nat) {
    if p == 0 then |child| else p - 1
  }

  method SeekChildren(children: seq<seq<Entry>>, target: InternalKey, ghost all: seq<Entry>) returns (pos: seq<nat>)
    requires IsUnion(children, all)
    ensures Ahead(children, all, pos, SeekIndex(all, target))
  {
    pos := [];
    for i := 0 to |children|
      invariant |pos| == i
      invariant forall k :: 0 <= k < i ==> ChildAhead(children[k], all, pos[k], SeekIndex(all, target))
    {
      ChildFacts(children, all, i);
      ChildSeeks(children[i], all, SeekIndex(all, target), target);
      pos := pos + [SeekIndex(children[i], target)];
    }
  }

  method FirstOfChildren(children: seq<seq<Entry>>, ghost all: seq<Entry>) returns (pos: seq<nat>)
    requires IsUnion(children, all)
    ensures Ahead(children, all, pos, 0)
  {
    pos := [];
    for i := 0 to |children|
      invariant |pos| == i
      invariant forall k :: 0 <= k < i ==> ChildAhead(children[k], all, pos[k], 0)
    {
      ChildFacts(children, all, i);
      ChildStarts(children[i], all);
      pos := pos + [0];
    }
  }

  lemma ChildStarts(child: seq<Entry>, all: seq<Entry>)
    requires Sorted(all) && forall e :: e in child ==> e in all
    ensures ChildAhead(child, all, 0, 0)
  {
    forall j | 0 <= j < |child|
      ensures !Before(all, 0, child[j])
    {
      assert child[j] in all;
      var r :| 0 <= r < |all| && all[r] == child[j];
    }
  }

  method LastOfChildren(children: seq<seq<Entry>>, ghost all: seq<Entry>) returns (pos: seq<nat>)
    requires IsUnion(children, all)
    ensures Back(children, all, pos, |all| - 1)
  {
    pos := [];
    for i := 0 to |children|
      invariant |pos| == i
      invariant forall k :: 0 <= k < i ==> ChildBack(children[k], all, pos[k], |all| - 1)
    {
      ChildFacts(children, all, i);
      ChildEnds(children[i], all);
      pos := pos + [LastPos(children[i])];
    }
  }

  lemma ChildEnds(child: seq<Entry>, all: seq<Entry>)
    requires Sorted(all) && forall e :: e in child ==> e in all
    ensures ChildBack(child, all, LastPos(child), |all| - 1)
  {
    forall j | 0 <= j < |child|
      ensures UpTo(all, |all| - 1, child[j])
    {
      assert child[j] in all;
      var r :| 0 <= r < |all| && all[r] == child[j];
    }
  }

  /** Next after moving backwards: every other child is sought to the first entry after the key. */
  method TurnForward(children: seq<seq<Entry>>, pos: seq<nat>, c: nat, ghost all: seq<Entry>, ghost t: nat)
    returns (turned: seq<nat>)
    requires IsUnion(children, all) && |pos| == |children| && c < |children| && t < |all|
    requires pos[c] < |children[c]| && children[c][pos[c]] == all[t]
    ensures Ahead(children, all, turned, t) && turned[c] == pos[c]
  {
    var key := children[c][pos[c]].key;
    turned := [];
    for i := 0 to |children|
      invariant |turned| == i
      invariant forall k :: 0 <= k < i ==> ChildAhead(children[k], all, turned[k], t)
      invariant c < i ==> turned[c] == pos[c]
    {
      ChildFacts(children, all, i);
      var p := pos[i];
      if i != c {
        SeekAtEntry(all, t);
        ChildSeeks(children[i], all, t, key);
        p := SeekIndex(children[i], key);
        if p < |children[i]| && Compare(key, children[i][p].key) == 0 {
          CompareIsLess(key, children[i][p].key);
          SameKeySameEntry(children, c, pos[c], i, p);
          p := p + 1;
        }
      } else {
        ChildAt(children[c], all, pos[c], t);
      }
      turned := turned + [p];
    }
  }

  lemma SeekAtEntry(all: seq<Entry>, t: nat)
    requires Sorted(all) && t < |all|
    ensures forall r :: 0 <= r < t ==> Less(all[r].key, all[t].key)
    ensures !Less(all[t].key, all[t].key)
  {
  }

  /** Prev after moving forwards: every other child is put at its last entry before the key. */
  method TurnBack(children: seq<seq<Entry>>, pos: seq<nat>, c: nat, ghost all: seq<Entry>, ghost t: nat)
    returns (turned: seq<nat>)
    requires IsUnion(children, all) && |pos| == |children| && c < |children| && t < |all|
    requires pos[c] < |children[c]| && children[c][pos[c]] == all[t]
    ensures Back(children, all, turned, t) && turned[c] == pos[c]
  {
    var key := children[c][pos[c]].key;
    turned := [];
    for i := 0 to |children|
      invariant |turned| == i
      invariant forall k :: 0 <= k < i ==> ChildBack(children[k], all, turned[k], t)
      invariant c < i ==> turned[c] == pos[c]
    {
      ChildFacts(children, all, i);
      var p := pos[i];
      if i != c {
        SeekAtEntry(all, t);
        ChildSeeks(children[i], all, t, key);
        OtherLacks(children, all, c, pos[c], i, t);
        p := SeekIndex(children[i], key);
        ChildTurnsBack(children[i], all, p, t);
        if p < |children[i]| {
          p := PrevPos(children[i], p);
        } else {
          p := LastPos(children[i]);
        }
      } else {
        ChildAt(children[c], all, pos[c], t);
      }
      turned := turned + [p];
    }
  }

  lemma StepForward(children: seq<seq<Entry>>, all: seq<Entry>, pos: seq<nat>, c: nat, t: nat)
    requires IsUnion(children, all) && Ahead(children, all, pos, t) && c < |children| && t < |all|
    requires pos[c] < |children[c]| && children[c][pos[c]] == all[t]
    ensures Ahead(children, all, pos[c := pos[c] + 1], t + 1)
  {
    forall i | 0 <= i < |children|
      ensures ChildAhead(children[i], all, pos[c := pos[c] + 1][i], t + 1)
    {
      ChildFacts(children, all, i);
      ChildSteps(children[i], all, pos[i], t);
      if i != c { OtherLacks(children, all, c, pos[c], i, t); }
    }
  }

  lemma StepBack(children: seq<seq<Entry>>, all: seq<Entry>, pos: seq<nat>, c: nat, t: nat)
    requires IsUnion(children, all) && Back(children, all, pos, t) && c < |children| && t < |all|
    requires pos[c] < |children[c]| && children[c][pos[c]] == all[t]
    ensures Back(children, all, pos[c := PrevPos(children[c], pos[c])], t - 1)
  {
    forall i | 0 <= i < |children|
      ensures ChildBack(children[i], all, pos[c := PrevPos(children[c], pos[c])][i], t - 1)
    {
      ChildFacts(children, all, i);
      ChildStepsBack(children[i], all, pos[i], t);
      if i != c { OtherLacks(children, all, c, pos[c], i, t); }
    }
  }

  // ---------------------------------------------------------------- the iterator

  datatype Direction = Forward | Reverse

  class MergingIterator {
    const children: seq<seq<Entry>>
    var pos: seq<nat>                // one position per child; its length means invalid
    var current: Option<nat>
    var direction: Direction
    ghost const all: seq<Entry>      // the sorted union
    ghost var cur: nat               // position in the union, its length if not valid

    /** Forward, the other children are at their first entry after the key; in reverse, at their last before it. */
    ghost predicate Valid()
      reads this
    {
      && IsUnion(children, all) && |pos| == |children| && cur <= |all|
      && (current.None? <==> cur == |all|)
      && (current.Some? ==>
            && current.value < |children| && pos[current.value] < |children[current.value]|
            && children[current.value][pos[current.value]] == all[cur]
            && (direction.Forward? ==> Ahead(children, all, pos, cur))
            && (direction.Reverse? ==> Back(children, all, pos, cur)))
    }

    constructor (children: seq<seq<Entry>>)
      requires ValidChildren(children)
      ensures Valid() && current.None? && this.children == children && all == Merged(children)
    {
      this.children, all := children, Merged(children);
      pos := seq(|children|, i requires 0 <= i < |children| => |children[i]|);
      current, direction, cur := None, Forward, |Merged(children)|;
    }

    method Key() returns (k: InternalKey)
      requires Valid() && current.Some?
      ensures k == all[cur].key
    {
      k := children[current.value][pos[current.value]].key;
    }

    /** Key and value together. */
    method Current() returns (e: Entry)
      requires Valid() && current.Some?
      ensures cur < |all| && e == all[cur]
    {
      e := children[current.value][pos[current.value]];
    }

    method SeekToFirst()
      requires Valid()
      modifies this
      ensures Valid() && cur == 0
    {
      pos := FirstOfChildren(children, all);
      SettleForward(0);
    }

    method Seek(target: InternalKey)
      requires Valid()
      modifies this
      ensures Valid() && cur == SeekIndex(all, target)
    {
      pos := SeekChildren(children, target, all);
      SettleForward(SeekIndex(all, target));
    }

    method SeekToLast()
      requires Valid()
      modifies this
      ensures Valid() && cur == if |all| == 0 then 0 else |all| - 1
    {
      pos := LastOfChildren(children, all);
      SettleBack(|all| - 1);
    }

    method Next()
      requires Valid() && current.Some?
      modifies this
      ensures Valid() && cur == old(cur) + 1
    {
      var c := current.value;
      if direction.Reverse? {
        pos := TurnForward(children, pos, c, all, cur);
        direction := Forward;
      }
      StepForward(children, all, pos, c, cur);
      pos := pos[c := pos[c] + 1];
      SettleForward(cur + 1);
    }

    /** At the first entry the iterator becomes invalid. */
    method Prev()
      requires Valid() && current.Some?
      modifies this
      ensures Valid() && cur == if old(cur) == 0 then |all| else old(cur) - 1
    {
      var c := current.value;
      if direction.Forward? {
        pos := TurnBack(children, pos, c, all, cur);
        direction := Reverse;
      }
      StepBack(children, all, pos, c, cur);
      pos := pos[c := PrevPos(children[c], pos[c])];
      SettleBack(cur - 1);
    }

    method SettleForward(ghost t: nat)
      requires IsUnion(children, all) && Ahead(children, all, pos, t)
      modifies this`current, this`direction, this`cur
      ensures Valid() && cur == t
    {
      current := FindSmallest(children, pos);
      SmallestIsNext(children, all, pos, t, current);
      direction, cur := Forward, t;
    }

    method SettleBack(ghost t: int)
      requires IsUnion(children, all) && Back(children, all, pos, t)
      modifies this`current, this`direction, this`cur
      ensures Valid() && cur == if t == -1 then |all| else t
    {
      current := FindLargest(children, pos);
      LargestIsPrevious(children, all, pos, t, current);
      direction, cur := Reverse, if t == -1 then |all| else t;
    }
  }
}
