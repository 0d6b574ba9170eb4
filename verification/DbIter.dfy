/**
The user-facing iterator (util/leveldb/db/db_iter.cc).  It walks an internal iterator over all
versions of all keys and shows, at one sequence number, a sorted map of user keys to values.
 */
module DbIter {
  import opened Keys
  import opened History

  /** Old enough to be seen by the iterator. */
  predicate Seen(es: seq<Entry>, s: Sequence, i: nat)
    requires i < |es|
  {
    es[i].key.sn <= s
  }

  /** Entry `i` is what a read of its user key returns: newest seen version, and not a deletion. */
  ghost predicate Yields(es: seq<Entry>, s: Sequence, i: nat)
    requires i < |es|
  {
    && Seen(es, s, i) && es[i].key.kind.Value?
    && forall j :: 0 <= j < i && es[j].key.user == es[i].key.user ==> !Seen(es, s, j)
  }

  lemma {:induction false} UsersAscend(es: seq<Entry>, i: nat, j: nat)
    requires Sorted(es) && i <= j < |es|
    ensures es[i].key.user <= es[j].key.user
  {
    if i < j {
      assert Less(es[i].key, es[j].key);
    }
  }

  /** The yielded entries are exactly the successful reads of the underlying set. */
  lemma YieldsIsRead(es: seq<Entry>, s: Sequence, i: nat)
    requires Sorted(es) && UniqueSequences(Elements(es)) && i < |es| && Yields(es, s, i)
    ensures Read(Elements(es), es[i].key.user, s) == Some(es[i].value)
  {
    var e := es[i];
    assert e in Elements(es);
    forall o | o in Elements(es) && Visible(o, e.key.user, s) && o != e
      ensures o.key.sn < e.key.sn
    {
      var j :| 0 <= j < |es| && es[j] == o;
      assert Seen(es, s, j);
      assert Less(es[i].key, es[j].key);
      assert o.key.sn != e.key.sn;
    }
    assert IsNewest(Elements(es), e.key.user, s, e);
  }

  lemma ReadIsYielded(es: seq<Entry>, s: Sequence, u: UserKey) returns (i: nat)
    requires Sorted(es) && UniqueSequences(Elements(es)) && Read(Elements(es), u, s).Some?
    ensures i < |es| && Yields(es, s, i) && es[i].key.user == u
    ensures Read(Elements(es), u, s) == Some(es[i].value)
  {
    var e := Find(Elements(es), u, s).value;
    i :| 0 <= i < |es| && es[i] == e;
    forall j | 0 <= j < i && es[j].key.user == u
      ensures !Seen(es, s, j)
    {
      assert Less(es[j].key, es[i].key);
      assert es[j] in Elements(es) && es[j] != e;
    }
  }

  /** At most one yielded entry per user key, in increasing order of user keys. */
  lemma YieldsAscend(es: seq<Entry>, s: Sequence, i: nat, j: nat)
    requires Sorted(es) && i < j < |es| && Yields(es, s, i) && Yields(es, s, j)
    ensures es[i].key.user < es[j].key.user
  {
    assert Less(es[i].key, es[j].key);
  }

  // ---------------------------------------------------------------- the cursor it refines

  /** First yielded position at or after `from`, or the end. */
  ghost predicate IsNextYield(es: seq<Entry>, s: Sequence, from: nat, y: nat) {
    && from <= y <= |es|
    && (y < |es| ==> Yields(es, s, y))
    && forall k :: from <= k < y ==> !Yields(es, s, k)
  }

  /** Last yielded position before `to`, or the end if there is none. */
  ghost predicate IsPrevYield(es: seq<Entry>, s: Sequence, to: nat, y: nat) {
    && to <= |es|
    && (y == |es| || (y < to && Yields(es, s, y)))
    && forall k :: (if y == |es| then 0 else y + 1) <= k < to ==> !Yields(es, s, k)
  }

  // ---------------------------------------------------------------- the two scans

  /** What the forward scan may rely on: seen entries before `start` are hidden already. */
  ghost predicate MayScan(es: seq<Entry>, s: Sequence, start: nat, skipping: bool, skip: UserKey) {
    && Sorted(es) && start < |es|
    && (forall j :: 0 <= j < start && Seen(es, s, j) ==>
          if skipping then es[j].key.user <= skip else es[j].key.user < es[start].key.user)
    && (skipping ==> forall j :: start <= j < |es| && Seen(es, s, j) ==> es[j].key.user >= skip)
  }

  /** All seen entries before `i` are hidden from `i` on. */
  ghost predicate Hidden(es: seq<Entry>, s: Sequence, i: nat, skipping: bool, skip: UserKey)
    requires i <= |es|
  {
    forall j :: 0 <= j < i && Seen(es, s, j) ==>
      if skipping then es[j].key.user <= skip else i < |es| ==> es[j].key.user < es[i].key.user
  }

  lemma HiddenStep(es: seq<Entry>, s: Sequence, i: nat, skipping: bool, skip: UserKey)
    requires Sorted(es) && i < |es| && Hidden(es, s, i, skipping, skip)
    requires Seen(es, s, i) ==> skipping && es[i].key.user <= skip
    ensures Hidden(es, s, i + 1, skipping, skip)
  {
    if i + 1 < |es| {
      UsersAscend(es, i, i + 1);
    }
  }

  lemma FirstUnhiddenYields(es: seq<Entry>, s: Sequence, i: nat, skipping: bool, skip: UserKey)
    requires Sorted(es) && i < |es| && Hidden(es, s, i, skipping, skip)
    requires Seen(es, s, i) && es[i].key.kind.Value? && (skipping ==> es[i].key.user > skip)
    ensures Yields(es, s, i)
  {
  }

  /** FindNextUserEntry: the next entry to show, stepping over whatever is hidden. */
  method FindNextUserEntry(es: seq<Entry>, s: Sequence, start: nat, skipping: bool, skip: UserKey)
    returns (pos: nat)
    requires MayScan(es, s, start, skipping, skip)
    ensures start <= pos <= |es|
    ensures pos < |es| ==> Yields(es, s, pos) && (skipping ==> es[pos].key.user > skip)
    ensures forall k :: start <= k < pos && Yields(es, s, k) ==> skipping && es[k].key.user <= skip
  {
    var hiding, hidden := skipping, skip;
    ghost var marker := start;
    pos := start;
    while pos < |es|
      invariant start <= pos <= |es|
      invariant Hidden(es, s, pos, hiding, hidden)
      invariant skipping ==> hiding && hidden >= skip
      invariant hiding ==> (skipping && hidden == skip) || HiddenBy(es, s, marker, pos, hidden)
      invariant skipping ==> forall j :: pos <= j < |es| && Seen(es, s, j) ==> es[j].key.user >= skip
      invariant forall k :: start <= k < pos && Yields(es, s, k) ==> skipping && es[k].key.user <= skip
      decreases |es| - pos
    {
      if es[pos].key.sn <= s {
        match es[pos].key.kind
        case Deletion =>
          HiddenMore(es, s, pos, hiding, hidden);
          hiding, hidden, marker := true, es[pos].key.user, pos;
        case Value =>
          if hiding && es[pos].key.user <= hidden {
            if !(skipping && hidden == skip) {
              HiddenIsNoYield(es, s, pos, marker, hidden);
            }
          } else {
            FirstUnhiddenYields(es, s, pos, hiding, hidden);
            return;
          }
      }
      HiddenStep(es, s, pos, hiding, hidden);
      pos := pos + 1;
    }
  }

  /** The skipped user key is that of a seen entry further back. */
  ghost predicate HiddenBy(es: seq<Entry>, s: Sequence, marker: nat, i: nat, hidden: UserKey) {
    marker < i && marker < |es| && Seen(es, s, marker) && es[marker].key.user == hidden
  }

  lemma HiddenIsNoYield(es: seq<Entry>, s: Sequence, i: nat, marker: nat, hidden: UserKey)
    requires Sorted(es) && i < |es| && HiddenBy(es, s, marker, i, hidden) && es[i].key.user <= hidden
    ensures !Yields(es, s, i)
  {
    UsersAscend(es, marker, i);
  }

  lemma HiddenMore(es: seq<Entry>, s: Sequence, i: nat, skipping: bool, skip: UserKey)
    requires Sorted(es) && i < |es| && Hidden(es, s, i, skipping, skip)
    ensures Hidden(es, s, i, true, es[i].key.user)
  {
    forall j | 0 <= j < i
      ensures es[j].key.user <= es[i].key.user
    {
      UsersAscend(es, j, i);
    }
  }

  /** What the backward scan finds: an entry to show and where the internal iterator stops. */
  datatype Found = Found(pos: nat, key: Option<UserKey>, value: Payload)

  /** Just before everything seen of the entry at `y`; `pos` is `|es|` when nothing is before it. */
  ghost predicate Behind(es: seq<Entry>, s: Sequence, pos: nat, y: nat)
    requires y < |es| && pos <= |es|
  {
    if pos < |es| then
      && pos < y && Seen(es, s, pos) && es[pos].key.user < es[y].key.user
      && forall j :: pos < j < y ==> !Seen(es, s, j)
    else forall j :: 0 <= j < y ==> !Seen(es, s, j)
  }

  /** Positions above `i` up to `to` hold no yielded entry except perhaps `k`, the last one taken. */
  ghost predicate Scanned(es: seq<Entry>, s: Sequence, i: int, to: nat, taken: Option<nat>)
    requires -1 <= i && i + 1 <= to <= |es|
  {
    && (taken.Some? ==>
          && i < taken.value < to && Seen(es, s, taken.value) && es[taken.value].key.kind.Value?
          && forall j :: i < j < taken.value ==> !Seen(es, s, j))
    && forall y :: i < y < to && Some(y) != taken ==> !Yields(es, s, y)
  }

  lemma TakenYields(es: seq<Entry>, s: Sequence, i: int, to: nat, k: nat)
    requires -1 <= i && i + 1 <= to <= |es| && Sorted(es) && Scanned(es, s, i, to, Some(k))
    requires i >= 0 ==> Seen(es, s, i) && es[i].key.user < es[k].key.user
    ensures Yields(es, s, k) && IsPrevYield(es, s, to, k)
    ensures Behind(es, s, if i >= 0 then i else |es|, k)
  {
    forall j | 0 <= j < k && es[j].key.user == es[k].key.user
      ensures !Seen(es, s, j)
    {
      if 0 <= j <= i {
        UsersAscend(es, j, i);
      }
    }
  }

  lemma ScannedStep(es: seq<Entry>, s: Sequence, i: nat, to: nat, taken: Option<nat>)
    requires i < to <= |es| && Sorted(es) && Scanned(es, s, i, to, taken)
    requires Seen(es, s, i) && taken.Some? ==> es[i].key.user == es[taken.value].key.user
    ensures !Seen(es, s, i) ==> Scanned(es, s, i - 1, to, taken)
    ensures Seen(es, s, i) ==> Scanned(es, s, i - 1, to, if es[i].key.kind.Value? then Some(i) else None)
  {
    if Seen(es, s, i) && taken.Some? {
      assert !Yields(es, s, taken.value);
    }
  }

  /** FindPrevUserEntry below `to`; `y` is the entry it decides for. */
  method FindPrevUserEntry(es: seq<Entry>, s: Sequence, to: nat) returns (r: Found, ghost y: nat)
    requires Sorted(es) && to <= |es|
    ensures r.pos <= |es| && y <= |es| && IsPrevYield(es, s, to, y)
    ensures r.key.Some? <==> y < |es|
    ensures y < |es| ==> r.key == Some(es[y].key.user) && r.value == es[y].value && Behind(es, s, r.pos, y)
  {
    var kind := Deletion;
    r := Found(|es|, None, []);
    ghost var taken: Option<nat> := None;
    var i := to - 1;
    while i >= 0
      invariant -1 <= i < to
      invariant Scanned(es, s, i, to, taken)
      invariant r.pos == |es| && kind.Value? == taken.Some? == r.key.Some?
      invariant taken.Some? ==> r.key == Some(es[taken.value].key.user) && r.value == es[taken.value].value
    {
      if es[i].key.sn <= s {
        if kind.Value? && es[i].key.user < r.key.value {
          TakenYields(es, s, i, to, taken.value);
          r := r.(pos := i);
          y := taken.value;
          return;
        }
        if kind.Value? {
          UsersAscend(es, i, taken.value);
        }
        ScannedStep(es, s, i, to, taken);
        kind := es[i].key.kind;
        if kind.Deletion? {
          r, taken := Found(|es|, None, []), None;
        } else {
          r, taken := Found(|es|, Some(es[i].key.user), es[i].value), Some(i);
        }
      } else {
        ScannedStep(es, s, i, to, taken);
      }
      i := i - 1;
    }
    if taken.Some? {
      TakenYields(es, s, -1, to, taken.value);
      y := taken.value;
    } else {
      y := |es|;
    }
  }

  // ---------------------------------------------------------------- the iterator

  datatype Direction = Forward | Reverse

  class Iter {
    const entries: seq<Entry>
    const sequence: Sequence
    var pos: nat                     // of the internal iterator; |entries| means invalid
    var direction: Direction
    var valid: bool
    var savedKey: Option<UserKey>
    var savedValue: Payload
    ghost var cur: nat               // position of the entry shown, |entries| if there is none

    ghost predicate Valid()
      reads this
    {
      && Sorted(entries) && pos <= |entries|
      && (if valid then cur < |entries| && Yields(entries, sequence, cur) else cur == |entries|)
      && (valid && direction.Forward? ==> pos == cur)
      && (valid && direction.Reverse? ==>
            && savedKey == Some(entries[cur].key.user) && savedValue == entries[cur].value
            && Behind(entries, sequence, pos, cur))
    }

    constructor (entries: seq<Entry>, sequence: Sequence)
      requires Sorted(entries)
      ensures Valid() && !valid && this.entries == entries && this.sequence == sequence
    {
      this.entries, this.sequence := entries, sequence;
      pos, direction, valid, savedKey, savedValue, cur := |entries|, Forward, false, None, [], |entries|;
    }

    method Key() returns (u: UserKey)
      requires Valid() && valid
      ensures u == entries[cur].key.user
    {
      u := if direction.Forward? then entries[pos].key.user else savedKey.value;
    }

    method CurrentValue() returns (v: Payload)
      requires Valid() && valid
      ensures v == entries[cur].value
    {
      v := if direction.Forward? then entries[pos].value else savedValue;
    }

    method Next()
      requires Valid() && valid
      modifies this
      ensures Valid() && IsNextYield(entries, sequence, old(cur) + 1, cur)
      ensures valid <==> cur < |entries|
    {
      if direction.Reverse? {
        direction := Forward;
        pos := if pos == |entries| then 0 else pos + 1;
        ScanAfterReverse(entries, sequence, cur, pos);
      } else {
        savedKey := Some(entries[pos].key.user);
        ScanAfterForward(entries, sequence, cur);
      }
      ghost var start := pos;
      pos := FindNextUserEntry(entries, sequence, pos, true, savedKey.value);
      NextShown(entries, sequence, cur, start, pos);
      savedKey, valid, cur := None, pos < |entries|, pos;
    }

    method Prev()
      requires Valid() && valid
      modifies this
      ensures Valid() && IsPrevYield(entries, sequence, old(cur), cur)
      ensures valid <==> cur < |entries|
    {
      var to := if direction.Reverse? then if pos < |entries| then pos + 1 else 0 else pos;
      if direction.Forward? {
        // Scan back to an entry with a smaller user key.
        savedKey := Some(entries[pos].key.user);
        while to > 0 && entries[to - 1].key.user >= savedKey.value
          invariant 0 <= to <= cur
          invariant pos == cur && savedKey == Some(entries[cur].key.user)
          invariant forall j :: to <= j < cur ==> entries[j].key.user >= entries[cur].key.user
        {
          to := to - 1;
        }
        if to == 0 {
          NoneBefore(entries, sequence, cur, 0);
          pos, valid, savedKey, savedValue, cur := |entries|, false, None, [], |entries|;
          return;
        }
        direction := Reverse;
      }
      NoneBefore(entries, sequence, cur, to);
      ScanBackFrom(to);
    }

    /** FindPrevUserEntry on the object: below `to`, ending the iteration if nothing is found. */
    method ScanBackFrom(to: nat)
      requires Sorted(entries) && to <= |entries| && direction.Reverse?
      modifies this
      ensures Valid() && IsPrevYield(entries, sequence, to, cur)
      ensures valid <==> cur < |entries|
    {
      var r: Found;
      ghost var y;
      r, y := FindPrevUserEntry(entries, sequence, to);
      cur, pos, valid, savedKey, savedValue := y, r.pos, r.key.Some?, r.key, r.value;
      if !valid {
        direction := Forward;
      }
    }

    method Seek(target: UserKey)
      requires Valid()
      modifies this
      ensures Valid() && valid == (cur < |entries|)
      ensures IsFirstFrom(entries, sequence, target, cur)
    {
      direction, savedValue, savedKey := Forward, [], None;
      pos := SeekIndex(entries, LookupKey(target, sequence));
      ghost var start := pos;
      if pos < |entries| {
        SeekMayScan(entries, sequence, target, pos);
        pos := FindNextUserEntry(entries, sequence, pos, false, 0);
      }
      SeekFinds(entries, sequence, target, start, pos);
      valid, cur := pos < |entries|, pos;
    }

    method SeekToFirst()
      requires Valid()
      modifies this
      ensures Valid() && valid == (cur < |entries|)
      ensures IsNextYield(entries, sequence, 0, cur)
    {
      direction, savedValue, pos := Forward, [], 0;
      if |entries| > 0 {
        pos := FindNextUserEntry(entries, sequence, 0, false, 0);
      }
      savedKey, valid, cur := None, pos < |entries|, pos;
    }

    method SeekToLast()
      requires Valid()
      modifies this
      ensures Valid() && valid == (cur < |entries|)
      ensures IsPrevYield(entries, sequence, |entries|, cur)
    {
      direction, savedValue := Reverse, [];
      ScanBackFrom(|entries|);
    }
  }

  /** The first shown entry whose user key is at or after `target`, or the end. */
  ghost predicate IsFirstFrom(es: seq<Entry>, s: Sequence, target: UserKey, y: nat) {
    && y <= |es|
    && (y < |es| ==> Yields(es, s, y) && es[y].key.user >= target)
    && forall k :: 0 <= k < y && Yields(es, s, k) ==> es[k].key.user < target
  }

  lemma ScanAfterReverse(es: seq<Entry>, s: Sequence, cur: nat, pos: nat)
    requires Sorted(es) && cur < |es| && Yields(es, s, cur) && pos <= cur
    requires Behind(es, s, if pos == 0 then |es| else pos - 1, cur)
    ensures MayScan(es, s, pos, true, es[cur].key.user)
  {
    forall j | 0 <= j < |es| && Seen(es, s, j)
      ensures j < pos ==> es[j].key.user <= es[cur].key.user
      ensures j >= pos ==> es[j].key.user >= es[cur].key.user
    {
      if j < pos {
        UsersAscend(es, j, cur);
      } else {
        assert j >= cur;
        UsersAscend(es, cur, j);
      }
    }
  }

  lemma ScanAfterForward(es: seq<Entry>, s: Sequence, cur: nat)
    requires Sorted(es) && cur < |es|
    ensures MayScan(es, s, cur, true, es[cur].key.user)
  {
    forall j | 0 <= j < |es|
      ensures j < cur ==> es[j].key.user <= es[cur].key.user
      ensures j >= cur ==> es[j].key.user >= es[cur].key.user
    {
      if j < cur { UsersAscend(es, j, cur); } else { UsersAscend(es, cur, j); }
    }
  }

  lemma NextShown(es: seq<Entry>, s: Sequence, cur: nat, start: nat, pos: nat)
    requires Sorted(es) && cur < |es| && Yields(es, s, cur) && start <= cur && start <= pos <= |es|
    requires pos < |es| ==> Yields(es, s, pos) && es[pos].key.user > es[cur].key.user
    requires forall k :: start <= k < pos && Yields(es, s, k) ==> es[k].key.user <= es[cur].key.user
    ensures IsNextYield(es, s, cur + 1, pos)
  {
    if pos < |es| && pos <= cur {
      UsersAscend(es, pos, cur);
    }
    forall k | cur + 1 <= k < pos
      ensures !Yields(es, s, k)
    {
      if Yields(es, s, k) { YieldsAscend(es, s, cur, k); }
    }
  }

  /** No shown entry lies between the end of the earlier user keys and the current entry. */
  lemma NoneBefore(es: seq<Entry>, s: Sequence, cur: nat, to: nat)
    requires Sorted(es) && cur < |es| && Yields(es, s, cur) && to <= cur
    requires forall j :: to <= j < cur ==> es[j].key.user >= es[cur].key.user || !Seen(es, s, j)
    ensures forall j :: to <= j < cur ==> !Yields(es, s, j)
    ensures forall y :: IsPrevYield(es, s, to, y) ==> IsPrevYield(es, s, cur, y)
  {
    forall j | to <= j < cur
      ensures !Yields(es, s, j)
    {
      UsersAscend(es, j, cur);
    }
  }

  lemma SeekMayScan(es: seq<Entry>, s: Sequence, target: UserKey, start: nat)
    requires Sorted(es) && start < |es|
    requires forall j :: 0 <= j < start ==> Less(es[j].key, LookupKey(target, s))
    requires !Less(es[start].key, LookupKey(target, s))
    ensures MayScan(es, s, start, false, 0)
  {
  }

  lemma SeekFinds(es: seq<Entry>, s: Sequence, target: UserKey, start: nat, pos: nat)
    requires Sorted(es) && start <= pos <= |es|
    requires forall j :: 0 <= j < start ==> Less(es[j].key, LookupKey(target, s))
    requires start < |es| ==> !Less(es[start].key, LookupKey(target, s))
    requires pos < |es| ==> Yields(es, s, pos)
    requires forall k :: start <= k < pos ==> !Yields(es, s, k)
    ensures IsFirstFrom(es, s, target, pos)
  {
    if pos < |es| {
      UsersAscend(es, start, pos);
    }
  }
}
