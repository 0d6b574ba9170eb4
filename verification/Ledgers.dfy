/**
What a store is for, without any of its machinery: groups of operations in the order of their
commits, and which of them a crash may take away (util/leveldb/include/leveldb/options.h,
WriteOptions::sync; util/leveldb/doc/index.html, on synchronous writes).
 */
module Ledgers {
  import opened Common
  import opened Keys
  import opened History
  import opened Inputs
  import opened Stores
  import opened Engine

  // ---------------------------------------------------------------- groups with their sequence numbers

  datatype GroupData = Group(first: nat, ops: seq<Op>)

  /** The operations of one commit, numbered from `first` on. */
  type Group = g: GroupData | 1 <= g.first && g.first + |g.ops| <= MAX_SEQUENCE witness Group(1, [])

  function Batches(groups: seq<Group>): (r: seq<seq<Op>>) {
    seq(|groups|, i requires 0 <= i < |groups| => groups[i].ops)
  }

  /** The operations of all groups, in order. */
  function Ops(groups: seq<Group>): (r: seq<Op>) {
    Flatten(Batches(groups))
  }

  ghost function Entries(groups: seq<Group>): set<Entry> {
    if groups == [] then {}
    else
      var g := groups[|groups| - 1];
      Entries(groups[..|groups| - 1]) + Written(g.ops, g.first)
  }

  /** The numbers rise from group to group, up to `last`. */
  ghost predicate Rising(groups: seq<Group>, last: nat) {
    groups == [] ||
    (var g := groups[|groups| - 1];
     g.first - 1 + |g.ops| <= last && Rising(groups[..|groups| - 1], g.first - 1))
  }

  /** The numbers run from `base + 1` to `last` without a gap. */
  ghost predicate Numbered(groups: seq<Group>, base: nat, last: nat) {
    if groups == [] then base == last
    else
      var g := groups[|groups| - 1];
      g.first - 1 + |g.ops| == last && Numbered(groups[..|groups| - 1], base, g.first - 1)
  }

  lemma BatchesConcat(a: seq<Group>, b: seq<Group>)
    ensures Batches(a + b) == Batches(a) + Batches(b)
  {
  }

  lemma OpsConcat(a: seq<Group>, b: seq<Group>)
    ensures Ops(a + b) == Ops(a) + Ops(b)
  {
    BatchesConcat(a, b);
    FlattenConcat(Batches(a), Batches(b));
  }

  lemma OpsOfOne(g: Group)
    ensures Ops([g]) == g.ops && Entries([g]) == Written(g.ops, g.first)
    ensures Batches([g]) == [g.ops]
  {
    FlattenOne(g.ops);
    assert Batches([g]) == [g.ops];
    assert [g][..0] == [];
  }

  lemma {:induction false} EntriesConcat(a: seq<Group>, b: seq<Group>)
    ensures Entries(a + b) == Entries(a) + Entries(b)
    decreases |b|
  {
    if b == [] {
      assert a + b == a;
    } else {
      var front := b[..|b| - 1];
      assert (a + b)[..|a + b| - 1] == a + front;
      EntriesConcat(a, front);
    }
  }

  lemma WrittenRange(ops: seq<Op>, first: nat, e: Entry)
    requires first + |ops| <= MAX_SEQUENCE && e in Written(ops, first)
    ensures first <= e.key.sn < first + |ops|
  {
  }

  lemma {:induction false} RisingRange(groups: seq<Group>, last: nat)
    requires Rising(groups, last) && last <= MAX_SEQUENCE
    ensures UpTo(Entries(groups), last)
  {
    if groups != [] {
      var g := groups[|groups| - 1];
      RisingRange(groups[..|groups| - 1], g.first - 1);
      forall e | e in Entries(groups)
        ensures e.key.sn <= last
      {
        if e in Written(g.ops, g.first) {
          WrittenRange(g.ops, g.first, e);
        }
      }
    }
  }

  lemma {:induction false} NumberedRange(groups: seq<Group>, base: nat, last: nat)
    requires Numbered(groups, base, last)
    ensures last == base + |Ops(groups)|
    ensures forall e :: e in Entries(groups) ==> base < e.key.sn <= last
  {
    if groups != [] {
      var n := |groups| - 1;
      var g := groups[n];
      NumberedRange(groups[..n], base, g.first - 1);
      assert groups == groups[..n] + [g];
      OpsConcat(groups[..n], [g]);
      OpsOfOne(g);
      forall e | e in Entries(groups)
        ensures base < e.key.sn <= last
      {
        if e in Written(g.ops, g.first) {
          WrittenRange(g.ops, g.first, e);
        }
      }
    }
  }

  lemma {:induction false} RisingOn(past: seq<Group>, logs: seq<Group>, base: nat, last: nat)
    requires Rising(past, base) && Numbered(logs, base, last)
    ensures Rising(past + logs, last)
    decreases |logs|
  {
    if logs == [] {
      assert past + logs == past;
    } else {
      var front := logs[..|logs| - 1];
      assert (past + logs)[..|past + logs| - 1] == past + front;
      RisingOn(past, front, base, logs[|logs| - 1].first - 1);
    }
  }

  /** A log splits anywhere. */
  lemma {:induction false} NumberedSplit(a: seq<Group>, b: seq<Group>, base: nat, last: nat)
    requires Numbered(a + b, base, last)
    ensures Numbered(a, base, base + |Ops(a)|) && Numbered(b, base + |Ops(a)|, last)
    decreases |b|
  {
    if b == [] {
      assert a + b == a;
      NumberedRange(a, base, last);
    } else {
      var front := b[..|b| - 1];
      assert (a + b)[..|a + b| - 1] == a + front;
      NumberedSplit(a, front, base, b[|b| - 1].first - 1);
    }
  }

  lemma NumberedGrows(groups: seq<Group>, base: nat, last: nat, g: Group)
    requires Numbered(groups, base, last) && g.first == last + 1
    ensures Numbered(groups + [g], base, last + |g.ops|)
  {
    assert (groups + [g])[..|groups|] == groups;
  }

  // ---------------------------------------------------------------- what a key is worth

  /** The last operation on `u` decides. */
  function ValueOf(ops: seq<Op>, u: UserKey): (r: Option<Payload>) {
    if ops == [] then None
    else
      var op := ops[|ops| - 1];
      if op.key != u then ValueOf(ops[..|ops| - 1], u)
      else if op.Put? then Some(op.value)
      else None
  }

  lemma OneMoreValue(A: set<Entry>, before: seq<Op>, op: Op, sn: Sequence, u: UserKey, s: Sequence)
    requires 1 <= sn <= s && UniqueSequences(A) && UpTo(A, sn - 1) && Read(A, u, s) == ValueOf(before, u)
    ensures UniqueSequences(A + {OpEntry(op, sn)}) && UpTo(A + {OpEntry(op, sn)}, sn)
    ensures Read(A + {OpEntry(op, sn)}, u, s) == ValueOf(before + [op], u)
  {
    OneMoreRead(A, OpEntry(op, sn), sn - 1, u, s);
    assert (before + [op])[..|before|] == before;
  }

  lemma {:induction false} WrittenValue(H: set<Entry>, before: seq<Op>, ops: seq<Op>, first: nat, u: UserKey, s: Sequence)
    requires 1 <= first && first + |ops| <= MAX_SEQUENCE && first - 1 + |ops| <= s
    requires UniqueSequences(H) && UpTo(H, first - 1) && Read(H, u, s) == ValueOf(before, u)
    ensures UniqueSequences(H + Written(ops, first)) && UpTo(H + Written(ops, first), first - 1 + |ops|)
    ensures Read(H + Written(ops, first), u, s) == ValueOf(before + ops, u)
    decreases |ops|
  {
    if ops == [] {
      assert H + Written(ops, first) == H && before + ops == before;
    } else {
      hide *;
      var n := |ops| - 1;
      WrittenValue(H, before, ops[..n], first, u, s);
      LastWritten(H, before, ops, first);
      OneMoreValue(H + Written(ops[..n], first), before + ops[..n], ops[n], first + n, u, s);
    }
  }

  lemma LastWritten(H: set<Entry>, before: seq<Op>, ops: seq<Op>, first: nat)
    requires ops != [] && first + |ops| <= MAX_SEQUENCE
    ensures var n := |ops| - 1;
            && before + ops == before + ops[..n] + [ops[n]]
            && H + Written(ops, first) == H + Written(ops[..n], first) + {OpEntry(ops[n], first + n)}
  {
    hide Written;
    var n := |ops| - 1;
    WrittenGrows(ops, n, first);
    assert ops[..n + 1] == ops;
  }

  /** Reading the newest version of a key in a numbered history is asking for its last operation. */
  lemma {:induction false} LatestIsValue(groups: seq<Group>, last: Sequence, u: UserKey, s: Sequence)
    requires Rising(groups, last) && last <= s
    ensures UniqueSequences(Entries(groups)) && UpTo(Entries(groups), last)
    ensures Read(Entries(groups), u, s) == ValueOf(Ops(groups), u)
    decreases |groups|
  {
    if groups == [] {
      NothingFound(u, s);
    } else {
      hide *;
      var n := |groups| - 1;
      var g := groups[n];
      LastGroup(groups, last);
      LatestIsValue(groups[..n], g.first - 1, u, s);
      WrittenValue(Entries(groups[..n]), Ops(groups[..n]), g.ops, g.first, u, s);
      UpToLater(Entries(groups), g.first - 1 + |g.ops|, last);
    }
  }

  lemma UpToLater(S: set<Entry>, last: Sequence, last': Sequence)
    requires UpTo(S, last) && last <= last'
    ensures UpTo(S, last')
  {
  }

  lemma LastGroup(groups: seq<Group>, last: nat)
    requires Rising(groups, last) && groups != []
    ensures var n, g := |groups| - 1, groups[|groups| - 1];
            && g.first - 1 + |g.ops| <= last && Rising(groups[..n], g.first - 1)
            && Entries(groups) == Entries(groups[..n]) + Written(g.ops, g.first)
            && Ops(groups) == Ops(groups[..n]) + g.ops
  {
    var n := |groups| - 1;
    hide Ops, Written, Batches;
    assert groups == groups[..n] + [groups[n]];
    OpsConcat(groups[..n], [groups[n]]);
    OpsOfOne(groups[n]);
  }

  lemma NothingFound(u: UserKey, s: Sequence)
    ensures UniqueSequences({}) && Read({}, u, s) == None && Ops([]) == []
  {
    assert Batches([]) == [];
  }

  // ---------------------------------------------------------------- the ledger

  /** One call into a store, by a client, by the background thread or by the outside world. */
  datatype Call =
    | Commit(ops: seq<Op>, sync: bool)
    | Switch
    | TakeSnapshot
    | DropSnapshot(i: nat)
    | Flush(size: nat)
    | Compact(level: nat, stopBefore: nat -> bool, bigEnough: seq<Entry> -> bool, sizes: nat -> nat)
    | CompactBetween(level: nat, r: Range, stopBefore: nat -> bool, bigEnough: seq<Entry> -> bool, sizes: nat -> nat)
    | Crash(lostClosed: nat, lostOpen: nat, full: nat -> bool, sizes: nat -> nat)

  /**
  The groups committed: those in tables, those in the log of the memtable that waits for its flush,
  and those in the log of the open one, with the numbers of groups in each log that were synced.
   */
  datatype Ledger = Ledger(done: seq<seq<Op>>, closed: seq<seq<Op>>, open: seq<seq<Op>>, closedSafe: nat,
                           openSafe: nat, waiting: bool) {
    function Groups(): (r: seq<seq<Op>>) {
      done + closed + open
    }

    predicate Valid() {
      closedSafe <= |closed| && openSafe <= |open| && (!waiting ==> closed == [])
    }
  }

  const NEW_LEDGER := Ledger([], [], [], 0, 0, false)

  function Max(a: nat, b: nat): (m: nat) {
    if a < b then b else a
  }

  /** How many groups of a log are left if up to `lost` are lost, and none that was synced. */
  function Left(size: nat, safe: nat, lost: nat): (n: nat) {
    if safe + lost < size then size - lost else safe
  }

  /** What a call comes to.  A crash takes the last groups of each log, but none that was synced. */
  function Next(l: Ledger, call: Call): (l': Ledger)
    requires l.Valid()
    ensures l'.Valid()
  {
    match call
    case Commit(ops, sync) => l.(open := l.open + [ops], openSafe := if sync then |l.open| + 1 else l.openSafe)
    case Switch => if l.waiting then l else Ledger(l.done, l.open, [], l.openSafe, 0, true)
    case Flush(_) => Ledger(l.done + l.closed, [], l.open, 0, l.openSafe, false)
    case Crash(lostClosed, lostOpen, _, _) =>
      Ledger(l.done + l.closed[..Left(|l.closed|, l.closedSafe, lostClosed)]
             + l.open[..Left(|l.open|, l.openSafe, lostOpen)], [], [], 0, 0, false)
    case _ => l
  }

  function After(l: Ledger, calls: seq<Call>): (l': Ledger)
    requires l.Valid()
    ensures l'.Valid()
  {
    if calls == [] then l else Next(After(l, calls[..|calls| - 1]), calls[|calls| - 1])
  }

  /** Whatever is called, groups that are in tables stay. */
  lemma {:induction false} DoneStays(l: Ledger, calls: seq<Call>)
    requires l.Valid()
    ensures l.done <= After(l, calls).done
  {
    if calls != [] {
      DoneStays(l, calls[..|calls| - 1]);
    }
  }

  /** A group committed with sync survives whatever comes after. */
  lemma {:induction false} SyncedStays(l: Ledger, ops: seq<Op>, calls: seq<Call>)
    requires l.Valid()
    ensures var l' := After(Next(l, Commit(ops, true)), calls);
            HasSafe(l', ops) && ops in l'.Groups()
  {
    if calls == [] {
      assert (l.open + [ops])[|l.open|] == ops;
    } else {
      SyncedStays(l, ops, calls[..|calls| - 1]);
      SafeSurvives(After(Next(l, Commit(ops, true)), calls[..|calls| - 1]), ops, calls[|calls| - 1]);
    }
  }

  /** The group is in a table, or in a log and synced. */
  ghost predicate HasSafe(l: Ledger, ops: seq<Op>) {
    || ops in l.done
    || (exists i :: 0 <= i < l.closedSafe && i < |l.closed| && l.closed[i] == ops)
    || (exists i :: 0 <= i < l.openSafe && i < |l.open| && l.open[i] == ops)
  }

  lemma SafeSurvives(l: Ledger, ops: seq<Op>, call: Call)
    requires l.Valid() && HasSafe(l, ops)
    ensures HasSafe(Next(l, call), ops) && ops in Next(l, call).Groups()
  {
    var l' := Next(l, call);
    if ops in l.done {
    } else if i :| 0 <= i < l.closedSafe && i < |l.closed| && l.closed[i] == ops {
      if call.Crash? {
        assert ops in l.closed[..Left(|l.closed|, l.closedSafe, call.lostClosed)];
      } else if !call.Flush? {
        assert l'.closed[i] == ops && i < l'.closedSafe;
      }
    } else {
      var i :| 0 <= i < l.openSafe && i < |l.open| && l.open[i] == ops;
      if call.Crash? {
        assert ops in l.open[..Left(|l.open|, l.openSafe, call.lostOpen)];
      } else if call.Switch? && !l.waiting {
        assert l'.closed[i] == ops && i < l'.closedSafe;
      } else {
        assert l'.open[i] == ops && i < l'.openSafe;
      }
    }
  }

  /** Without crashes nothing is lost, and neither is it in a crash that loses no bytes. */
  lemma {:induction false} NothingIsLost(l: Ledger, calls: seq<Call>)
    requires l.Valid()
    requires forall c :: c in calls && c.Crash? ==> c.lostClosed == c.lostOpen == 0
    ensures After(l, calls).Groups() == l.Groups() + Committed(calls)
  {
    if calls == [] {
      assert l.Groups() + [] == l.Groups();
    } else {
      var n := |calls| - 1;
      NothingIsLost(l, calls[..n]);
      assert calls[n] in calls;
      NextKeepsAll(After(l, calls[..n]), calls[n]);
      assert Committed(calls) == Committed(calls[..n]) + if calls[n].Commit? then [calls[n].ops] else [];
    }
  }

  lemma NextKeepsAll(l: Ledger, call: Call)
    requires l.Valid() && (call.Crash? ==> call.lostClosed == call.lostOpen == 0)
    ensures Next(l, call).Groups() == l.Groups() + if call.Commit? then [call.ops] else []
  {
    var l' := Next(l, call);
    if call.Crash? {
      assert l.closed[..|l.closed|] == l.closed && l.open[..|l.open|] == l.open;
    }
  }

  function Committed(calls: seq<Call>): (r: seq<seq<Op>>) {
    if calls == [] then []
    else
      var call := calls[|calls| - 1];
      Committed(calls[..|calls| - 1]) + if call.Commit? then [call.ops] else []
  }

  // ---------------------------------------------------------------- which groups a crash takes

  /** The group at position `i` survives a crash that leaves `a` groups of the closed and `b` of the open log. */
  predicate Survives(l: Ledger, a: nat, b: nat, i: nat) {
    i < |l.done| + a || |l.done| + |l.closed| <= i < |l.done| + |l.closed| + b
  }

  /** The groups among the first `n` that survive, in order. */
  function Survivors(l: Ledger, a: nat, b: nat, n: nat): (r: seq<seq<Op>>)
    requires n <= |l.Groups()|
  {
    if n == 0 then []
    else Survivors(l, a, b, n - 1) + if Survives(l, a, b, n - 1) then [l.Groups()[n - 1]] else []
  }

  lemma {:induction false} SurvivorsAre(l: Ledger, a: nat, b: nat, n: nat)
    requires a <= |l.closed| && b <= |l.open| && n <= |l.Groups()|
    ensures Survivors(l, a, b, n)
            == l.done[..Least(n, |l.done|)] + l.closed[..Least(Beyond(n, |l.done|), a)]
               + l.open[..Least(Beyond(n, |l.done| + |l.closed|), b)]
  {
    if n > 0 {
      SurvivorsAre(l, a, b, n - 1);
      if n <= |l.done| {
        assert l.Groups()[n - 1] == l.done[n - 1];
      } else if n <= |l.done| + |l.closed| {
        assert l.Groups()[n - 1] == l.closed[n - 1 - |l.done|];
      }
    }
  }

  function Least(a: nat, b: nat): (m: nat) {
    if a < b then a else b
  }

  function Beyond(n: nat, start: nat): (m: nat) {
    if n < start then 0 else n - start
  }

  /** What is left after a crash are the survivors, none of which was lost and all of which were there. */
  lemma CrashLeavesSurvivors(l: Ledger, call: Call)
    requires l.Valid() && call.Crash?
    ensures var a := Left(|l.closed|, l.closedSafe, call.lostClosed);
            var b := Left(|l.open|, l.openSafe, call.lostOpen);
            Next(l, call).Groups() == Survivors(l, a, b, |l.Groups()|)
  {
    var a := Left(|l.closed|, l.closedSafe, call.lostClosed);
    var b := Left(|l.open|, l.openSafe, call.lostOpen);
    SurvivorsAre(l, a, b, |l.Groups()|);
    assert l.done[..|l.done|] == l.done;
  }

  /** No group survives a group before it. */
  ghost predicate TakesTheLast(l: Ledger, lostClosed: nat, lostOpen: nat) {
    var a := Left(|l.closed|, l.closedSafe, lostClosed);
    var b := Left(|l.open|, l.openSafe, lostOpen);
    forall i, j :: 0 <= i < j < |l.Groups()| && Survives(l, a, b, j) ==> Survives(l, a, b, i)
  }

  /**
  Every crash takes the last groups only if and only if the closed log is synced to its end or the
  open one is empty.  Nothing syncs the closed log when the open one is started.
   */
  lemma LossIsFromTheEnd(l: Ledger)
    requires l.Valid()
    ensures (forall lostClosed, lostOpen :: TakesTheLast(l, lostClosed, lostOpen))
            <==> l.closedSafe == |l.closed| || l.open == []
  {
    if l.closedSafe < |l.closed| && l.open != [] {
      var i, j := |l.done| + |l.closed| - 1, |l.done| + |l.closed|;
      var a, b := Left(|l.closed|, l.closedSafe, 1), Left(|l.open|, l.openSafe, 0);
      assert i < j < |l.Groups()| && Survives(l, a, b, j) && !Survives(l, a, b, i);
      assert !TakesTheLast(l, 1, 0);
    }
  }

  /** If it takes the last groups only, what is left is a prefix. */
  lemma LastLostIsPrefix(l: Ledger, call: Call)
    requires l.Valid() && call.Crash? && TakesTheLast(l, call.lostClosed, call.lostOpen)
    ensures Next(l, call).Groups() <= l.Groups()
  {
    var a := Left(|l.closed|, l.closedSafe, call.lostClosed);
    var b := Left(|l.open|, l.openSafe, call.lostOpen);
    var i, j := |l.done| + a, |l.done| + |l.closed|;
    assert a < |l.closed| && b > 0 ==> i < j < |l.Groups()| && Survives(l, a, b, j) && !Survives(l, a, b, i);
    assert a == |l.closed| || b == 0;
  }

  /** A new store, a group, a new memtable and a synced group: a crash can take the first and leave the second. */
  lemma EarlierGroupIsLost(first: seq<Op>, second: seq<Op>, full: nat -> bool, sizes: nat -> nat)
    ensures After(NEW_LEDGER, [Commit(first, false), Switch, Commit(second, true), Crash(1, 0, full, sizes)]).Groups()
            == [second]
  {
    var calls := [Commit(first, false), Switch, Commit(second, true), Crash(1, 0, full, sizes)];
    assert calls[..3] == [Commit(first, false), Switch, Commit(second, true)];
    assert calls[..3][..2] == [Commit(first, false), Switch] && calls[..3][..2][..1] == [Commit(first, false)];
    assert calls[..3][..2][..1][..0] == [];
    assert After(NEW_LEDGER, calls[..3][..2][..1]) == Ledger([], [], [first], 0, 0, false);
    assert After(NEW_LEDGER, calls[..3][..2]) == Ledger([], [first], [], 0, 0, true);
    assert After(NEW_LEDGER, calls[..3]) == Ledger([], [first], [second], 0, 1, true);
  }
}
