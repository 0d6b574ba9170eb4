/**
The write path: queued writers, one of which commits a group for all, and the replay of the log
(util/leveldb/db/db_impl.cc: Write, BuildBatchGroup, RecoverLogFile).
 */
module GroupCommit {
  import opened Common
  import opened Keys
  import opened Coding
  import opened WriteBatches
  import opened LogFormat
  import opened LogReader
  import opened LogScan
  import opened LogWriter

  /** A queued call of Write; a writer without a batch only asks for room. */
  datatype Writer = Writer(id: nat, batch: Option<Bytes>, sync: bool)

  datatype Result = Committed | NoRoom | LogFailed | SyncFailed

  /** How a writer was served: the sequence numbers from `first`, `count` of them, are its own. */
  datatype Served = Served(writer: Writer, first: nat, count: nat, result: Result, leaderSync: bool)

  /** What the leader's group is told, by what goes wrong first. */
  function GroupResult(ok: bool, leader: Writer, logOk: bool, syncOk: bool): (r: Result) {
    if !ok then NoRoom
    else if leader.batch == None then Committed
    else if !logOk then LogFailed
    else if leader.sync && !syncOk then SyncFailed
    else Committed
  }

  // ---------------------------------------------------------------- groups

  ghost function OpsOf(w: Writer): seq<Op> {
    if w.batch == None then [] else Contents(w.batch.value).ops
  }

  ghost function GroupOps(ws: seq<Writer>): seq<Op> {
    if ws == [] then [] else GroupOps(ws[..|ws| - 1]) + OpsOf(ws[|ws| - 1])
  }

  function GroupSize(ws: seq<Writer>): (n: nat) {
    if ws == [] then 0
    else
      var w := ws[|ws| - 1];
      GroupSize(ws[..|ws| - 1]) + if w.batch == None then 0 else |w.batch.value|
  }

  function MaxSize(size: nat): (n: nat)
    ensures n <= 0x100000
  {
    if size <= 0x20000 then size + 0x20000 else 0x100000
  }

  ghost predicate GoodWriters(ws: seq<Writer>) {
    forall i :: 0 <= i < |ws| ==> ws[i].batch == None || WellFormed(ws[i].batch.value)
  }

  /** Whether the writer at `k` may not join the group of those before it. */
  ghost predicate Blocked(ws: seq<Writer>, k: nat)
    requires 0 < k < |ws| && ws[0].batch.Some?
  {
    || (ws[k].sync && !ws[0].sync)
    || (ws[k].batch.Some? && GroupSize(ws[..k + 1]) > MaxSize(|ws[0].batch.value|))
  }

  /** `updates` holds the operations of the first `k` writers, and not too many of them. */
  ghost predicate Collected(ws: seq<Writer>, k: nat, updates: Bytes)
    requires k <= |ws|
  {
    && WellFormed(updates) && Contents(updates).ops == GroupOps(ws[..k])
    && |updates| <= GroupSize(ws[..k])
  }

  /** Nobody among the first `n` writers is blocked, and the one after them is. */
  ghost predicate Fullest(ws: seq<Writer>, n: nat)
    requires ws != [] && ws[0].batch.Some?
  {
    && 1 <= n <= |ws|
    && (forall k :: 0 < k < n ==> !Blocked(ws, k))
    && (n < |ws| ==> Blocked(ws, n))
  }

  /** The longest run of writers that may join; the temporary batch must be empty. */
  method BuildBatchGroup(ws: seq<Writer>, tmp: Bytes) returns (n: nat, updates: Bytes, shared: bool)
    requires ws != [] && ws[0].batch.Some? && GoodWriters(ws) && tmp == EmptyBatch()
    ensures Fullest(ws, n) && n <= |ws| && Collected(ws, n, updates)
    ensures MayGroup(ws, n) && forall k :: n < k <= |ws| ==> !MayGroup(ws, k)
    ensures shared <==> exists i :: 0 < i < n && ws[i].batch.Some?
    ensures |updates| >= BATCH_HEADER && if shared then updates[..8] == tmp[..8] else updates == ws[0].batch.value
  {
    hide *;
    EmptyHeader();
    WellFormedSize(ws);
    var first := ws[0].batch.value;
    var size := |first|;
    var maxSize := MaxSize(size);
    updates := first;
    shared := false;
    n := 1;
    FirstCollected(ws);
    while n < |ws|
      invariant 1 <= n <= |ws| && Collected(ws, n, updates)
      invariant size == GroupSize(ws[..n])
      invariant !shared ==> updates == first && GroupOps(ws[..n]) == Contents(first).ops
      invariant shared <==> exists i :: 0 < i < n && ws[i].batch.Some?
      invariant |updates| >= BATCH_HEADER && (shared ==> updates[..8] == tmp[..8])
      invariant forall k :: 0 < k < n ==> !Blocked(ws, k)
    {
      var w := ws[n];
      NextWriter(ws, n);
      if w.sync && !ws[0].sync {
        break;
      }
      if w.batch.Some? {
        size := size + |w.batch.value|;
        if size > maxSize {
          break;
        }
        if !shared {
          shared := true;
          StartShared(ws, n, tmp, first);
          AppendKeepsSequence(tmp, first);
          updates := Append(tmp, first);
        }
        AppendKeepsSequence(updates, w.batch.value);
        AppendWriter(ws, n, updates);
        updates := Append(updates, w.batch.value);
      } else {
        SkipWriter(ws, n, updates);
      }
      n := n + 1;
    }
    GroupIsFullest(ws, n);
    FullestIsLongest(ws, n);
  }

  lemma EmptyHeader()
    ensures |EmptyBatch()| == BATCH_HEADER == 12
  {
  }

  lemma WellFormedSize(ws: seq<Writer>)
    requires GoodWriters(ws)
    ensures forall i :: 0 <= i < |ws| && ws[i].batch.Some? ==> |ws[i].batch.value| >= BATCH_HEADER
  {
    hide Contents;
  }

  lemma AppendKeepsSequence(dst: Bytes, src: Bytes)
    requires |dst| >= BATCH_HEADER && |src| >= BATCH_HEADER
    ensures Append(dst, src)[..8] == dst[..8]
  {
    hide Count, LittleEndian;
  }

  /**
  The first `k` writers may be one group: nobody who wants a sync stands behind a leader who does not, and
  if there is a second batch, the others add at most 128 KB to a leader of at most 128 KB, or all together
  have at most 1 MB behind a larger one.
   */
  ghost predicate MayGroup(ws: seq<Writer>, k: nat)
    requires 1 <= k <= |ws| && ws[0].batch.Some?
  {
    && (forall i :: 0 < i < k && ws[i].sync ==> ws[0].sync)
    && ((exists i :: 0 < i < k && ws[i].batch.Some?) ==>
          var first := |ws[0].batch.value|;
          if first <= 128 * 1024 then GroupSize(ws[..k]) - first <= 128 * 1024 else GroupSize(ws[..k]) <= 1024 * 1024)
  }

  lemma OneMayGroup(ws: seq<Writer>)
    requires ws != [] && ws[0].batch.Some?
    ensures MayGroup(ws, 1)
  {
  }

  lemma SizeSteps(ws: seq<Writer>, k: nat)
    requires k < |ws|
    ensures GroupSize(ws[..k + 1]) == GroupSize(ws[..k]) + if ws[k].batch == None then 0 else |ws[k].batch.value|
  {
    assert ws[..k + 1][..k] == ws[..k];
  }

  /** The next writer may join exactly if it is not blocked. */
  lemma GroupSteps(ws: seq<Writer>, k: nat)
    requires 1 <= k < |ws| && ws[0].batch.Some?
    ensures MayGroup(ws, k + 1) <==> MayGroup(ws, k) && !Blocked(ws, k)
  {
    SizeSteps(ws, k);
    hide GroupSize;
    if ws[k].batch == None {
      assert (exists i :: 0 < i < k + 1 && ws[i].batch.Some?) <==> (exists i :: 0 < i < k && ws[i].batch.Some?);
    } else {
      assert 0 < k < k + 1 && ws[k].batch.Some?;
    }
  }

  lemma {:induction false} FullestIsLongest(ws: seq<Writer>, n: nat)
    requires ws != [] && ws[0].batch.Some? && Fullest(ws, n)
    ensures MayGroup(ws, n) && forall k :: n < k <= |ws| ==> !MayGroup(ws, k)
  {
    hide MayGroup, Blocked;
    OneMayGroup(ws);
    var k := 1;
    while k < n
      invariant 1 <= k <= n && MayGroup(ws, k)
    {
      GroupSteps(ws, k);
      k := k + 1;
    }
    while k < |ws|
      invariant n <= k <= |ws| && (k > n ==> !MayGroup(ws, k)) && forall j :: n < j <= k ==> !MayGroup(ws, j)
    {
      GroupSteps(ws, k);
      k := k + 1;
    }
  }

  lemma GroupIsFullest(ws: seq<Writer>, n: nat)
    requires ws != [] && ws[0].batch.Some? && 1 <= n <= |ws|
    requires (forall k :: 0 < k < n ==> !Blocked(ws, k)) && (n < |ws| ==> Blocked(ws, n))
    ensures Fullest(ws, n)
  {
    hide Blocked;
  }

  lemma FirstCollected(ws: seq<Writer>)
    requires ws != [] && ws[0].batch.Some? && GoodWriters(ws)
    ensures Collected(ws, 1, ws[0].batch.value) && GroupSize(ws[..1]) == |ws[0].batch.value|
    ensures GroupOps(ws[..1]) == Contents(ws[0].batch.value).ops && |ws[0].batch.value| >= BATCH_HEADER
  {
    hide Contents;
    var one := ws[..1];
    assert one[..0] == [] && one[0] == ws[0];
    assert GroupOps(one) == OpsOf(ws[0]);
  }

  lemma NextWriter(ws: seq<Writer>, n: nat)
    requires 0 < n < |ws| && ws[0].batch.Some? && GoodWriters(ws)
    ensures GroupSize(ws[..n + 1]) == GroupSize(ws[..n]) + if ws[n].batch == None then 0 else |ws[n].batch.value|
    ensures Blocked(ws, n) <==>
      (ws[n].sync && !ws[0].sync) || (ws[n].batch.Some? && GroupSize(ws[..n + 1]) > MaxSize(|ws[0].batch.value|))
    ensures ws[n].batch.Some? ==> |ws[n].batch.value| >= BATCH_HEADER
  {
    hide Contents;
    assert ws[..n + 1][..n] == ws[..n];
  }

  lemma StartShared(ws: seq<Writer>, n: nat, tmp: Bytes, first: Bytes)
    requires n <= |ws| && tmp == EmptyBatch() && Collected(ws, n, first) && GroupOps(ws[..n]) == Contents(first).ops
    requires GroupSize(ws[..n]) <= 0x100000
    ensures |first| >= BATCH_HEADER && Collected(ws, n, Append(tmp, first))
  {
    hide GroupOps, GroupSize, ParseOps, Count;
    EmptyIsWellFormed();
    CountBound(first);
    AppendJoins(tmp, first);
  }

  lemma CountBound(rep: Bytes)
    requires WellFormed(rep)
    ensures |rep| >= BATCH_HEADER && Count(rep) == |Contents(rep).ops| <= |rep|
  {
  }

  lemma AppendWriter(ws: seq<Writer>, n: nat, updates: Bytes)
    requires n < |ws| && Collected(ws, n, updates) && GoodWriters(ws) && ws[n].batch.Some?
    requires GroupSize(ws[..n + 1]) <= 0x100000
    ensures |updates| >= BATCH_HEADER && Collected(ws, n + 1, Append(updates, ws[n].batch.value))
  {
    hide ParseOps, Count, Contents;
    CountBound(updates);
    CountBound(ws[n].batch.value);
    assert ws[..n + 1][..n] == ws[..n];
    AppendJoins(updates, ws[n].batch.value);
  }

  lemma SkipWriter(ws: seq<Writer>, n: nat, updates: Bytes)
    requires n < |ws| && Collected(ws, n, updates) && ws[n].batch == None
    ensures Collected(ws, n + 1, updates) && GroupOps(ws[..n + 1]) == GroupOps(ws[..n])
  {
    hide Contents;
    assert ws[..n + 1][..n] == ws[..n];
  }

  // ---------------------------------------------------------------- what a run has done so far

  ghost function Total(served: seq<Served>): nat {
    if served == [] then 0 else Total(served[..|served| - 1]) + served[|served| - 1].count
  }

  /** Every writer owns the sequence numbers that follow those of the writers served before it. */
  ghost predicate Ranged(served: seq<Served>, last: nat) {
    && (forall i :: 0 <= i < |served| ==> served[i].first == 1 + Total(served[..i]))
    && last == Total(served)
  }

  ghost predicate Fair(served: seq<Served>) {
    forall i :: 0 <= i < |served| ==>
      && (served[i].writer.sync ==> served[i].leaderSync)
      && served[i].count == (if served[i].result == NoRoom then 0 else |OpsOf(served[i].writer)|)
  }

  /** The entries of the committed writers, in queue order. */
  ghost function CommittedEntries(served: seq<Served>): seq<MemEntry> {
    if served == [] then []
    else
      var s := served[|served| - 1];
      CommittedEntries(served[..|served| - 1])
      + if s.result == Committed then Numbered(OpsOf(s.writer), s.first) else []
  }

  ghost function WritersOf(served: seq<Served>): (ws: seq<Writer>)
    ensures |ws| == |served|
  {
    seq(|served|, i requires 0 <= i < |served| => served[i].writer)
  }

  ghost predicate Distinct(ws: seq<Writer>) {
    forall i, j :: 0 <= i < j < |ws| ==> ws[i].id != ws[j].id
  }

  ghost predicate Answered(served: seq<Served>, results: map<nat, Result>) {
    && (forall i :: 0 <= i < |served| ==>
          served[i].writer.id in results && results[served[i].writer.id] == served[i].result)
    && (forall id :: id in results ==> HasId(WritersOf(served), id))
  }

  ghost predicate HasId(ws: seq<Writer>, id: nat) {
    exists i :: 0 <= i < |ws| && ws[i].id == id
  }

  /** Entries rebuilt by replaying batches. */
  ghost function Entries(log: seq<Bytes>): seq<MemEntry>
    requires forall r :: r in log ==> WellFormed(r)
  {
    if log == [] then []
    else
      var r := log[|log| - 1];
      assert r in log && WellFormed(r);
      Entries(log[..|log| - 1]) + Numbered(Contents(r).ops, Sequence64(r))
  }

  /** The memtable is what the log says; only a batch whose sync failed is logged and not applied. */
  ghost predicate Logged(log: seq<Bytes>, mem: seq<MemEntry>, broken: bool) {
    && (forall r :: r in log ==> WellFormed(r))
    && (broken ==> log != [])
    && mem == Entries(if broken then log[..|log| - 1] else log)
  }

  /** The local variables of the writer that commits a group while the mutex is released. */
  datatype Group = Group(size: nat, result: Result, last: nat)

  /** How the group's members will have been served. */
  ghost function ServedOf(ws: seq<Writer>, first: nat, result: Result, leaderSync: bool): (r: seq<Served>)
    ensures |r| == |ws|
  {
    if ws == [] then []
    else
      var front, w := ws[..|ws| - 1], ws[|ws| - 1];
      ServedOf(front, first, result, leaderSync)
      + [Served(w, first + |GroupOps(front)|, if result == NoRoom then 0 else |OpsOf(w)|, result, leaderSync)]
  }

  datatype Run = Run(writers: seq<Writer>, last: nat, log: seq<Bytes>, mem: seq<MemEntry>, tmp: Bytes, broken: bool,
                     results: map<nat, Result>, leading: Option<Group>,
                     arrived: seq<Writer>, served: seq<Served>, retired: seq<MemEntry>)

  ghost predicate GoodGroup(ws: seq<Writer>, last: nat, g: Group) {
    && 1 <= g.size <= |ws|
    && (forall k :: 0 < k < g.size && ws[k].sync ==> ws[0].sync)
    && (g.result == NoRoom ==> g.size == 1)
    && g.last == last + if g.result == NoRoom then 0 else |GroupOps(ws[..g.size])|
  }

  /** The members of the running group, as they will be served. */
  ghost function Pending(ws: seq<Writer>, last: nat, leading: Option<Group>): seq<Served>
    requires leading.Some? ==> GoodGroup(ws, last, leading.value)
  {
    if leading == None then []
    else ServedOf(ws[..leading.value.size], last + 1, leading.value.result, ws[0].sync)
  }

  ghost predicate Queued(arrived: seq<Writer>, served: seq<Served>, ws: seq<Writer>) {
    arrived == WritersOf(served) + ws && Distinct(arrived) && GoodWriters(ws)
  }

  ghost predicate Inv(st: Run) {
    && Queued(st.arrived, st.served, st.writers)
    && Ranged(st.served, st.last) && Fair(st.served) && Answered(st.served, st.results)
    && st.tmp == EmptyBatch() && Logged(st.log, st.mem, st.broken)
    && (st.leading.Some? ==> GoodGroup(st.writers, st.last, st.leading.value))
    && st.retired + st.mem == CommittedEntries(st.served + Pending(st.writers, st.last, st.leading))
  }

  lemma NothingYet()
    ensures Inv(Run([], 0, [], [], EmptyBatch(), false, map[], None, [], [], []))
  {
    hide EmptyBatch;
  }

  class Queue {
    var writers: seq<Writer>
    var lastSequence: nat
    var log: seq<Bytes>
    var mem: seq<MemEntry>
    var tmpBatch: Bytes
    var broken: bool
    var results: map<nat, Result>
    var leading: Option<Group>

    ghost var arrived: seq<Writer>
    ghost var served: seq<Served>
    ghost var retired: seq<MemEntry>

    ghost function View(): Run
      reads this
    {
      Run(writers, lastSequence, log, mem, tmpBatch, broken, results, leading, arrived, served, retired)
    }

    ghost predicate Valid()
      reads this
    {
      Inv(View())
    }

    constructor ()
      ensures Valid() && arrived == [] && served == [] && leading == None && !broken
    {
      writers, lastSequence, log, mem, tmpBatch, broken := [], 0, [], [], EmptyBatch(), false;
      results, leading, arrived, served, retired := map[], None, [], [], [];
      new;
      hide Inv, EmptyBatch;
      NothingYet();
    }

    /** A call of Write queues up; this can happen while a group is being committed. */
    method Enqueue(w: Writer)
      requires Valid() && GoodWriters([w]) && forall v :: v in arrived ==> v.id != w.id
      modifies this`writers, this`arrived
      ensures Valid() && arrived == old(arrived) + [w] && writers == old(writers) + [w]
    {
      hide Inv, GoodWriters;
      EnqueueKeepsInv(View(), w);
      writers := writers + [w];
      arrived := arrived + [w];
    }

    /** MakeRoomForWrite: refuses after a failed sync, and may start a new log and memtable. */
    method MakeRoom(room: bool, switched: bool) returns (ok: bool)
      requires Valid()
      modifies this`log, this`mem, this`retired
      ensures Valid() && ok == (room && !broken)
      ensures if ok && switched then log == [] && retired == old(retired + mem)
              else log == old(log) && mem == old(mem) && retired == old(retired)
    {
      hide Inv, EmptyBatch;
      ok := room && !broken;
      if ok && switched {
        SwitchKeepsInv(View());
        retired, log, mem := retired + mem, [], [];
      }
    }

    /** Logs a group, syncs the log if its leader asked for it, and applies it. */
    method WriteGroup(n: nat, updates: Bytes, logOk: bool, syncOk: bool)
      requires Valid() && leading == None && 1 <= n <= |writers| && !broken
      requires Stamped(writers, n, updates, lastSequence + 1) && writers[0].batch.Some?
      modifies this`log, this`mem, this`broken, this`leading
      ensures Valid() && leading.Some? && leading.value.size == n
      ensures leading.value.result == GroupResult(true, writers[0], logOk, syncOk)
      ensures log == old(log) + if logOk then [updates] else []
      ensures broken <==> logOk && writers[0].sync && !syncOk
    {
      hide Inv, Stamped, Contents, Count, EmptyBatch, Sequence64, Numbered;
      StampedFacts(writers, n, updates, lastSequence + 1);
      var last := lastSequence + Count(updates);
      if !logOk {
        LogFailureKeepsInv(View(), n, updates);
        leading := Some(Group(n, LogFailed, last));
        return;
      }
      LoggedKeepsInv(View(), n, updates);
      log := log + [updates];
      if writers[0].sync && !syncOk {
        leading, broken := Some(Group(n, SyncFailed, last)), true;
      } else {
        var status;
        mem, status := InsertInto(updates, mem);
        assert status == OK;
        leading := Some(Group(n, Committed, last));
      }
    }

    /**
    The front writer makes room, collects a group, stamps it and writes it.  `room`, `logOk` and
    `syncOk` say what the file system does; `switched` says whether making room switches memtables.
     */
    method Lead(room: bool, switched: bool, logOk: bool, syncOk: bool)
      requires Valid() && leading == None && writers != [] && lastSequence + 1 < TWO_64
      modifies this
      ensures Valid() && leading.Some? && unchanged(`writers, `lastSequence, `results, `arrived, `served)
      ensures leading.value.result == GroupResult(room && !old(broken), writers[0], logOk, syncOk)
      ensures broken <==> old(broken) || leading.value.result == SyncFailed
      ensures room && !old(broken) && writers[0].batch.Some? ==>
                var n := leading.value.size;
                && Fullest(writers, n)
                && (logOk ==> log != [] && Stamped(writers, n, log[|log| - 1], lastSequence + 1))
    {
      hide Inv, GroupOps, Collected, Blocked, GoodWriters, Contents, SetSequence, EmptyBatch, Stamped, Fullest;
      var ok := MakeRoom(room, switched);
      if !ok || writers[0].batch == None {
        var result := if ok then Committed else NoRoom;
        IdleKeepsInv(View(), result);
        leading := Some(Group(1, result, lastSequence));
        return;
      }
      QueueFacts(View());
      var n, updates, shared := BuildBatchGroup(writers, tmpBatch);
      if shared {
        tmpBatch := updates;
      }
      FullestBound(writers, n);
      StampedGroup(writers, n, updates, lastSequence + 1);
      updates := SetSequence(updates, lastSequence + 1);
      if shared {
        tmpBatch := EmptyBatch();
      }
      WriteGroup(n, updates, logOk, syncOk);
    }

    /** The leader publishes the last sequence number and takes its group off the queue. */
    method Finish()
      requires Valid() && leading.Some?
      modifies this
      ensures Valid() && leading == None && lastSequence == old(leading).value.last
      ensures unchanged(`arrived, `log, `mem, `broken, `retired)
      ensures writers == old(writers)[old(leading).value.size..]
      ensures served == old(served) + old(ServedOf(writers[..leading.value.size], lastSequence + 1,
                                                   leading.value.result, writers[0].sync))
    {
      hide Inv, GoodGroup, Distinct, ServedOf, Marked;
      GroupFacts(View());
      var g := leading.value;
      ghost var members := ServedOf(writers[..g.size], lastSequence + 1, g.result, writers[0].sync);
      var rest, marked := PopGroup(writers, writers[g.size - 1].id, g.result, results, g.size);
      FinishKeepsInv(View(), marked);
      lastSequence := g.last;
      served := served + members;
      writers, results, leading := rest, marked, None;
    }
  }

  lemma FullestBound(ws: seq<Writer>, n: nat)
    requires ws != [] && ws[0].batch.Some? && Fullest(ws, n)
    ensures 1 <= n <= |ws|
  {
  }

  lemma GroupFacts(st: Run)
    requires Inv(st) && st.leading.Some?
    ensures 1 <= st.leading.value.size <= |st.writers| && Distinct(st.writers)
  {
    hide Ranged, Fair, Answered, Logged, CommittedEntries, ServedOf, EmptyBatch, GroupOps;
    var n := |st.served|;
    forall i, j | 0 <= i < j < |st.writers|
      ensures st.writers[i].id != st.writers[j].id
    {
      assert st.writers[i] == st.arrived[n + i] && st.writers[j] == st.arrived[n + j];
    }
  }

  /** Exactly the writers `ws` have got `result`; nobody else's answer changed. */
  ghost predicate Marked(results: map<nat, Result>, results': map<nat, Result>, ws: seq<Writer>, result: Result) {
    && (forall i :: 0 <= i < |ws| ==> ws[i].id in results' && results'[ws[i].id] == result)
    && (forall id :: id in results' ==> id in results || HasId(ws, id))
    && (forall id :: id in results ==> id in results' && (results'[id] == results[id] || HasId(ws, id)))
  }

  /** The loop that takes writers off the front until the last of the group. */
  method PopGroup(ws: seq<Writer>, lastWriter: nat, result: Result, results: map<nat, Result>, ghost n: nat)
    returns (rest: seq<Writer>, results': map<nat, Result>)
    requires 1 <= n <= |ws| && Distinct(ws) && ws[n - 1].id == lastWriter
    ensures rest == ws[n..] && Marked(results, results', ws[..n], result)
  {
    hide Marked;
    rest, results' := ws, results;
    ghost var i := 0;
    NobodyMarked(results, result);
    while true
      invariant 0 <= i < n && rest == ws[i..] && Marked(results, results', ws[..i], result)
      decreases n - i
    {
      var ready := rest[0];
      MarkOne(results, results', ws, i, result);
      rest := rest[1..];
      results' := results'[ready.id := result];
      i := i + 1;
      if ready.id == lastWriter {
        assert i == n;
        break;
      }
    }
  }

  lemma NobodyMarked(results: map<nat, Result>, result: Result)
    ensures Marked(results, results, [], result)
  {
  }

  lemma MarkOne(results: map<nat, Result>, results': map<nat, Result>, ws: seq<Writer>, i: nat, result: Result)
    requires i < |ws| && Marked(results, results', ws[..i], result)
    ensures Marked(results, results'[ws[i].id := result], ws[..i + 1], result)
  {
    hide HasId;
    var before, after := ws[..i], ws[..i + 1];
    assert after == before + [ws[i]];
    OnlyId(ws[i]);
    var marked := results'[ws[i].id := result];
    forall k | 0 <= k < |after|
      ensures after[k].id in marked && marked[after[k].id] == result
    {
      assert k < i ==> after[k] == before[k];
    }
    forall id | HasId(before, id) || id == ws[i].id
      ensures HasId(after, id)
    {
      HasIdInEither(before, [ws[i]], id);
    }
    assert forall id :: id in marked ==> id in results || HasId(after, id);
  }

  lemma OnlyId(w: Writer)
    ensures HasId([w], w.id)
  {
    assert [w][0] == w;
  }

  ghost function Finished(st: Run, results: map<nat, Result>): Run
    requires Inv(st) && st.leading.Some?
  {
    var g := st.leading.value;
    st.(last := g.last, results := results, leading := None, writers := st.writers[g.size..],
        served := st.served + Pending(st.writers, st.last, st.leading))
  }

  lemma FinishKeepsInv(st: Run, results: map<nat, Result>)
    requires Inv(st) && st.leading.Some? && 1 <= st.leading.value.size <= |st.writers|
    requires Marked(st.results, results, st.writers[..st.leading.value.size], st.leading.value.result)
    ensures Inv(Finished(st, results))
  {
    hide Ranged, Fair, Answered, Logged, CommittedEntries, ServedOf, EmptyBatch, GroupOps, Marked, WritersOf, Distinct, WellFormed;
    var g := st.leading.value;
    var ws, first, ls := st.writers[..g.size], st.last + 1, st.writers[0].sync;
    var members := ServedOf(ws, first, g.result, ls);
    assert (st.served + members) + [] == st.served + members;
    assert ws + st.writers[g.size..] == st.writers;
    MembersInOrder(st.served, ws, first, g.result, ls);
    assert st.arrived == (WritersOf(st.served) + ws) + st.writers[g.size..];
    FrontIsDistinct(WritersOf(st.served) + ws, st.writers[g.size..]);
    assert WritersOf(st.served + members) + st.writers[g.size..] == WritersOf(st.served) + (ws + st.writers[g.size..]);
    MembersRanged(st.served, ws, st.last, g.result, ls);
    assert forall k :: 0 <= k < |ws| ==> ws[k] == st.writers[k];
    MembersFair(st.served, ws, first, g.result, ls);
    MembersAnswered(st.served, ws, first, g.result, ls, st.results, results);
  }

  lemma FrontIsDistinct(a: seq<Writer>, b: seq<Writer>)
    requires Distinct(a + b)
    ensures Distinct(a)
  {
    assert forall i :: 0 <= i < |a| ==> (a + b)[i] == a[i];
  }

  lemma {:induction false} MembersAre(ws: seq<Writer>, first: nat, result: Result, ls: bool, k: nat)
    requires k < |ws|
    ensures var s := ServedOf(ws, first, result, ls)[k];
            s.writer == ws[k] && s.result == result && s.leaderSync == ls
            && s.count == if result == NoRoom then 0 else |OpsOf(ws[k])|
    decreases |ws|
  {
    hide OpsOf;
    if k < |ws| - 1 {
      MembersAre(ws[..|ws| - 1], first, result, ls, k);
    }
  }

  lemma MembersInOrder(served: seq<Served>, ws: seq<Writer>, first: nat, result: Result, ls: bool)
    ensures WritersOf(served + ServedOf(ws, first, result, ls)) == WritersOf(served) + ws
  {
    hide ServedOf;
    forall k | 0 <= k < |ws|
      ensures ServedOf(ws, first, result, ls)[k].writer == ws[k]
    {
      MembersAre(ws, first, result, ls, k);
    }
  }

  lemma {:induction false} MembersRanged(served: seq<Served>, ws: seq<Writer>, last: nat, result: Result, ls: bool)
    requires Ranged(served, last) && (result == NoRoom ==> |ws| <= 1)
    ensures Ranged(served + ServedOf(ws, last + 1, result, ls),
                   last + if result == NoRoom then 0 else |GroupOps(ws)|)
    decreases |ws|
  {
    hide *;
    GroupUnfold(ws, last + 1, result, ls);
    if ws == [] {
      assert served + [] == served;
    } else {
      var front, w := ws[..|ws| - 1], ws[|ws| - 1];
      GroupUnfold(front, last + 1, result, ls);
      MembersRanged(served, front, last, result, ls);
      var before := ServedOf(front, last + 1, result, ls);
      var s := Served(w, last + 1 + |GroupOps(front)|, if result == NoRoom then 0 else |OpsOf(w)|, result, ls);
      assert served + (before + [s]) == (served + before) + [s];
      RangedGrows(served + before, last + |GroupOps(front)|, s);
    }
  }

  lemma RangedGrows(served: seq<Served>, last: nat, s: Served)
    requires Ranged(served, last) && s.first == last + 1
    ensures Ranged(served + [s], last + s.count)
  {
    hide Total;
    OneMoreServed(served, s);
    var all := served + [s];
    forall i | 0 <= i < |all|
      ensures all[i].first == 1 + Total(all[..i])
    {
      assert all[..i] == served[..i];
      assert served[..|served|] == served;
    }
  }

  lemma MembersFair(served: seq<Served>, ws: seq<Writer>, first: nat, result: Result, ls: bool)
    requires Fair(served) && forall k :: 0 <= k < |ws| && ws[k].sync ==> ls
    ensures Fair(served + ServedOf(ws, first, result, ls))
  {
    hide ServedOf, OpsOf;
    forall k | 0 <= k < |ws|
      ensures var s := ServedOf(ws, first, result, ls)[k];
              (s.writer.sync ==> s.leaderSync) && s.count == if s.result == NoRoom then 0 else |OpsOf(s.writer)|
    {
      MembersAre(ws, first, result, ls, k);
    }
  }

  lemma MembersAnswered(served: seq<Served>, ws: seq<Writer>, first: nat, result: Result, ls: bool,
                        results: map<nat, Result>, results': map<nat, Result>)
    requires Answered(served, results) && Marked(results, results', ws, result)
    requires Distinct(WritersOf(served) + ws)
    ensures Answered(served + ServedOf(ws, first, result, ls), results')
  {
    hide ServedOf, HasId, Distinct;
    var members := ServedOf(ws, first, result, ls);
    var all := served + members;
    MembersInOrder(served, ws, first, result, ls);
    forall i | 0 <= i < |all|
      ensures all[i].writer.id in results' && results'[all[i].writer.id] == all[i].result
    {
      if i < |served| {
        NotAmong(served, ws, i);
        assert all[i] == served[i];
      } else {
        MembersAre(ws, first, result, ls, i - |served|);
      }
    }
    forall id | id in results'
      ensures HasId(WritersOf(all), id)
    {
      HasIdInEither(WritersOf(served), ws, id);
    }
  }

  lemma NotAmong(served: seq<Served>, ws: seq<Writer>, i: nat)
    requires Distinct(WritersOf(served) + ws) && i < |served|
    ensures !HasId(ws, served[i].writer.id)
  {
    var all := WritersOf(served) + ws;
    assert all[i] == served[i].writer;
    forall k | 0 <= k < |ws|
      ensures ws[k].id != served[i].writer.id
    {
      assert all[|served| + k] == ws[k];
    }
  }

  lemma HasIdInEither(a: seq<Writer>, b: seq<Writer>, id: nat)
    ensures HasId(a + b, id) <==> HasId(a, id) || HasId(b, id)
  {
    if HasId(a, id) {
      var i :| 0 <= i < |a| && a[i].id == id;
      assert (a + b)[i].id == id;
    }
    if HasId(b, id) {
      var i :| 0 <= i < |b| && b[i].id == id;
      assert (a + b)[|a| + i].id == id;
    }
  }

  lemma StampedFacts(ws: seq<Writer>, n: nat, updates: Bytes, first: nat)
    requires n <= |ws| && Stamped(ws, n, updates, first)
    ensures |updates| >= BATCH_HEADER && Contents(updates).status == OK
  {
  }

  lemma QueueFacts(st: Run)
    requires Inv(st)
    ensures GoodWriters(st.writers) && st.tmp == EmptyBatch()
  {
  }

  /** The stamped batch of a group, with facts about the group. */
  ghost predicate Stamped(ws: seq<Writer>, n: nat, updates: Bytes, first: nat)
    requires n <= |ws|
  {
    && n > 0 && (forall k :: 0 < k < n && ws[k].sync ==> ws[0].sync)
    && WellFormed(updates) && Contents(updates) == Iterated(GroupOps(ws[..n]), OK)
    && Sequence64(updates) == first && Count(updates) == |GroupOps(ws[..n])|
  }

  lemma StampedGroup(ws: seq<Writer>, n: nat, updates: Bytes, first: nat)
    requires 1 <= n <= |ws| && ws[0].batch.Some? && Collected(ws, n, updates) && first < TWO_64
    requires Fullest(ws, n)
    ensures |updates| >= BATCH_HEADER && |SetSequence(updates, first)| >= BATCH_HEADER
    ensures Stamped(ws, n, SetSequence(updates, first), first)
  {
    hide GroupOps, ParseOps, SetSequence, GroupSize;
    SetSequenceKeeps(updates, first);
    CountBound(SetSequence(updates, first));
    forall k | 0 < k < n && ws[k].sync
      ensures ws[0].sync
    {
      assert !Blocked(ws, k);
    }
  }

  lemma {:induction false} EnqueueKeepsInv(st: Run, w: Writer)
    requires Inv(st) && GoodWriters([w]) && forall v :: v in st.arrived ==> v.id != w.id
    ensures Inv(st.(writers := st.writers + [w], arrived := st.arrived + [w]))
  {
    hide GroupOps, ServedOf, Ranged, Fair, Answered, Logged, CommittedEntries, OpsOf, EmptyBatch, WellFormed;
    var ws := st.writers + [w];
    assert WritersOf(st.served) + ws == st.arrived + [w];
    if st.leading.Some? {
      var n := st.leading.value.size;
      assert ws[..n] == st.writers[..n];
    }
    assert [w][0] == w;
  }

  lemma SwitchKeepsInv(st: Run)
    requires Inv(st) && !st.broken
    ensures Inv(st.(retired := st.retired + st.mem, log := [], mem := []))
  {
    hide GroupOps, ServedOf, Ranged, Fair, Answered, CommittedEntries, OpsOf, EmptyBatch, WellFormed, Queued, GoodGroup;
    assert (st.retired + st.mem) + [] == st.retired + st.mem;
  }

  /** A writer that gets no room, or only wanted room, is a group of its own and writes nothing. */
  lemma IdleKeepsInv(st: Run, result: Result)
    requires Inv(st) && st.leading == None && st.writers != []
    requires result == NoRoom || (result == Committed && st.writers[0].batch == None)
    ensures Inv(st.(leading := Some(Group(1, result, st.last))))
  {
    hide Ranged, Fair, Answered, EmptyBatch, WellFormed, Queued, Logged, Contents;
    var one := st.writers[..1];
    assert one[..0] == [];
    var p := ServedOf(one, st.last + 1, result, st.writers[0].sync);
    assert p[..0] == [];
    assert st.served + [] == st.served;
    assert (st.served + p)[..|st.served|] == st.served;
  }

  /** What a group adds to the committed entries: its operations, numbered in queue order. */
  lemma {:induction false} GroupEntries(served: seq<Served>, ws: seq<Writer>, first: nat, result: Result, ls: bool)
    ensures CommittedEntries(served + ServedOf(ws, first, result, ls))
         == CommittedEntries(served) + if result == Committed then Numbered(GroupOps(ws), first) else []
    decreases |ws|
  {
    hide *;
    GroupUnfold(ws, first, result, ls);
    if ws == [] {
      assert served + [] == served;
    } else {
      var front, w := ws[..|ws| - 1], ws[|ws| - 1];
      GroupEntries(served, front, first, result, ls);
      var before := ServedOf(front, first, result, ls);
      var s := Served(w, first + |GroupOps(front)|, if result == NoRoom then 0 else |OpsOf(w)|, result, ls);
      assert served + (before + [s]) == (served + before) + [s];
      OneMoreServed(served + before, s);
      NumberedConcat(GroupOps(front), OpsOf(w), first);
    }
  }

  lemma {:induction false} GroupUnfold(ws: seq<Writer>, first: nat, result: Result, ls: bool)
    ensures ws == [] ==> ServedOf(ws, first, result, ls) == [] && GroupOps(ws) == [] && Numbered([], first) == []
    ensures ws != [] ==>
      var front, w := ws[..|ws| - 1], ws[|ws| - 1];
      && GroupOps(ws) == GroupOps(front) + OpsOf(w)
      && ServedOf(ws, first, result, ls) == ServedOf(front, first, result, ls)
         + [Served(w, first + |GroupOps(front)|, if result == NoRoom then 0 else |OpsOf(w)|, result, ls)]
  {
    hide OpsOf;
  }

  lemma {:induction false} OneMoreServed(served: seq<Served>, s: Served)
    ensures CommittedEntries(served + [s])
         == CommittedEntries(served) + if s.result == Committed then Numbered(OpsOf(s.writer), s.first) else []
    ensures Total(served + [s]) == Total(served) + s.count
  {
    hide OpsOf, Numbered;
    assert (served + [s])[..|served|] == served;
  }

  lemma LogFailureKeepsInv(st: Run, n: nat, updates: Bytes)
    requires Inv(st) && st.leading == None && 1 <= n <= |st.writers| && Stamped(st.writers, n, updates, st.last + 1)
    ensures Inv(st.(leading := Some(Group(n, LogFailed, st.last + Count(updates)))))
  {
    hide Ranged, Fair, Answered, EmptyBatch, WellFormed, Queued, Logged, Contents, GroupOps, ServedOf, CommittedEntries, Count;
    assert st.served + [] == st.served;
    GroupEntries(st.served, st.writers[..n], st.last + 1, LogFailed, st.writers[0].sync);
  }

  /** Once logged, the group is either applied, or left out for good because its sync failed. */
  lemma LoggedKeepsInv(st: Run, n: nat, updates: Bytes)
    requires Inv(st) && st.leading == None && 1 <= n <= |st.writers| && Stamped(st.writers, n, updates, st.last + 1)
    requires !st.broken
    ensures var g := Group(n, Committed, st.last + Count(updates));
            var mem := st.mem + Numbered(Contents(updates).ops, Sequence64(updates));
            && Inv(st.(leading := Some(g.(result := SyncFailed)), log := st.log + [updates], broken := true))
            && Inv(st.(leading := Some(g), log := st.log + [updates], mem := mem))
  {
    hide Ranged, Fair, Answered, EmptyBatch, WellFormed, Queued, Logged, Contents, GroupOps, ServedOf, CommittedEntries, Count, Sequence64;
    assert st.served + [] == st.served;
    var ws, ls := st.writers[..n], st.writers[0].sync;
    GroupEntries(st.served, ws, st.last + 1, SyncFailed, ls);
    GroupEntries(st.served, ws, st.last + 1, Committed, ls);
    LogGrows(st.log, st.mem, updates);
    var added := Numbered(GroupOps(ws), st.last + 1);
    assert st.retired + (st.mem + added) == (st.retired + st.mem) + added;
  }

  lemma LogGrows(log: seq<Bytes>, mem: seq<MemEntry>, updates: Bytes)
    requires Logged(log, mem, false) && WellFormed(updates)
    ensures Logged(log + [updates], mem, true)
    ensures Logged(log + [updates], mem + Numbered(Contents(updates).ops, Sequence64(updates)), false)
  {
    hide Contents, Sequence64;
    var more := log + [updates];
    assert more[..|more| - 1] == log;
  }

  // ---------------------------------------------------------------- consequences

  lemma {:induction false} TotalGrows(served: seq<Served>, i: nat, j: nat)
    requires i <= j <= |served|
    ensures Total(served[..i]) <= Total(served[..j])
    decreases j
  {
    hide Total;
    if i < j {
      TotalGrows(served, i, j - 1);
      assert served[..j] == served[..j - 1] + [served[j - 1]];
      OneMoreServed(served[..j - 1], served[j - 1]);
    }
  }

  /** In every reachable state, ranges are disjoint, in queue order, and end at the last sequence number. */
  lemma RangesDisjoint(st: Run, i: nat, j: nat)
    requires Inv(st) && i < j < |st.served|
    ensures st.arrived[i] == st.served[i].writer && st.arrived[j] == st.served[j].writer
    ensures st.served[i].first + st.served[i].count <= st.served[j].first
    ensures st.served[j].first + st.served[j].count <= st.last + 1
  {
    hide Total, Fair, Answered, Logged, CommittedEntries, Pending, EmptyBatch, GoodGroup, Distinct, GoodWriters;
    var served := st.served;
    assert served[..i + 1] == served[..i] + [served[i]] && served[..j + 1] == served[..j] + [served[j]];
    OneMoreServed(served[..i], served[i]);
    OneMoreServed(served[..j], served[j]);
    TotalGrows(served, i + 1, j);
    TotalGrows(served, j + 1, |served|);
    assert served[..|served|] == served;
  }

  // ---------------------------------------------------------------- replay

  /** What one record of a log puts into the memtable: the operations up to the first bad one. */
  ghost function AppliedOf(r: Bytes): seq<MemEntry> {
    if |r| < BATCH_HEADER then [] else Numbered(Contents(r).ops, Sequence64(r))
  }

  ghost function AllApplied(rs: seq<Bytes>): seq<MemEntry> {
    if rs == [] then [] else AllApplied(rs[..|rs| - 1]) + AppliedOf(rs[|rs| - 1])
  }

  /** The last sequence number of a batch, in 64 bits. */
  function LastSequenceOf(r: Bytes): (s: nat)
    requires |r| >= BATCH_HEADER
  {
    (Sequence64(r) + Count(r) + TWO_64 - 1) % TWO_64
  }

  /** The highest last sequence number of the records; `max` if that is higher. */
  ghost function HighestSequence(rs: seq<Bytes>, max: nat): nat {
    if rs == [] then max
    else
      var r, before := rs[|rs| - 1], HighestSequence(rs[..|rs| - 1], max);
      if |r| >= BATCH_HEADER && LastSequenceOf(r) > before then LastSequenceOf(r) else before
  }

  ghost predicate AllWellFormed(rs: seq<Bytes>) {
    forall r :: r in rs ==> WellFormed(r)
  }

  /**
  RecoverLogFile: the records of one log file, applied to a new memtable.  With paranoid checks it fails
  exactly if the reader has something to report or a record is malformed; without them it never fails, and
  malformed records give what they have.
   */
  method RecoverLogFile(file: Bytes, paranoid: bool, max: nat) returns (mem: seq<MemEntry>, max': nat, ok: bool)
    ensures var os := Outcomes(file, 0);
            var rs := Completed(os, |os|);
            && (ok <==> paranoid ==> Drops(os, |os|) == 0 && AllWellFormed(rs))
            && (ok ==> mem == AllApplied(rs) && max' == HighestSequence(rs, max))
  {
    hide *;
    var reader := new Reader(file);
    ghost var os, rs, n: nat := Outcomes(file, 0), [], 0;
    mem, max', ok := [], max, true;
    NothingTaken(file, 0);
    StartAfresh(os);
    NothingApplied(max);
    while true
      invariant reader.Valid() && reader.file == file && n <= |os| && reader.Pos() <= |file|
      invariant reader.Pos() == PosAfter(file, 0, n) && Partial(os, n) == None && rs == Completed(os, n)
      invariant reader.reports == Drops(os, n)
      invariant ok && (paranoid ==> reader.reports == 0 && AllWellFormed(rs))
      invariant mem == AllApplied(rs) && max' == HighestSequence(rs, max)
      decreases |file| - reader.Pos()
    {
      var record;
      ghost var taken;
      OutcomesAfter(file, 0, n);
      record, taken := reader.ReadRecord();
      TakenFits(os[n..], taken, record);
      OneMoreRecord(os, n, taken, record);
      PosJoins(file, 0, n, taken);
      n := n + taken;
      assert rs + [] == rs;
      ok := !paranoid || reader.reports == 0;
      DropsGrow(os, n, |os|);
      CompletedGrows(os, n, |os|);
      if record == None || !ok {
        break;
      }
      OneMoreApplied(rs, record.value, max);
      rs := rs + [record.value];
      FrontMalformed(rs, Completed(os, |os|));
      if |record.value| < BATCH_HEADER {
        ok := !paranoid;
      } else {
        var status;
        mem, status := InsertInto(record.value, mem);
        ok := status == OK || !paranoid;
        if ok && LastSequenceOf(record.value) > max' {
          max' := LastSequenceOf(record.value);
        }
      }
      if !ok {
        break;
      }
    }
  }

  lemma NothingApplied(max: nat)
    ensures AllApplied([]) == [] && HighestSequence([], max) == max && AllWellFormed([])
  {
  }

  lemma OneMoreApplied(rs: seq<Bytes>, r: Bytes, max: nat)
    ensures AllApplied(rs + [r]) == AllApplied(rs) + (if |r| < BATCH_HEADER then [] else Numbered(Contents(r).ops, Sequence64(r)))
    ensures HighestSequence(rs + [r], max)
            == if |r| >= BATCH_HEADER && LastSequenceOf(r) > HighestSequence(rs, max) then LastSequenceOf(r)
               else HighestSequence(rs, max)
    ensures AllWellFormed(rs + [r]) <==> AllWellFormed(rs) && |r| >= BATCH_HEADER && Contents(r).status == OK
  {
    hide Contents, Numbered, Sequence64, LastSequenceOf;
    assert (rs + [r])[..|rs|] == rs;
    assert AllWellFormed(rs + [r]) ==> r in rs + [r] && forall x :: x in rs ==> x in rs + [r];
  }

  lemma FrontMalformed(front: seq<Bytes>, rs: seq<Bytes>)
    requires front <= rs
    ensures AllWellFormed(rs) ==> AllWellFormed(front)
  {
    hide WellFormed;
    assert forall x :: x in front ==> x in rs;
  }

  /** Well-formed records rebuild their entries. */
  lemma {:induction false} WellFormedApplied(rs: seq<Bytes>)
    requires AllWellFormed(rs)
    ensures AllApplied(rs) == Entries(rs)
  {
    hide Contents, Numbered, Sequence64;
    if rs != [] {
      assert rs[|rs| - 1] in rs && WellFormed(rs[|rs| - 1]);
      WellFormedApplied(rs[..|rs| - 1]);
    }
  }

  /** No entry rebuilt from a log has a sequence number above the recovered one, if none of them wraps. */
  lemma {:induction false} RecoveredIsHighest(rs: seq<Bytes>, max: nat, e: MemEntry)
    requires AllWellFormed(rs) && e in Entries(rs)
    requires forall r :: r in rs ==> |r| >= BATCH_HEADER && Sequence64(r) + Count(r) <= TWO_64
    ensures e.sn <= HighestSequence(rs, max)
    decreases |rs|
  {
    hide Sequence64, Count, Contents, Numbered, LastSequenceOf;
    var r, front := rs[|rs| - 1], rs[..|rs| - 1];
    assert r in rs && WellFormed(r);
    if e in Entries(front) {
      RecoveredIsHighest(front, max, e);
    } else {
      LastIsHighest(r, e);
    }
  }

  lemma LastIsHighest(r: Bytes, e: MemEntry)
    requires WellFormed(r) && Sequence64(r) + Count(r) <= TWO_64 && e in Numbered(Contents(r).ops, Sequence64(r))
    ensures e.sn <= LastSequenceOf(r)
  {
    hide Sequence64, ParseOps;
    CountBound(r);
  }

  /** Replaying the log of any reachable state rebuilds the memtable, entry by entry. */
  lemma ReplayRebuilds(st: Run)
    requires Inv(st) && !st.broken && st.leading == None
    ensures forall r :: r in st.log ==> WellFormed(r)
    ensures st.retired + Entries(st.log) == CommittedEntries(st.served)
  {
    hide WellFormed, Entries, CommittedEntries, Ranged, Fair, Answered, Queued, EmptyBatch;
    assert st.served + [] == st.served;
  }

  /** Crash atomicity: whatever prefix of the log file survives, recovery sees whole groups, in order. */
  method CommitCrashRecover(log: seq<Bytes>, n: nat) returns (mem: seq<MemEntry>, ghost whole: nat)
    requires forall r :: r in log ==> WellFormed(r)
    ensures whole <= |log| && |Records(log[..whole], 0)| <= n
    ensures whole < |log| ==> |Records(log[..whole + 1], 0)| > n
    ensures (forall r :: r in log[..whole] ==> WellFormed(r)) && mem == Entries(log[..whole])
    ensures mem <= Entries(log)
  {
    hide *;
    var file := WriteLog(log);
    file := if n < |file| then file[..n] else file;
    LeftOfLog(log, n);
    whole := WrittenLog(file, 0, log);
    TheseSurvive(log, whole, |file|);
    AllSurvive(log[..whole], log, n, |file|);
    var max, ok;
    mem, max, ok := RecoverLogFile(file, true, 0);
    EntriesGrow(log, whole);
    AllAre(log[..whole]);
    WellFormedApplied(log[..whole]);
  }

  lemma AllAre(rs: seq<Bytes>)
    requires forall r :: r in rs ==> WellFormed(r)
    ensures AllWellFormed(rs)
  {
  }

  lemma {:induction false} EntriesGrow(log: seq<Bytes>, k: nat)
    requires k <= |log| && forall r :: r in log ==> WellFormed(r)
    ensures (forall r :: r in log[..k] ==> WellFormed(r)) && Entries(log[..k]) <= Entries(log)
    decreases |log|
  {
    hide WellFormed, Numbered;
    if k == |log| {
      assert log[..k] == log;
    } else {
      var front := log[..|log| - 1];
      EntriesGrow(front, k);
      assert front[..k] == log[..k];
    }
  }
}
