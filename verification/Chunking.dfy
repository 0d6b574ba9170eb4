/**
Chunking a file through a read window that several chunking methods share
(util/fs-hasher/fs-hasher.c: window_advance_read, get_next_chunk, get_next_dedup_method, process_file).
 */
module Chunking {
  import opened Keys
  import opened Coding
  import opened Rabin

  datatype Method = Fixed(csize: nat, tails: bool) | Variable(params: Params, tails: bool) {
    ghost predicate Valid() {
      match this
      case Fixed(csize, _) => csize > 0
      case Variable(params, _) => params.Valid() && params.win <= params.min
    }

    /** The sizes leave room for a search; var_chnk_init does not ask for it. */
    predicate Flexible() {
      Fixed? || params.min < params.max
    }

    function Min(): nat {
      if Fixed? then csize else params.min
    }

    function Max(): nat {
      if Fixed? then csize else params.max
    }
  }

  // ---------------------------------------------------------------- chunking a whole file at once

  ghost function NextCut(data: Bytes, m: Method): (r: Cut)
    requires m.Valid()
    ensures r != Outside && (r.At? ==> 0 < m.Min() <= r.size <= m.Max() && r.size <= |data|)
    ensures |data| < m.Min() ==> r == NeedMore
    ensures r == NeedMore ==> |data| <= m.Max()
    ensures m.Flexible() ==> r != Overrun && (r == NeedMore ==> |data| < m.Max())
  {
    match m
    case Fixed(csize, _) => if |data| < csize then NeedMore else At(csize)
    case Variable(params, _) => MatchOf(data, params)
  }

  lemma CutIsStable(data: Bytes, more: Bytes, m: Method)
    requires m.Valid() && NextCut(data, m) != NeedMore
    ensures NextCut(data + more, m) == NextCut(data, m)
  {
    if m.Variable? {
      MatchIsStable(data, more, m.params);
    }
  }

  /** The chunks of a file: the matcher is run on everything that is left. */
  ghost function Chunks(data: Bytes, m: Method): (cs: seq<Bytes>)
    requires m.Valid()
    decreases |data|
  {
    var cut := NextCut(data, m);
    if cut.At? then [data[..cut.size]] + Chunks(data[cut.size..], m)
    else if cut == NeedMore && m.tails && data != [] then [data]
    else []
  }

  /** The matcher never runs into its end. */
  ghost predicate Unbroken(data: Bytes, m: Method)
    requires m.Valid()
    decreases |data|
  {
    var cut := NextCut(data, m);
    cut != Overrun && (cut.At? ==> Unbroken(data[cut.size..], m))
  }

  /** A full window at the start of the data asks for more, and gets the same window again. */
  ghost predicate Stuck(data: Bytes, m: Method, capacity: nat)
    requires m.Valid()
  {
    |data| >= capacity && NextCut(data[..capacity], m) == NeedMore
  }

  /** Every chunk shows in a window that starts with it. */
  ghost predicate Completes(data: Bytes, m: Method, capacity: nat)
    requires m.Valid()
    decreases |data|
  {
    var cut := NextCut(data, m);
    && cut != Overrun && !Stuck(data, m, capacity)
    && (cut.At? ==> Completes(data[cut.size..], m, capacity))
  }

  /** With room between minimum and maximum, a window of a maximal chunk is enough. */
  lemma {:induction false} WideWindowCompletes(data: Bytes, m: Method, capacity: nat)
    requires m.Valid() && m.Flexible() && m.Max() <= capacity
    ensures Completes(data, m, capacity) && Unbroken(data, m)
    decreases |data|
  {
    hide NextCut;
    var cut := NextCut(data, m);
    if cut.At? {
      WideWindowCompletes(data[cut.size..], m, capacity);
    }
  }

  lemma {:induction false} CompletesIsUnbroken(data: Bytes, m: Method, capacity: nat)
    requires m.Valid() && Completes(data, m, capacity)
    ensures Unbroken(data, m)
    decreases |data|
  {
    hide NextCut;
    var cut := NextCut(data, m);
    if cut.At? {
      CompletesIsUnbroken(data[cut.size..], m, capacity);
    }
  }

  /** A window below the minimum gets nowhere in any file that fills it. */
  lemma NarrowWindowIsStuck(data: Bytes, m: Method, capacity: nat)
    requires m.Valid() && capacity < m.Min() && |data| >= capacity
    ensures !Completes(data, m, capacity)
  {
    hide NextCut;
    assert |data[..capacity]| == capacity;
  }

  ghost function Concat(cs: seq<Bytes>): Bytes {
    if cs == [] then [] else cs[0] + Concat(cs[1..])
  }

  /** With tails on, the chunks are a partition of the file; without, at most a chunk's worth is missing. */
  lemma {:induction false} ChunksPartition(data: Bytes, m: Method)
    requires m.Valid()
    ensures Concat(Chunks(data, m)) <= data
    ensures Unbroken(data, m) ==> |data| - |Concat(Chunks(data, m))| <= m.Max()
    ensures m.Flexible() ==> |data| - |Concat(Chunks(data, m))| < m.Max()
    ensures Unbroken(data, m) && m.tails ==> Concat(Chunks(data, m)) == data
    decreases |data|
  {
    hide NextCut;
    var cut := NextCut(data, m);
    var cs := Chunks(data, m);
    if cut.At? {
      ChunksPartition(data[cut.size..], m);
      assert data == data[..cut.size] + data[cut.size..];
      assert cs[1..] == Chunks(data[cut.size..], m);
    } else if cs != [] {
      assert cs[1..] == [] && Concat(cs) == data + [];
    }
  }

  /** All chunks but the last have between Min and Max bytes; the last has at least one. */
  lemma {:induction false} ChunkSizes(data: Bytes, m: Method, i: nat)
    requires m.Valid() && i < |Chunks(data, m)|
    ensures 0 < |Chunks(data, m)[i]| <= m.Max()
    ensures i < |Chunks(data, m)| - 1 || !m.tails ==> |Chunks(data, m)[i]| >= m.Min()
    decreases |data|
  {
    hide NextCut;
    var cut := NextCut(data, m);
    if cut.At? && i > 0 {
      ChunkSizes(data[cut.size..], m, i - 1);
    }
  }

  // ---------------------------------------------------------------- chunking through a window

  ghost predicate GoodTable(m: Method, table: seq<nat>)
    requires m.Valid()
  {
    m.Variable? ==> |table| == 256 && forall t :: 0 <= t < 256 ==> table[t] == TableEntry(t, m.params.win)
  }

  /** get_next_chunk of both kinds: the size of the chunk in front of a buffer, if there is one. */
  method GetNextChunk(m: Method, table: seq<nat>, buffer: Bytes, eof: bool) returns (size: Option<nat>, ok: bool)
    requires m.Valid() && GoodTable(m, table)
    ensures ok <==> NextCut(buffer, m) != Overrun
    ensures ok ==>
              var cut := NextCut(buffer, m);
              size == if cut.At? then Some(cut.size) else if eof && m.tails then Some(|buffer|) else None
  {
    hide MatchOf;
    var cut;
    if m.Fixed? {
      cut := if |buffer| < m.csize then NeedMore else At(m.csize);
    } else {
      cut := RabinMatch(buffer, m.params, table);
    }
    ok := cut != Overrun;
    if cut.At? {
      size := Some(cut.size);
    } else {
      size := if eof && m.tails then Some(|buffer|) else None;
    }
  }

  /** A method has emitted the chunks in front of its cursor, which is in the window or right behind it. */
  ghost predicate Done(file: Bytes, start: nat, end: nat, capacity: nat, m: Method, offset: Option<nat>,
                       chunks: seq<Bytes>)
    requires m.Valid() && end <= |file|
  {
    match offset
    case None => chunks == Chunks(file, m) && Completes(file, m, capacity)
    case Some(o) =>
      && start <= o <= end && chunks + Chunks(file[o..], m) == Chunks(file, m)
      && (Completes(file, m, capacity) <==> Completes(file[o..], m, capacity))
  }

  /** Bytes left to do, and one more for every method still running. */
  ghost function Work(offsets: seq<Option<nat>>, size: nat): nat {
    if offsets == [] then 0
    else
      var o := offsets[|offsets| - 1];
      Work(offsets[..|offsets| - 1], size) + if o.Some? && o.value <= size then size - o.value + 1 else 0
  }

  lemma {:induction false} WorkShrinks(offsets: seq<Option<nat>>, size: nat, i: nat, o: Option<nat>)
    requires i < |offsets| && offsets[i].Some? && offsets[i].value <= size
    requires o.Some? ==> offsets[i].value < o.value
    ensures Work(offsets[i := o], size) < Work(offsets, size)
    decreases |offsets|
  {
    var n := |offsets| - 1;
    if i < n {
      assert offsets[i := o][..n] == offsets[..n][i := o];
      WorkShrinks(offsets[..n], size, i, o);
    } else {
      assert offsets[i := o][..n] == offsets[..n];
    }
  }

  /** A chunk found in the window is the next chunk of the file. */
  lemma EmitStep(file: Bytes, start: nat, end: nat, capacity: nat, m: Method, o: nat, chunks: seq<Bytes>, size: nat)
    requires m.Valid() && start <= o < end <= |file| && end - start <= capacity
    requires Done(file, start, end, capacity, m, Some(o), chunks)
    requires var cut := NextCut(file[o..end], m);
             || (cut.At? && size == cut.size)
             || (cut == NeedMore && m.tails && end == |file| && end - start < capacity && size == end - o)
    ensures 0 < size <= end - o
    ensures Done(file, start, end, capacity, m, Some(o + size), chunks + [file[o..end][..size]])
  {
    hide NextCut, Chunks, Completes;
    var buffer, rest := file[o..end], file[o..];
    assert rest == buffer + file[end..];
    CutBound(buffer, m);
    if NextCut(buffer, m).At? {
      CutIsStable(buffer, file[end..], m);
      NotStuck(buffer, file[end..], m, capacity);
    } else {
      assert rest == buffer;
    }
    assert buffer[..size] == rest[..size] && rest[size..] == file[o + size..];
    FirstChunk(rest, m, size, capacity);
    var next, after := [buffer[..size]], Chunks(file[o + size..], m);
    assert chunks + (next + after) == chunks + next + after;
  }

  /** A chunk that shows in a part of the window shows in a full one. */
  lemma NotStuck(buffer: Bytes, more: Bytes, m: Method, capacity: nat)
    requires m.Valid() && |buffer| <= capacity && NextCut(buffer, m) != NeedMore
    ensures !Stuck(buffer + more, m, capacity)
  {
    hide NextCut;
    if |buffer + more| >= capacity {
      var rest := more[..capacity - |buffer|];
      assert (buffer + more)[..capacity] == buffer + rest;
      CutIsStable(buffer, rest, m);
    }
  }

  lemma CutBound(data: Bytes, m: Method)
    requires m.Valid()
    ensures NextCut(data, m).At? ==> 0 < NextCut(data, m).size <= |data|
  {
    hide NextCut;
  }

  /** The chunk in front of the data, and the chunks of the rest. */
  lemma {:induction false} FirstChunk(data: Bytes, m: Method, size: nat, capacity: nat)
    requires m.Valid() && data != [] && !Stuck(data, m, capacity)
    requires var cut := NextCut(data, m);
             (cut.At? && size == cut.size) || (cut == NeedMore && m.tails && |data| < capacity && size == |data|)
    ensures 0 < size <= |data| && Chunks(data, m) == [data[..size]] + Chunks(data[size..], m)
    ensures Completes(data, m, capacity) <==> Completes(data[size..], m, capacity)
  {
    hide NextCut, Stuck;
    if !NextCut(data, m).At? {
      NoChunkInNothing(m, capacity);
      assert data[size..] == [] && data[..size] == data;
    }
  }

  lemma NoChunkInNothing(m: Method, capacity: nat)
    requires m.Valid()
    ensures Chunks([], m) == [] && (capacity > 0 ==> Completes([], m, capacity))
  {
  }

  /** At the end of the file a method without a next chunk has emitted them all. */
  lemma FinishStep(file: Bytes, start: nat, capacity: nat, m: Method, o: nat, chunks: seq<Bytes>)
    requires m.Valid() && start <= o <= |file| && |file| - start < capacity
    requires Done(file, start, |file|, capacity, m, Some(o), chunks)
    requires o == |file| || (NextCut(file[o..], m) == NeedMore && !m.tails)
    ensures Done(file, start, |file|, capacity, m, None, chunks)
  {
    hide NextCut;
    NoChunkInNothing(m, capacity);
    if o == |file| {
      assert file[o..] == [];
    }
    assert chunks + [] == chunks;
  }

  /** A matcher at its end, or a full window from the cursor on that shows no chunk, is fatal. */
  lemma FailStep(file: Bytes, start: nat, end: nat, capacity: nat, m: Method, o: nat, chunks: seq<Bytes>)
    requires m.Valid() && start <= o <= end <= |file| && Done(file, start, end, capacity, m, Some(o), chunks)
    requires || NextCut(file[o..end], m) == Overrun
             || (end - o == capacity && NextCut(file[o..end], m) == NeedMore)
    ensures !Completes(file, m, capacity)
  {
    hide NextCut;
    var buffer, rest := file[o..end], file[o..];
    assert rest == buffer + file[end..];
    if NextCut(buffer, m) == Overrun {
      CutIsStable(buffer, file[end..], m);
    } else {
      assert rest[..capacity] == buffer;
      assert Stuck(rest, m, capacity);
    }
  }

  lemma NothingNeedsMore(m: Method)
    requires m.Valid()
    ensures NextCut([], m) == NeedMore
  {
  }

  class Hasher {
    const file: Bytes
    const capacity: nat
    const methods: seq<Method>
    const tables: seq<seq<nat>>
    var windowOffset: nat
    var window: Bytes
    var bufferEof: bool
    /** Each method's cursor; no offset once it has finished the file. */
    var offsets: seq<Option<nat>>
    var chunks: seq<seq<Bytes>>

    ghost predicate Configured() {
      && |tables| == |methods| && capacity > 0
      && forall i :: 0 <= i < |methods| ==>
           methods[i].Valid() && GoodTable(methods[i], tables[i])
    }

    ghost predicate WindowValid()
      reads this
    {
      && windowOffset + |window| <= |file| && window == file[windowOffset..windowOffset + |window|]
      && (if bufferEof then windowOffset + |window| == |file| && |window| < capacity else |window| == capacity)
    }

    ghost predicate Valid()
      reads this
    {
      && Configured() && WindowValid() && |offsets| == |chunks| == |methods|
      && forall i :: 0 <= i < |methods| ==>
           Done(file, windowOffset, windowOffset + |window|, capacity, methods[i], offsets[i], chunks[i])
    }

    constructor (file: Bytes, capacity: nat, methods: seq<Method>, tables: seq<seq<nat>>)
      requires |tables| == |methods| && capacity > 0
      requires forall i :: 0 <= i < |methods| ==>
                 methods[i].Valid() && GoodTable(methods[i], tables[i])
      ensures Valid() && this.file == file && this.methods == methods && this.capacity == capacity
      ensures windowOffset == 0 && forall i :: 0 <= i < |methods| ==> offsets[i] == Some(0) && chunks[i] == []
    {
      this.file, this.capacity, this.methods, this.tables := file, capacity, methods, tables;
      windowOffset := 0;
      window := if |file| < capacity then file else file[..capacity];
      bufferEof := |file| < capacity;
      offsets := seq(|methods|, _ => Some(0));
      chunks := seq(|methods|, _ => []);
      new;
      assert file[0..] == file;
    }

    /** Fills the window from `offset` on; a read that comes back short is the end of the file. */
    method WindowAdvance(offset: nat)
      requires WindowValid() && !bufferEof && windowOffset <= offset <= windowOffset + |window|
      modifies this`windowOffset, this`window, this`bufferEof
      ensures WindowValid() && windowOffset == offset
      ensures windowOffset + |window| >= old(windowOffset + |window|)
    {
      windowOffset := offset;
      if |file| - offset < capacity {
        window := file[offset..];
        bufferEof := true;
      } else {
        window := file[offset..offset + capacity];
      }
    }

    /** The running method with the lowest cursor. */
    method GetNextMethod() returns (next: Option<nat>)
      ensures next == None ==> forall i :: 0 <= i < |offsets| ==> offsets[i] == None
      ensures next.Some? ==> next.value < |offsets| && offsets[next.value].Some?
      ensures next.Some? ==>
        forall i :: 0 <= i < |offsets| && offsets[i].Some? ==> offsets[next.value].value <= offsets[i].value
    {
      next := None;
      for k := 0 to |offsets|
        invariant next == None ==> forall i :: 0 <= i < k ==> offsets[i] == None
        invariant next.Some? ==> next.value < k && offsets[next.value].Some?
        invariant next.Some? ==>
          forall i :: 0 <= i < k && offsets[i].Some? ==> offsets[next.value].value <= offsets[i].value
      {
        if offsets[k].Some? && (next == None || offsets[k].value < offsets[next.value].value) {
          next := Some(k);
        }
      }
    }

    /** One round of the loop for the method `c`, which has the lowest cursor. */
    method Step(c: nat) returns (ok: bool)
      requires Valid() && c < |methods| && offsets[c].Some?
      requires forall i :: 0 <= i < |methods| && offsets[i].Some? ==> offsets[c].value <= offsets[i].value
      modifies this
      ensures Valid() && (!ok ==> !Completes(file, methods[c], capacity))
      ensures ok ==>
                || Work(offsets, |file|) < old(Work(offsets, |file|))
                || (Work(offsets, |file|) == old(Work(offsets, |file|))
                    && !old(bufferEof) && (bufferEof || windowOffset > old(windowOffset)))
    {
      hide Done, NextCut, Work, GoodTable, Completes;
      var o, m := offsets[c].value, methods[c];
      ghost var start, end := windowOffset, windowOffset + |window|;
      CursorInWindow(file, start, end, capacity, m, o, chunks[c]);
      var chunk: Option<nat> := None;
      var buffer := window[o - windowOffset..];
      assert buffer == file[o..end];
      NothingNeedsMore(m);
      ok := true;
      if o - windowOffset < |window| {
        chunk, ok := GetNextChunk(m, tables[c], buffer, bufferEof);
      }
      if !ok || (chunk.None? && !bufferEof && o == windowOffset) {
        FailStep(file, start, end, capacity, m, o, chunks[c]);
        ok := false;
      } else if chunk.Some? {
        EmitStep(file, start, end, capacity, m, o, chunks[c], chunk.value);
        Settle(c, Some(o + chunk.value), chunks[c] + [buffer[..chunk.value]]);
      } else if bufferEof {
        assert file[o..end] == file[o..];
        FinishStep(file, start, capacity, m, o, chunks[c]);
        Settle(c, None, chunks[c]);
      } else {
        Shift(o);
      }
    }

    /** The method `c` moves on. */
    method Settle(c: nat, offset: Option<nat>, done: seq<Bytes>)
      requires Valid() && c < |methods| && offsets[c].Some? && offsets[c].value <= |file|
      requires offset.Some? ==> offsets[c].value < offset.value
      requires Done(file, windowOffset, windowOffset + |window|, capacity, methods[c], offset, done)
      modifies this`offsets, this`chunks
      ensures Valid() && Work(offsets, |file|) < old(Work(offsets, |file|))
    {
      hide Done, Work, GoodTable;
      WorkShrinks(offsets, |file|, c, offset);
      offsets, chunks := offsets[c := offset], chunks[c := done];
    }

    /** The window moves on to the lowest cursor. */
    method Shift(o: nat)
      requires Valid() && !bufferEof && windowOffset < o <= windowOffset + |window|
      requires forall i :: 0 <= i < |methods| && offsets[i].Some? ==> o <= offsets[i].value
      modifies this`windowOffset, this`window, this`bufferEof
      ensures Valid() && windowOffset == o
    {
      hide Done, GoodTable;
      ghost var start, end := windowOffset, windowOffset + |window|;
      WindowAdvance(o);
      forall i | 0 <= i < |methods|
        ensures Done(file, windowOffset, windowOffset + |window|, capacity, methods[i], offsets[i], chunks[i])
      {
        WindowStep(file, start, end, windowOffset, windowOffset + |window|, capacity, methods[i], offsets[i], chunks[i]);
      }
    }

    /**
    If it ends well, the chunks of every method are those of the whole file, whatever the size of
    the window.  It does not end well exactly if some method's matcher runs into its end or some
    chunk does not show in a full window; the source then stops at an assertion or reads the same
    window for ever.
     */
    method ProcessFile() returns (ok: bool)
      requires Valid()
      modifies this
      ensures Valid() && (ok <==> forall i :: 0 <= i < |methods| ==> Completes(file, methods[i], capacity))
      ensures ok ==> forall i :: 0 <= i < |methods| ==> chunks[i] == Chunks(file, methods[i])
    {
      hide Work, NextCut, Chunks, Completes;
      var next: Option<nat> := GetNextMethod();
      ok := true;
      while next.Some?
        invariant Valid() && (next.Some? ==> next.value < |methods| && offsets[next.value].Some?)
        invariant next == None ==> forall i :: 0 <= i < |offsets| ==> offsets[i] == None
        invariant next.Some? ==>
          forall i :: 0 <= i < |methods| && offsets[i].Some? ==> offsets[next.value].value <= offsets[i].value
        invariant ok
        decreases Work(offsets, |file|), !bufferEof, |file| - windowOffset
      {
        ok := Step(next.value);
        if !ok {
          return;
        }
        next := GetNextMethod();
      }
    }
  }

  lemma CursorInWindow(file: Bytes, start: nat, end: nat, capacity: nat, m: Method, o: nat, chunks: seq<Bytes>)
    requires m.Valid() && end <= |file| && Done(file, start, end, capacity, m, Some(o), chunks)
    ensures start <= o <= end
  {
  }

  lemma WindowStep(file: Bytes, start: nat, end: nat, start': nat, end': nat, capacity: nat, m: Method,
                   o: Option<nat>, chunks: seq<Bytes>)
    requires m.Valid() && end <= end' <= |file| && Done(file, start, end, capacity, m, o, chunks)
    requires o.Some? ==> start' <= o.value
    ensures Done(file, start', end', capacity, m, o, chunks)
  {
  }
}
