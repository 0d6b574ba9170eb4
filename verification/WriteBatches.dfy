/**
Write batches: a header with sequence number and count, then one record per operation
(util/leveldb/db/write_batch.cc).
 */
module WriteBatches {
  import opened Common
  import opened Keys
  import opened Coding
  import opened Varints

  datatype Op = Put(key: Bytes, value: Bytes) | Delete(key: Bytes)

  datatype Problem = TooSmall | BadPut | BadDelete | UnknownTag | WrongCount
  datatype Status = OK | Corruption(problem: Problem)

  const BATCH_HEADER: nat := 12
  const TYPE_DELETION: Byte := 0
  const TYPE_VALUE: Byte := 1

  // ---------------------------------------------------------------- records

  function OpBytes(op: Op): (b: Bytes)
    ensures b != []
  {
    match op
    case Put(key, value) => [TYPE_VALUE] + (PrefixedBytes(key) + PrefixedBytes(value))
    case Delete(key) => [TYPE_DELETION] + PrefixedBytes(key)
  }

  /** The bytes of a record with one-byte strings, and of a batch without records. */
  lemma RecordLayout(x: Byte, y: Byte)
    ensures OpBytes(Put([x], [y])) == [1, 1, x, 1, y] && OpBytes(Delete([x])) == [0, 1, x]
    ensures EmptyBatch() == Zeros(12)
  {
    assert PrefixedBytes([x]) == [1, x] && PrefixedBytes([y]) == [1, y];
    NumberZero(4);
    NumberZero(8);
    hide PrefixedBytes, LittleEndian;
    assert Zeros(8) + Zeros(4) == Zeros(12);
  }

  lemma {:induction false} NumberZero(k: nat)
    ensures LittleEndian(0, k) == Zeros(k)
  {
    if k > 0 {
      NumberZero(k - 1);
      assert Zeros(k) == [0] + Zeros(k - 1);
    }
  }

  datatype OpParse = Parsed(op: Op, size: nat) | Failed(problem: Problem)

  /** The operation in front of `b`. */
  function ParseOp(b: Bytes): (r: OpParse)
    requires b != []
    ensures r.Parsed? ==> 0 < r.size <= |b|
  {
    var key := ParsePrefixed(b[1..]);
    if b[0] == TYPE_VALUE then
      if key == None then Failed(BadPut)
      else
        var value := ParsePrefixed(b[1 + key.value.size..]);
        if value == None then Failed(BadPut)
        else Parsed(Put(key.value.data, value.value.data), 1 + key.value.size + value.value.size)
    else if b[0] == TYPE_DELETION then
      if key == None then Failed(BadDelete) else Parsed(Delete(key.value.data), 1 + key.value.size)
    else Failed(UnknownTag)
  }

  datatype Iterated = Iterated(ops: seq<Op>, status: Status)

  /** The operations handed over before the end of `b`, or before the first bad record. */
  function ParseOps(b: Bytes): (r: Iterated)
    ensures |r.ops| <= |b|
  {
    if b == [] then Iterated([], OK)
    else
      match ParseOp(b)
      case Failed(problem) => Iterated([], Corruption(problem))
      case Parsed(op, size) => var r := ParseOps(b[size..]); Iterated([op] + r.ops, r.status)
  }

  // ---------------------------------------------------------------- whole batches

  function Sequence64(rep: Bytes): (s: nat)
    requires |rep| >= BATCH_HEADER
  {
    FromLittleEndian(rep[..8])
  }

  function Count(rep: Bytes): (n: nat)
    requires |rep| >= BATCH_HEADER
  {
    FromLittleEndian(rep[8..12])
  }

  /** What iterating over a batch delivers. */
  function Contents(rep: Bytes): (r: Iterated) {
    if |rep| < BATCH_HEADER then Iterated([], Corruption(TooSmall))
    else
      var r := ParseOps(rep[BATCH_HEADER..]);
      if r.status == OK && |r.ops| != Count(rep) then Iterated(r.ops, Corruption(WrongCount)) else r
  }

  ghost predicate WellFormed(rep: Bytes)
    ensures WellFormed(rep) ==> |rep| >= BATCH_HEADER
  {
    Contents(rep).status == OK
  }

  function EmptyBatch(): (rep: Bytes)
    ensures |rep| == BATCH_HEADER
  {
    LittleEndian(0, 8) + LittleEndian(0, 4)
  }

  function SetCount(rep: Bytes, n: nat): (r: Bytes)
    requires |rep| >= BATCH_HEADER
    ensures |r| == |rep|
  {
    rep[..8] + LittleEndian(n, 4) + rep[12..]
  }

  function SetSequence(rep: Bytes, s: nat): (r: Bytes)
    requires |rep| >= BATCH_HEADER
    ensures |r| == |rep|
  {
    LittleEndian(s, 8) + rep[8..]
  }

  /** WriteBatchInternal::Append. */
  function Append(dst: Bytes, src: Bytes): (r: Bytes)
    requires |dst| >= BATCH_HEADER && |src| >= BATCH_HEADER
    ensures |r| == |dst| + |src| - BATCH_HEADER
  {
    SetCount(dst, Count(dst) + Count(src)) + src[BATCH_HEADER..]
  }

  method Iterate(rep: Bytes) returns (ops: seq<Op>, status: Status)
    ensures Iterated(ops, status) == Contents(rep)
  {
    hide ParseOp;
    ops := [];
    if |rep| < BATCH_HEADER {
      return ops, Corruption(TooSmall);
    }
    var input := rep[BATCH_HEADER..];
    while input != []
      invariant var r := ParseOps(input);
                ParseOps(rep[BATCH_HEADER..]) == Iterated(ops + r.ops, r.status)
      decreases |input|
    {
      match ParseOp(input) {
        case Failed(problem) =>
          return ops, Corruption(problem);
        case Parsed(op, size) =>
          ops := ops + [op];
          input := input[size..];
      }
    }
    status := if |ops| != Count(rep) then Corruption(WrongCount) else OK;
  }

  // ---------------------------------------------------------------- batches put together

  lemma OpRoundTrip(op: Op, rest: Bytes)
    requires |op.key| < TWO_32 && (op.Put? ==> |op.value| < TWO_32)
    ensures ParseOp(OpBytes(op) + rest) == Parsed(op, |OpBytes(op)|)
  {
    hide PrefixedBytes, ParsePrefixed;
    match op
    case Put(k, v) =>
      var key, value := PrefixedBytes(k), PrefixedBytes(v);
      JoinedParts(TYPE_VALUE, key, value, rest);
      PrefixedRoundTrip(k, value + rest);
      PrefixedRoundTrip(v, rest);
    case Delete(k) =>
      var key := PrefixedBytes(k);
      JoinedParts(TYPE_DELETION, key, [], rest);
      assert [] + rest == rest && key + [] == key;
      PrefixedRoundTrip(k, rest);
  }

  lemma JoinedParts(t: Byte, a: Bytes, b: Bytes, rest: Bytes)
    ensures var s := [t] + (a + b) + rest;
            s[0] == t && s[1..] == a + (b + rest) && s[1 + |a|..] == b + rest
  {
    var s := [t] + (a + b) + rest;
    assert s == [t] + (a + (b + rest));
    assert s == ([t] + a) + (b + rest);
  }

  lemma OpIsStable(a: Bytes, b: Bytes)
    requires a != [] && ParseOp(a).Parsed?
    ensures ParseOp(a + b) == ParseOp(a)
  {
    hide ParsePrefixed;
    assert (a + b)[1..] == a[1..] + b;
    PrefixedIsStable(a[1..], b);
    var k := ParsePrefixed(a[1..]).value.size;
    assert (a + b)[1 + k..] == a[1 + k..] + b;
    if a[0] == TYPE_VALUE {
      PrefixedIsStable(a[1 + k..], b);
    }
  }

  /** Iterating over joined records delivers what the parts deliver, one after the other. */
  lemma {:induction false} OpsConcat(a: Bytes, b: Bytes)
    requires ParseOps(a).status == OK
    ensures ParseOps(a + b) == Iterated(ParseOps(a).ops + ParseOps(b).ops, ParseOps(b).status)
    decreases |a|
  {
    hide ParseOp;
    if a == [] {
      assert a + b == b;
    } else {
      var n := ParseOp(a).size;
      OpIsStable(a, b);
      assert (a + b)[n..] == a[n..] + b;
      OpsConcat(a[n..], b);
    }
  }

  lemma HeaderParts(rep: Bytes, n: nat, s: nat)
    requires |rep| >= BATCH_HEADER && n < TWO_32 && s < TWO_64
    ensures Count(SetCount(rep, n)) == n && SetCount(rep, n)[BATCH_HEADER..] == rep[BATCH_HEADER..]
    ensures Sequence64(SetCount(rep, n)) == Sequence64(rep)
    ensures Sequence64(SetSequence(rep, s)) == s && SetSequence(rep, s)[BATCH_HEADER..] == rep[BATCH_HEADER..]
    ensures Count(SetSequence(rep, s)) == Count(rep)
  {
    hide LittleEndian, FromLittleEndian;
    assert Base(4) == TWO_32 && Base(8) == TWO_64;
    LittleEndianRoundTrip(n, 4);
    LittleEndianRoundTrip(s, 8);
    assert SetCount(rep, n)[8..12] == LittleEndian(n, 4) && SetCount(rep, n)[..8] == rep[..8];
    assert SetSequence(rep, s)[..8] == LittleEndian(s, 8) && SetSequence(rep, s)[8..12] == rep[8..12];
  }

  /** Stamping a batch with a sequence number leaves its operations alone. */
  lemma SetSequenceKeeps(rep: Bytes, s: nat)
    requires WellFormed(rep) && s < TWO_64
    ensures Contents(SetSequence(rep, s)) == Contents(rep) && Sequence64(SetSequence(rep, s)) == s
  {
    hide ParseOps, SetSequence, Count, Sequence64;
    HeaderParts(rep, 0, s);
  }

  /** An appended batch iterates as the concatenation of its members. */
  lemma AppendJoins(dst: Bytes, src: Bytes)
    requires WellFormed(dst) && WellFormed(src) && Count(dst) + Count(src) < TWO_32
    ensures Contents(Append(dst, src)) == Iterated(Contents(dst).ops + Contents(src).ops, OK)
  {
    hide ParseOps, SetCount, Count;
    AddData(dst, Count(dst) + Count(src), src[BATCH_HEADER..]);
  }

  /** Adding records to a batch and setting its count to match. */
  lemma AddData(dst: Bytes, n: nat, data: Bytes)
    requires WellFormed(dst) && ParseOps(data).status == OK
    requires n == Count(dst) + |ParseOps(data).ops| < TWO_32
    ensures Contents(SetCount(dst, n) + data) == Iterated(Contents(dst).ops + ParseOps(data).ops, OK)
  {
    hide ParseOps, SetCount, FromLittleEndian;
    HeaderParts(dst, n, 0);
    var head := SetCount(dst, n);
    assert (head + data)[BATCH_HEADER..] == dst[BATCH_HEADER..] + data;
    assert (head + data)[8..12] == head[8..12];
    OpsConcat(dst[BATCH_HEADER..], data);
  }

  lemma EmptyIsWellFormed()
    ensures Contents(EmptyBatch()) == Iterated([], OK) && Count(EmptyBatch()) == 0
  {
    hide LittleEndian, FromLittleEndian;
    assert Base(4) == TWO_32;
    LittleEndianRoundTrip(0, 4);
    assert EmptyBatch()[8..12] == LittleEndian(0, 4);
    assert EmptyBatch()[BATCH_HEADER..] == [];
  }

  class WriteBatch {
    var rep: Bytes

    ghost predicate Valid()
      reads this
    {
      WellFormed(rep)
    }

    /** The operations collected so far. */
    ghost function Ops(): seq<Op>
      reads this
    {
      Contents(rep).ops
    }

    constructor ()
      ensures Valid() && Ops() == []
    {
      rep := EmptyBatch();
      EmptyIsWellFormed();
    }

    method Add(op: Op)
      requires Valid() && |Ops()| + 1 < TWO_32
      requires |op.key| < TWO_32 && (op.Put? ==> |op.value| < TWO_32)
      modifies this
      ensures Valid() && Ops() == old(Ops()) + [op]
    {
      hide ParseOps, ParseOp, OpBytes, SetCount, Count;
      var record := OpBytes(op);
      OneRecord(op);
      AddData(rep, Count(rep) + 1, record);
      rep := SetCount(rep, Count(rep) + 1) + record;
    }
  }

  lemma OneRecord(op: Op)
    requires |op.key| < TWO_32 && (op.Put? ==> |op.value| < TWO_32)
    ensures ParseOps(OpBytes(op)) == Iterated([op], OK)
  {
    hide ParseOp, OpBytes;
    var b := OpBytes(op);
    assert b + [] == b;
    OpRoundTrip(op, []);
    assert b[|b|..] == [];
  }

  // ---------------------------------------------------------------- into the memtable

  datatype MemEntry = MemEntry(key: Bytes, sn: nat, op: Op)

  /** The entries MemTableInserter adds: consecutive sequence numbers in batch order. */
  function Numbered(ops: seq<Op>, first: nat): (es: seq<MemEntry>)
    ensures |es| == |ops|
    ensures forall i :: 0 <= i < |ops| ==> es[i] == MemEntry(ops[i].key, first + i, ops[i])
  {
    if ops == [] then [] else [MemEntry(ops[0].key, first, ops[0])] + Numbered(ops[1..], first + 1)
  }

  lemma {:induction false} NumberedConcat(a: seq<Op>, b: seq<Op>, first: nat)
    ensures Numbered(a + b, first) == Numbered(a, first) + Numbered(b, first + |a|)
  {
  }

  method InsertInto(rep: Bytes, mem: seq<MemEntry>) returns (mem': seq<MemEntry>, status: Status)
    ensures status == Contents(rep).status
    ensures mem' == mem + if |rep| < BATCH_HEADER then [] else Numbered(Contents(rep).ops, Sequence64(rep))
  {
    hide ParseOps, Contents;
    var ops;
    ops, status := Iterate(rep);
    mem' := mem;
    if |rep| < BATCH_HEADER {
      return;
    }
    var sequence := Sequence64(rep);
    for i := 0 to |ops|
      invariant sequence == Sequence64(rep) + i
      invariant mem' == mem + Numbered(ops[..i], Sequence64(rep))
    {
      mem' := mem' + [MemEntry(ops[i].key, sequence, ops[i])];
      sequence := sequence + 1;
    }
    assert ops[..|ops|] == ops;
  }
}
