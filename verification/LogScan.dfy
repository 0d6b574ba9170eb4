/**
What a log file says, whatever it contains (util/leveldb/db/log_reader.cc): the physical records in it, one
after the other, and the records and reports that a reader makes of them.
 */
module LogScan {
  import opened Keys
  import opened Coding
  import opened LogFormat

  // ---------------------------------------------------------------- physical records

  /** What ReadPhysicalRecord returns; a bad record may or may not be reported. */
  datatype Outcome = Record(t: Byte, data: Bytes) | Eof | Bad(reported: bool)

  datatype Parsed = Parsed(outcome: Outcome, next: nat)

  function BlockEnd(o: nat): (e: nat)
    ensures o < e <= o + BLOCK && e % BLOCK == 0
  {
    o - o % BLOCK + BLOCK
  }

  /** End of what one block read around `o` delivers. */
  function ReadableEnd(file: Bytes, o: nat): (e: nat) {
    if BlockEnd(o) <= |file| then BlockEnd(o) else |file|
  }

  function DecodeLength(a: Byte, b: Byte): (n: nat) {
    a + 256 * b
  }

  /** The physical record with its header at `o`, in the part of its block that the file has. */
  function ParseHeader(file: Bytes, o: nat): (p: Parsed)
    requires o + HEADER <= |file|
    ensures o < p.next <= |file|
    ensures p.outcome.Record? ==> o + HEADER + |p.outcome.data| == p.next
  {
    var end := ReadableEnd(file, o);
    var length := DecodeLength(file[o + 4], file[o + 5]);
    var t := file[o + 6];
    if o + HEADER + length > end then Parsed(if BlockEnd(o) <= |file| then Bad(true) else Eof, end)
    else if t == 0 && length == 0 then Parsed(Bad(false), end)
    else if Crc(file[o + 6..o + 7 + length]) != Unmask(DecodeFixed32(file[o..o + 4])) then Parsed(Bad(true), end)
    else Parsed(Record(t, file[o + HEADER..o + HEADER + length]), o + HEADER + length)
  }

  /** What a reader standing at offset `g` finds next in the file. */
  function ParseAt(file: Bytes, g: nat): (p: Parsed)
    requires g <= |file|
    ensures g <= p.next <= |file| && (!p.outcome.Eof? ==> g < p.next)
    ensures p.outcome.Record? ==> p.next == HeaderAt(g) + HEADER + |p.outcome.data|
  {
    var o := HeaderAt(g);
    if o + HEADER > |file| then Parsed(Eof, |file|) else ParseHeader(file, o)
  }

  /** What a reader finds from offset `g` on, up to the end of the file. */
  function Outcomes(file: Bytes, g: nat): (os: seq<Outcome>)
    requires g <= |file|
    decreases |file| - g
  {
    var p := ParseAt(file, g);
    if p.outcome.Eof? then [] else [p.outcome] + Outcomes(file, p.next)
  }

  lemma {:induction false} OutcomesStep(file: Bytes, g: nat)
    requires g <= |file|
    ensures var p := ParseAt(file, g);
            Outcomes(file, g) == if p.outcome.Eof? then [] else [p.outcome] + Outcomes(file, p.next)
  {
  }

  /** Where a reader stands that started at `g` and has seen `n` outcomes. */
  ghost function PosAfter(file: Bytes, g: nat, n: nat): (p: nat)
    requires g <= |file|
    ensures g <= p <= |file|
  {
    if n == 0 then g else ParseAt(file, PosAfter(file, g, n - 1)).next
  }

  lemma {:induction false} OutcomesAfter(file: Bytes, g: nat, n: nat)
    requires g <= |file| && n <= |Outcomes(file, g)|
    ensures Outcomes(file, PosAfter(file, g, n)) == Outcomes(file, g)[n..]
  {
    hide ParseAt, Outcomes;
    if n > 0 {
      OutcomesAfter(file, g, n - 1);
      OutcomesStep(file, PosAfter(file, g, n - 1));
    }
  }

  // ---------------------------------------------------------------- the records made of them

  predicate IsKind(o: Outcome, t: Byte) {
    o.Record? && o.t == t
  }

  /** The data collected of an unfinished record before the outcome at `n`. */
  ghost function Partial(os: seq<Outcome>, n: nat): Option<Bytes>
    requires n <= |os|
  {
    if n == 0 then None
    else
      var o, before := os[n - 1], Partial(os, n - 1);
      if IsKind(o, FIRST) then Some(o.data)
      else if IsKind(o, MIDDLE) && before.Some? then Some(before.value + o.data)
      else None
  }

  /** The outcome at `j` completes a record. */
  ghost predicate Ends(os: seq<Outcome>, j: nat) {
    j < |os| && (IsKind(os[j], FULL) || (IsKind(os[j], LAST) && Partial(os, j).Some?))
  }

  /** The outcome with which the record began that is unfinished before `n`. */
  ghost function Began(os: seq<Outcome>, n: nat): (f: nat)
    requires n <= |os| && Partial(os, n).Some?
    ensures f < n
  {
    if IsKind(os[n - 1], FIRST) then n - 1 else Began(os, n - 1)
  }

  ghost predicate AllRecords(os: seq<Outcome>, n: nat) {
    n <= |os| && forall i :: 0 <= i < n ==> os[i].Record?
  }

  ghost predicate NoneEnds(os: seq<Outcome>, n: nat) {
    forall j :: 0 <= j < n ==> !Ends(os, j)
  }

  ghost function Whole(os: seq<Outcome>, j: nat): Bytes
    requires Ends(os, j)
  {
    if IsKind(os[j], FULL) then os[j].data else Partial(os, j).value + os[j].data
  }

  ghost function FirstOf(os: seq<Outcome>, j: nat): nat
    requires Ends(os, j)
  {
    if IsKind(os[j], FULL) then j else Began(os, j)
  }

  /** The reports about one outcome: what is lost with it, and the unfinished record it breaks off. */
  function DropsAt(o: Outcome, open: Option<Bytes>): (n: nat) {
    match o
    case Record(t, _) =>
      if t == FULL || t == FIRST then if open.Some? && open.value != [] then 1 else 0
      else if t == MIDDLE || t == LAST then if open.Some? then 0 else 1
      else 1
    case Bad(reported) => (if reported then 1 else 0) + if open.Some? then 1 else 0
    case Eof => 0
  }

  ghost function Drops(os: seq<Outcome>, n: nat): nat
    requires n <= |os|
  {
    if n == 0 then 0 else Drops(os, n - 1) + DropsAt(os[n - 1], Partial(os, n - 1))
  }

  /** The records completed by the first `n` outcomes. */
  ghost function Completed(os: seq<Outcome>, n: nat): seq<Bytes>
    requires n <= |os|
  {
    if n == 0 then [] else Completed(os, n - 1) + if Ends(os, n - 1) then [Whole(os, n - 1)] else []
  }

  /** The first complete record comes with the last of `n` outcomes; without one, they are all there are. */
  ghost predicate FirstComplete(os: seq<Outcome>, n: nat, record: Option<Bytes>) {
    match record
    case None => n == |os| && NoneEnds(os, n)
    case Some(r) => 0 < n <= |os| && Ends(os, n - 1) && r == Whole(os, n - 1) && NoneEnds(os, n - 1)
  }

  /** A first fragment at `f` and nothing but middle ones from there to `n`. */
  ghost predicate Running(os: seq<Outcome>, f: nat, n: nat) {
    f < n <= |os| && IsKind(os[f], FIRST) && forall i :: f < i < n ==> IsKind(os[i], MIDDLE)
  }

  ghost function Joined(os: seq<Outcome>, f: nat, n: nat): Bytes
    requires f <= n <= |os| && forall i :: f <= i < n ==> os[i].Record?
  {
    if n == f then [] else Joined(os, f, n - 1) + os[n - 1].data
  }

  /** What is collected are the fragments since the last first one, if no other kind came since. */
  lemma {:induction false} PartialIff(os: seq<Outcome>, n: nat, x: Bytes)
    requires n <= |os|
    ensures Partial(os, n) == Some(x) <==> exists f: nat :: Running(os, f, n) && Joined(os, f, n) == x
  {
    if n > 0 {
      var o := os[n - 1];
      if IsKind(o, FIRST) {
        assert Running(os, n - 1, n) && Joined(os, n - 1, n - 1) == [];
        assert Joined(os, n - 1, n) == o.data;
        assert !IsKind(o, MIDDLE);
        assert forall f: nat :: Running(os, f, n) ==> f == n - 1;
      } else {
        if Partial(os, n - 1).Some? {
          PartialIff(os, n - 1, Partial(os, n - 1).value);
        }
        if f: nat :| Running(os, f, n) {
          assert Running(os, f, n - 1);
          PartialIff(os, n - 1, Joined(os, f, n - 1));
        }
        if Partial(os, n) == Some(x) {
          var f: nat :| Running(os, f, n - 1) && Joined(os, f, n - 1) == Partial(os, n - 1).value;
          assert Running(os, f, n) && Joined(os, f, n) == x;
        }
      }
    }
  }

  /**
  A record is returned for an outcome exactly if it is a full one, or the last fragment behind a first one
  and middle ones; and then it is their data.
   */
  lemma EndsIff(os: seq<Outcome>, j: nat)
    requires j < |os|
    ensures Ends(os, j) <==> IsKind(os[j], FULL) || (IsKind(os[j], LAST) && exists f: nat :: Running(os, f, j))
    ensures Ends(os, j) && IsKind(os[j], FULL) ==> Whole(os, j) == os[j].data
    ensures forall f: nat :: Ends(os, j) && IsKind(os[j], LAST) && Running(os, f, j) ==> Whole(os, j) == Joined(os, f, j + 1)
  {
    forall f: nat | Running(os, f, j)
      ensures Partial(os, j) == Some(Joined(os, f, j))
    {
      PartialIff(os, j, Joined(os, f, j));
    }
    if Partial(os, j).Some? {
      PartialIff(os, j, Partial(os, j).value);
    }
  }

  // ---------------------------------------------------------------- starting in the middle

  /** Behind the end of a record a reader starts afresh. */
  lemma {:induction false} Afresh(os: seq<Outcome>, n: nat, j: nat)
    requires n + j <= |os| && Partial(os, n) == None
    ensures Partial(os[n..], j) == Partial(os, n + j) && Drops(os, n + j) == Drops(os, n) + Drops(os[n..], j)
    ensures Completed(os, n + j) == Completed(os, n) + Completed(os[n..], j)
  {
    if j > 0 {
      Afresh(os, n, j - 1);
      assert os[n..][j - 1] == os[n + j - 1];
      assert Ends(os[n..], j - 1) <==> Ends(os, n + j - 1);
    }
  }

  lemma {:induction false} NothingCollected(os: seq<Outcome>, n: nat)
    requires n <= |os| && NoneEnds(os, n)
    ensures Completed(os, n) == []
  {
    if n > 0 {
      NothingCollected(os, n - 1);
    }
  }

  lemma {:induction false} CompletedGrows(os: seq<Outcome>, n: nat, m: nat)
    requires n <= m <= |os|
    ensures Completed(os, n) <= Completed(os, m)
  {
    if n < m {
      CompletedGrows(os, n, m - 1);
    }
  }

  lemma {:induction false} DropsGrow(os: seq<Outcome>, n: nat, m: nat)
    requires n <= m <= |os|
    ensures Drops(os, n) <= Drops(os, m)
  {
    if n < m {
      DropsGrow(os, n, m - 1);
    }
  }
}
