/** Reading a log file back (util/leveldb/db/log_reader.cc), from its start and with checksums on. */
module LogReader {
  import opened Keys
  import opened Coding
  import opened LogFormat
  import opened LogScan
  import opened LogWriter

  /** `buffer` is the unread part of the block that ends at `end`, or of what the file has of it. */
  ghost predicate Buffered(file: Bytes, buffer: Bytes, end: nat, eof: bool)
    requires |buffer| <= end <= |file|
  {
    && buffer == file[end - |buffer|..end]
    && (buffer != [] ==> BlockEnd(end - |buffer|) >= end)
    && (if eof then end == |file| && (buffer != [] ==> |file| % BLOCK != 0) else end % BLOCK == 0)
  }

  class Reader {
    const file: Bytes
    var buffer: Bytes
    var eof: bool
    var endOfBufferOffset: nat
    var lastRecordOffset: nat
    var reports: nat

    ghost predicate Valid()
      reads `buffer, `endOfBufferOffset, `eof
    {
      |buffer| <= endOfBufferOffset <= |file| && Buffered(file, buffer, endOfBufferOffset, eof)
    }

    /** Offset in the file of the first byte not yet consumed. */
    ghost function Pos(): nat
      requires Valid()
      reads `buffer, `endOfBufferOffset, `eof
    {
      endOfBufferOffset - |buffer|
    }

    constructor (file: Bytes)
      ensures Valid() && Pos() == 0 && reports == 0 && this.file == file
    {
      this.file := file;
      buffer, eof, endOfBufferOffset, lastRecordOffset, reports := [], false, 0, 0, 0;
    }

    method FillBuffer()
      requires Valid() && !eof && |buffer| < HEADER
      modifies this`buffer, this`endOfBufferOffset, this`eof
      ensures Valid() && Pos() == old(endOfBufferOffset)
      ensures eof || |buffer| == BLOCK
    {
      var end := if endOfBufferOffset + BLOCK <= |file| then endOfBufferOffset + BLOCK else |file|;
      buffer := file[endOfBufferOffset..end];
      endOfBufferOffset := end;
      if |buffer| < BLOCK {
        eof := true;
      }
    }

    /** Makes a whole header available, if the file has one. */
    method NeedHeader() returns (more: bool)
      requires Valid()
      modifies this`buffer, this`endOfBufferOffset, this`eof
      ensures Valid() && (more <==> HeaderAt(old(Pos())) + HEADER <= |file|)
      ensures more ==> Pos() == HeaderAt(old(Pos())) && |buffer| >= HEADER
      ensures more ==> endOfBufferOffset == ReadableEnd(file, Pos()) && (eof <==> BlockEnd(Pos()) > |file|)
      ensures !more ==> eof && endOfBufferOffset == |file|
    {
      if |buffer| < HEADER && !eof {
        FillBuffer();
      }
      more := |buffer| >= HEADER;
    }

    method ReadPhysicalRecord() returns (r: Outcome)
      requires Valid()
      modifies this`buffer, this`endOfBufferOffset, this`eof, this`reports
      ensures Valid() && ParseAt(file, old(Pos())) == Parsed(r, Pos())
      ensures reports == old(reports) + if r == Bad(true) then 1 else 0
    {
      hide ParseAt, ParseHeader, ParseBuffer, HeaderAt, Buffered, ReadableEnd, BlockEnd;
      ghost var g := Pos();
      var more := NeedHeader();
      if !more {
        NoHeader(file, g, endOfBufferOffset, eof, buffer);
        buffer := [];
        return Eof;
      }
      BufferIsFile(file, g, buffer, endOfBufferOffset, eof);
      var p := ParseBuffer(buffer, eof);
      if p.outcome == Bad(true) {
        reports := reports + 1;
      }
      buffer := buffer[p.next..];
      r := p.outcome;
    }

    lemma PosIs()
      requires Valid()
      ensures |buffer| <= endOfBufferOffset <= |file| && Pos() == endOfBufferOffset - |buffer|
    {
    }

    /**
    ReadRecord: whatever the file contains, the first record that is complete comes back, with a report for
    all that is dropped on the way.
     */
    method ReadRecord() returns (record: Option<Bytes>, ghost taken: nat)
      requires Valid()
      modifies this
      ensures Valid() && FirstComplete(Outcomes(file, old(Pos())), taken, record)
      ensures reports == old(reports) + Drops(Outcomes(file, old(Pos())), taken)
      ensures record != None ==> Pos() == PosAfter(file, old(Pos()), taken) > old(Pos())
      ensures record != None ==> lastRecordOffset == RecordStart(file, old(Pos()), taken - 1)
    {
      hide *;
      KindsDiffer();
      PosIs();
      ghost var start := Pos();
      ghost var os := Outcomes(file, start);
      taken := 0;
      NothingTaken(file, start);
      var scratch: Bytes := [];
      var inFragmentedRecord := false;
      var prospective: nat := 0;
      while true
        invariant Valid() && start <= Pos() == PosAfter(file, start, taken) <= |file|
        invariant taken <= |os| && reports == old(reports) + Drops(os, taken)
        invariant Collecting(file, start, taken, inFragmentedRecord, scratch, prospective)
        invariant !inFragmentedRecord ==> scratch == []
        decreases |file| - Pos()
      {
        NextOutcome(file, start, taken, inFragmentedRecord, scratch, prospective);
        var r := ReadPhysicalRecord();
        PosIs();
        DropsAre(r, inFragmentedRecord, scratch);
        match r
        case Record(t, fragment) =>
          var offset: nat := endOfBufferOffset - |buffer| - HEADER - |fragment|;
          taken := taken + 1;
          if t == FULL {
            if inFragmentedRecord && scratch != [] {
              reports := reports + 1;
            }
            lastRecordOffset := offset;
            return Some(fragment), taken;
          } else if t == FIRST {
            if inFragmentedRecord && scratch != [] {
              reports := reports + 1;
            }
            prospective := offset;
            scratch := fragment;
            inFragmentedRecord := true;
          } else if t == MIDDLE {
            if !inFragmentedRecord {
              reports := reports + 1;
            } else {
              scratch := scratch + fragment;
            }
          } else if t == LAST {
            if !inFragmentedRecord {
              reports := reports + 1;
            } else {
              lastRecordOffset := prospective;
              return Some(scratch + fragment), taken;
            }
          } else {
            reports := reports + 1;
            inFragmentedRecord := false;
            scratch := [];
          }
        case Eof =>
          return None, taken;
        case Bad(_) =>
          taken := taken + 1;
          if inFragmentedRecord {
            reports := reports + 1;
            inFragmentedRecord := false;
            scratch := [];
          }
      }
    }
  }

  /** Offset of the first header of the record that the outcome at `j` completes. */
  ghost function RecordStart(file: Bytes, g: nat, j: nat): nat
    requires g <= |file| && Ends(Outcomes(file, g), j)
  {
    HeaderAt(PosAfter(file, g, FirstOf(Outcomes(file, g), j)))
  }

  /** What a reader that started at `g` has in its variables after `n` outcomes, none of which completed a record. */
  ghost predicate Collecting(file: Bytes, g: nat, n: nat, open: bool, scratch: Bytes, prospective: nat)
    requires g <= |file|
  {
    var os := Outcomes(file, g);
    && n <= |os| && NoneEnds(os, n)
    && Partial(os, n) == (if open then Some(scratch) else None)
    && (if open then prospective == HeaderAt(PosAfter(file, g, Began(os, n))) else scratch == [])
  }

  lemma KindsDiffer()
    ensures FULL != FIRST && FULL != MIDDLE && FULL != LAST && FIRST != MIDDLE && FIRST != LAST && MIDDLE != LAST
  {
  }

  lemma NothingTaken(file: Bytes, g: nat)
    requires g <= |file|
    ensures Drops(Outcomes(file, g), 0) == 0 && PosAfter(file, g, 0) == g && Collecting(file, g, 0, false, [], 0)
    ensures AllRecords(Outcomes(file, g), 0)
  {
  }

  /** What the next outcome does to the record being collected, to the reports and to the answer. */
  lemma NextOutcome(file: Bytes, g: nat, n: nat, open: bool, scratch: Bytes, prospective: nat)
    requires g <= |file| && Collecting(file, g, n, open, scratch, prospective)
    ensures var os, p := Outcomes(file, g), ParseAt(file, PosAfter(file, g, n));
            var r := p.outcome;
            if r.Eof? then n <= |os| && FirstComplete(os, n, None)
            else
              && n < |os| && p.next == PosAfter(file, g, n + 1) > PosAfter(file, g, n)
              && Drops(os, n + 1) == Drops(os, n) + DropsHere(r, open, scratch)
              && (match r
                  case Record(t, d) =>
                    var offset := p.next - HEADER - |d|;
                    if t == FULL then FirstComplete(os, n + 1, Some(d)) && RecordStart(file, g, n) == offset
                    else if t == LAST && open then
                      FirstComplete(os, n + 1, Some(scratch + d)) && RecordStart(file, g, n) == prospective
                    else if t == FIRST then offset >= 0 && Collecting(file, g, n + 1, true, d, offset)
                    else if t == MIDDLE && open then Collecting(file, g, n + 1, true, scratch + d, prospective)
                    else Collecting(file, g, n + 1, false, [], prospective)
                  case _ => Collecting(file, g, n + 1, false, [], prospective))
  {
    hide ParseAt, Outcomes, HeaderAt;
    var os := Outcomes(file, g);
    OutcomesAfter(file, g, n);
    OutcomesStep(file, PosAfter(file, g, n));
    var r := ParseAt(file, PosAfter(file, g, n)).outcome;
    if !r.Eof? {
      assert os[n] == os[n..][0] == r;
      assert Drops(os, n + 1) == Drops(os, n) + DropsAt(r, Partial(os, n));
    }
  }

  function DropsHere(r: Outcome, open: bool, scratch: Bytes): nat {
    DropsAt(r, if open then Some(scratch) else None)
  }

  /** The parsing half of ReadPhysicalRecord; `next` counts the bytes taken from the buffer. */
  function ParseBuffer(buffer: Bytes, eof: bool): (p: Parsed)
    requires |buffer| >= HEADER
    ensures p.next <= |buffer|
  {
    var length := DecodeLength(buffer[4], buffer[5]);
    var t := buffer[6];
    if HEADER + length > |buffer| then Parsed(if !eof then Bad(true) else Eof, |buffer|)
    else if t == 0 && length == 0 then Parsed(Bad(false), |buffer|)
    else if Crc(buffer[6..7 + length]) != Unmask(DecodeFixed32(buffer[..4])) then Parsed(Bad(true), |buffer|)
    else Parsed(Record(t, buffer[HEADER..HEADER + length]), HEADER + length)
  }

  /** Parsing the buffer is parsing the file, and leaves the rest of the block buffered. */
  lemma BufferIsFile(file: Bytes, g: nat, buffer: Bytes, end: nat, eof: bool)
    requires |buffer| <= end <= |file| && Buffered(file, buffer, end, eof)
    requires |buffer| >= HEADER && end - |buffer| == HeaderAt(g) && end == ReadableEnd(file, HeaderAt(g))
    requires eof <==> BlockEnd(HeaderAt(g)) > |file|
    ensures var p := ParseBuffer(buffer, eof);
            && g <= |file| && ParseAt(file, g) == Parsed(p.outcome, end - |buffer| + p.next)
            && Buffered(file, buffer[p.next..], end, eof)
  {
    hide HeaderAt, ParseHeader, ParseBuffer, ReadableEnd, BlockEnd;
    ParsingMatches(file, HeaderAt(g), buffer, eof);
    DropFront(file, buffer, end, ParseBuffer(buffer, eof).next);
  }

  lemma NoHeader(file: Bytes, g: nat, end: nat, eof: bool, buffer: Bytes)
    requires |buffer| <= end == |file| && Buffered(file, buffer, end, eof)
    requires g <= |file| < HeaderAt(g) + HEADER
    ensures Buffered(file, [], end, eof) && ParseAt(file, g) == Parsed(Eof, |file|)
  {
  }

  lemma ParsingMatches(file: Bytes, o: nat, buffer: Bytes, eof: bool)
    requires |buffer| >= HEADER && o + |buffer| == ReadableEnd(file, o) <= |file|
    requires buffer == file[o..o + |buffer|]
    requires eof <==> BlockEnd(o) > |file|
    ensures var p := ParseBuffer(buffer, eof);
            ParseHeader(file, o) == Parsed(p.outcome, o + p.next)
  {
    hide Crc, Unmask, DecodeFixed32, DecodeLength, BlockEnd;
    SliceOfSlice(file, o, |buffer|, 0, 4);
    var length := DecodeLength(buffer[4], buffer[5]);
    if HEADER + length <= |buffer| {
      SliceOfSlice(file, o, |buffer|, 6, 7 + length);
      SliceOfSlice(file, o, |buffer|, HEADER, HEADER + length);
    }
  }

  lemma SliceOfSlice(file: Bytes, o: nat, n: nat, i: nat, j: nat)
    requires o + n <= |file| && i <= j <= n
    ensures file[o..o + n][i..j] == file[o + i..o + j]
  {
    var a := file[o..o + n];
    assert forall k :: 0 <= k < j - i ==> a[i..j][k] == file[o + i..o + j][k];
  }

  lemma DropFront(file: Bytes, buffer: Bytes, end: nat, n: nat)
    requires |buffer| <= end <= |file| && buffer == file[end - |buffer|..end] && n <= |buffer|
    requires buffer != [] ==> BlockEnd(end - |buffer|) >= end
    ensures buffer[n..] == file[end - |buffer[n..]|..end]
    ensures buffer[n..] != [] ==> BlockEnd(end - |buffer[n..]|) >= end
  {
    if n < |buffer| {
      SameBlock(end - |buffer|, end - |buffer| + n, end);
    }
  }

  lemma SameBlock(o: nat, p: nat, e: nat)
    requires o <= p < e <= BlockEnd(o)
    ensures BlockEnd(p) >= e
  {
  }

  // ---------------------------------------------------------------- reading what was written

  lemma LengthRoundTrip(n: nat)
    requires n < 0x10000
    ensures var b := LengthBytes(n); DecodeLength(b[0], b[1]) == n
  {
  }

  lemma HeaderFields(t: Byte, d: Bytes)
    requires |d| < 0x10000
    ensures var p := Physical(t, d);
            && p[..4] == EncodeFixed32(Mask(Extend(Crc([t]), d)))
            && p[4] == LengthBytes(|d|)[0] && p[5] == LengthBytes(|d|)[1]
            && p[6] == t && p[6..7 + |d|] == [t] + d && p[HEADER..] == d
  {
    hide Extend, Crc, Mask, EncodeFixed32, LengthBytes;
    var p := Physical(t, d);
    var a, b := EncodeFixed32(Mask(Extend(Crc([t]), d))), LengthBytes(|d|);
    assert p == a + (b + [t] + d);
    assert p == (a + b) + ([t] + d);
    assert p[..4] == a;
  }

  lemma ChecksumHolds(t: Byte, d: Bytes)
    ensures Crc([t] + d) == Unmask(DecodeFixed32(EncodeFixed32(Mask(Extend(Crc([t]), d)))))
  {
    hide Extend, Mask, Unmask, EncodeFixed32, DecodeFixed32;
    var c := Extend(Crc([t]), d);
    ExtendConcat(0, [t], d);
    MaskRoundTrip(c);
    Fixed32RoundTrip(Mask(c));
  }

  /** A physical record wholly in the file is read back as it was written. */
  lemma ParseWritten(file: Bytes, o: nat, t: Byte, d: Bytes)
    requires |d| < 0x10000 && o % BLOCK + HEADER + |d| <= BLOCK && t != 0
    requires o + HEADER + |d| <= |file| && file[o..o + HEADER + |d|] == Physical(t, d)
    ensures ParseHeader(file, o) == Parsed(Record(t, d), o + HEADER + |d|)
  {
    hide Crc, Mask, Unmask, EncodeFixed32, DecodeFixed32, Extend, Physical, DecodeLength, LengthBytes;
    HeaderFields(t, d);
    ChecksumHolds(t, d);
    LengthRoundTrip(|d|);
    var n := HEADER + |d|;
    SliceOfSlice(file, o, n, 0, 4);
    SliceOfSlice(file, o, n, 6, n);
    SliceOfSlice(file, o, n, HEADER, n);
    var p := Physical(t, d);
    assert p[4] == file[o + 4] && p[5] == file[o + 5] && p[6] == file[o + 6];
  }

  /** A physical record cut short by the end of the file reads as the end of the file. */
  lemma ParseCutShort(file: Bytes, o: nat, t: Byte, d: Bytes)
    requires |d| < 0x10000 && o % BLOCK + HEADER + |d| <= BLOCK
    requires o + HEADER <= |file| < o + HEADER + |d| && file[o..] == Physical(t, d)[..|file| - o]
    ensures ParseHeader(file, o) == Parsed(Eof, |file|)
  {
    hide Crc, Mask, Unmask, EncodeFixed32, DecodeFixed32, Extend, Physical, DecodeLength, LengthBytes;
    HeaderFields(t, d);
    LengthRoundTrip(|d|);
    var p := Physical(t, d);
    assert p[4] == file[o..][4] && p[5] == file[o..][5];
    assert file[o + 4] == p[4] && file[o + 5] == p[5];
  }

  /** From offset `g` on the file is a prefix of `bytes`. */
  ghost predicate Cut(file: Bytes, g: nat, bytes: Bytes) {
    g <= |file| <= g + |bytes| && file[g..] == bytes[..|file| - g]
  }

  lemma CutTail(file: Bytes, g: nat, a: Bytes, b: Bytes)
    requires Cut(file, g, a + b) && g + |a| <= |file|
    ensures file[g..g + |a|] == a && Cut(file, g + |a|, b)
  {
    assert forall k :: 0 <= k < |file| - g ==> file[g..][k] == (a + b)[k];
    assert forall k :: 0 <= k < |a| ==> file[g..g + |a|][k] == file[g..][k];
    var tail := file[g + |a|..];
    assert forall k :: 0 <= k < |tail| ==> tail[k] == file[g..][|a| + k];
  }

  lemma CutHead(file: Bytes, g: nat, a: Bytes, b: Bytes)
    requires Cut(file, g, a + b) && |file| <= g + |a|
    ensures Cut(file, g, a)
  {
    assert (a + b)[..|file| - g] == a[..|file| - g];
  }

  /** The fragment a reader meets at `g`, and what follows it. */
  lemma NextFragment(file: Bytes, g: nat, data: Bytes, begin: bool, after: Bytes)
    requires Cut(file, g, Fragments(data, g, begin) + after)
    ensures var o := HeaderAt(g);
            var n := Fit(o, |data|);
            var rest := if n == |data| then [] else Fragments(data[n..], o + HEADER + n, false);
            && |Fragments(data, g, begin)| == o - g + HEADER + n + |rest|
            && if o + HEADER + n <= |file| then
                 && ParseAt(file, g) == Parsed(Record(FragmentType(begin, n == |data|), data[..n]), o + HEADER + n)
                 && Cut(file, o + HEADER + n, rest + after)
               else ParseAt(file, g) == Parsed(Eof, |file|)
  {
    hide Physical, Zeros, Fragments, ParseHeader, Header;
    FragmentsUnfold(data, g, begin);
    var o := HeaderAt(g);
    var n := Fit(o, |data|);
    var t := FragmentType(begin, n == |data|);
    var rest := if n == |data| then [] else Fragments(data[n..], o + HEADER + n, false);
    var z, p := Zeros(o - g), Physical(t, data[..n]);
    assert Fragments(data, g, begin) + after == z + (p + (rest + after));
    if o <= |file| {
      CutTail(file, g, z, p + (rest + after));
      if o + HEADER + n <= |file| {
        CutTail(file, o, p, rest + after);
        ParseWritten(file, o, t, data[..n]);
      } else {
        CutHead(file, o, p, rest + after);
        if o + HEADER <= |file| {
          ParseCutShort(file, o, t, data[..n]);
        }
      }
    }
  }

  ghost function RecordEnd(start: nat, rs: seq<Bytes>): nat
    requires rs != []
  {
    start + |Fragments(rs[0], start, true)|
  }

  /**
  What a reader knows on the way through the first record of `rs`, begun at `start`: it stands at
  `g`, has collected `scratch`, and the rest of the file is a prefix of the rest of the log.
   */
  ghost predicate Following(file: Bytes, start: nat, rs: seq<Bytes>, g: nat, begin: bool, scratch: Bytes, prospective: nat) {
    if rs == [] then begin && g == start == |file|
    else
      && scratch <= rs[0]
      && (if begin then g == start && scratch == [] else prospective == HeaderAt(start))
      && Ahead(file, g, rs[0][|scratch|..], begin, RecordEnd(start, rs), rs[1..])
  }

  ghost predicate Ahead(file: Bytes, g: nat, data: Bytes, begin: bool, end: nat, later: seq<Bytes>) {
    && g + |Fragments(data, g, begin)| == end
    && Cut(file, g, Fragments(data, g, begin) + Records(later, end))
  }

  lemma FollowStart(file: Bytes, start: nat, rs: seq<Bytes>)
    requires Cut(file, start, Records(rs, start))
    ensures Following(file, start, rs, start, true, [], 0)
  {
    hide Fragments;
    if rs != [] {
      assert rs[0][0..] == rs[0];
    }
  }

  lemma FollowStep(file: Bytes, start: nat, rs: seq<Bytes>, g: nat, begin: bool, scratch: Bytes, prospective: nat)
    requires Following(file, start, rs, g, begin, scratch, prospective) && g <= |file|
    ensures var p := ParseAt(file, g);
            match p.outcome
            case Record(t, d) =>
              && rs != [] && (t == FULL || t == FIRST || t == MIDDLE || t == LAST)
              && (t == FULL || t == LAST ==>
                    && p.next == RecordEnd(start, rs) <= |file|
                    && Cut(file, p.next, Records(rs[1..], p.next)) && scratch + d == rs[0]
                    && (if t == FULL then begin && scratch == [] && d == rs[0] && p.next - HEADER - |d| == HeaderAt(start)
                        else !begin && prospective == HeaderAt(start)))
              && (t == FIRST ==>
                    begin && Following(file, start, rs, p.next, false, d, p.next - HEADER - |d|))
              && (t == MIDDLE ==>
                    !begin && Following(file, start, rs, p.next, false, scratch + d, prospective))
            case Eof => rs == [] || RecordEnd(start, rs) > |file|
            case Bad(_) => false
  {
    hide Records, Fragments, ParseHeader, Cut, BlockEnd, RecordEnd, Ahead, Fit;
    if rs != [] {
      var data := rs[0][|scratch|..];
      AheadStep(file, g, data, begin, RecordEnd(start, rs), rs[1..]);
      var n := Fit(HeaderAt(g), |data|);
      assert rs[0] == scratch + data;
      assert data[n..] == rs[0][|scratch + data[..n]|..];
    }
  }

  /** One fragment further along the same record. */
  lemma AheadStep(file: Bytes, g: nat, data: Bytes, begin: bool, end: nat, later: seq<Bytes>)
    requires Ahead(file, g, data, begin, end, later)
    ensures var o := HeaderAt(g);
            var n := Fit(o, |data|);
            if o + HEADER + n <= |file| then
              && ParseAt(file, g) == Parsed(Record(FragmentType(begin, n == |data|), data[..n]), o + HEADER + n)
              && (if n == |data| then o + HEADER + n == end && Cut(file, end, Records(later, end))
                  else Ahead(file, o + HEADER + n, data[n..], false, end, later))
            else ParseAt(file, g) == Parsed(Eof, |file|) && end > |file|
  {
    hide Records, Fragments, ParseAt, HeaderAt, Fit, Cut;
    var after := Records(later, end);
    assert [] + after == after;
    NextFragment(file, g, data, begin, after);
  }

  /** `out` is the longest list of records of `rs` that lie wholly in the first `size` bytes of its log. */
  ghost predicate Survivors(out: seq<Bytes>, rs: seq<Bytes>, size: nat) {
    && out <= rs && |Records(out, 0)| <= size
    && (|out| < |rs| ==> |Records(rs[..|out| + 1], 0)| > size)
  }

  /**
  From any point inside the first record of a log, or of what a crash left of it, a reader gets that record
  if it is wholly there, and otherwise the end of the file, and has nothing to report.
   */
  lemma {:induction false} FollowRecord(file: Bytes, start: nat, rs: seq<Bytes>, n: nat, begin: bool, scratch: Bytes,
                                        prospective: nat) returns (m: nat)
    requires start <= |file| && Following(file, start, rs, PosAfter(file, start, n), begin, scratch, prospective)
    requires Collecting(file, start, n, !begin, scratch, prospective)
    requires Drops(Outcomes(file, start), n) == 0 && AllRecords(Outcomes(file, start), n)
    ensures FirstIs(file, start, rs, m)
    decreases |file| - PosAfter(file, start, n)
  {
    hide *;
    KindsDiffer();
    var p := ParseAt(file, PosAfter(file, start, n));
    FollowStep(file, start, rs, PosAfter(file, start, n), begin, scratch, prospective);
    NextOutcome(file, start, n, !begin, scratch, prospective);
    match p.outcome
    case Record(t, d) =>
      NoDrops(p.outcome, !begin, scratch);
      OneMoreIsRecord(file, start, n);
      if t == FULL || t == LAST {
        m := n + 1;
        PackFirst(file, start, rs, m);
      } else if t == FIRST {
        m := FollowRecord(file, start, rs, n + 1, false, d, p.next - HEADER - |d|);
      } else {
        m := FollowRecord(file, start, rs, n + 1, false, scratch + d, prospective);
      }
    case _ =>
      m := n;
      PackNone(file, start, rs, m);
  }

  /** The first of the records `rs`, if it is wholly there, is complete with the outcome before `m`. */
  ghost predicate FirstIs(file: Bytes, start: nat, rs: seq<Bytes>, m: nat)
    requires start <= |file|
  {
    var os := Outcomes(file, start);
    && AllRecords(os, m) && Drops(os, m) == 0
    && if rs != [] && RecordEnd(start, rs) <= |file| then
         && FirstComplete(os, m, Some(rs[0])) && RecordStart(file, start, m - 1) == HeaderAt(start)
         && PosAfter(file, start, m) == RecordEnd(start, rs)
         && Cut(file, RecordEnd(start, rs), Records(rs[1..], RecordEnd(start, rs)))
       else FirstComplete(os, m, None)
  }

  lemma PackFirst(file: Bytes, start: nat, rs: seq<Bytes>, m: nat)
    requires start <= |file| && rs != [] && RecordEnd(start, rs) <= |file|
    requires var os := Outcomes(file, start);
             && AllRecords(os, m) && Drops(os, m) == 0 && FirstComplete(os, m, Some(rs[0]))
             && RecordStart(file, start, m - 1) == HeaderAt(start)
    requires PosAfter(file, start, m) == RecordEnd(start, rs)
    requires Cut(file, RecordEnd(start, rs), Records(rs[1..], RecordEnd(start, rs)))
    ensures FirstIs(file, start, rs, m)
  {
    hide Outcomes, Records, Fragments, PosAfter, HeaderAt, Cut, Drops;
  }

  lemma PackNone(file: Bytes, start: nat, rs: seq<Bytes>, m: nat)
    requires start <= |file| && (rs == [] || RecordEnd(start, rs) > |file|)
    requires AllRecords(Outcomes(file, start), m) && Drops(Outcomes(file, start), m) == 0
    requires FirstComplete(Outcomes(file, start), m, None)
    ensures FirstIs(file, start, rs, m)
  {
    hide Outcomes, Records, Fragments, PosAfter, HeaderAt, Cut, Drops;
  }

  lemma DropsAre(r: Outcome, open: bool, scratch: Bytes)
    ensures DropsHere(r, open, scratch)
            == (match r
                case Record(t, _) =>
                  if t == FULL || t == FIRST then if open && scratch != [] then 1 else 0
                  else if t == MIDDLE || t == LAST then if open then 0 else 1
                  else 1
                case Bad(reported) => (if reported then 1 else 0) + if open then 1 else 0
                case Eof => 0)
  {
  }

  lemma OneMoreIsRecord(file: Bytes, g: nat, n: nat)
    requires g <= |file| && AllRecords(Outcomes(file, g), n) && ParseAt(file, PosAfter(file, g, n)).outcome.Record?
    ensures AllRecords(Outcomes(file, g), n + 1)
  {
    hide ParseAt, Outcomes, PosAfter;
    OutcomesAfter(file, g, n);
    OutcomesStep(file, PosAfter(file, g, n));
    var os := Outcomes(file, g);
    assert os[n] == os[n..][0];
  }

  lemma NoDrops(r: Outcome, open: bool, scratch: Bytes)
    requires r.Record? && (if open then r.t == MIDDLE || r.t == LAST else r.t == FULL || r.t == FIRST)
    ensures DropsHere(r, open, scratch) == 0
  {
  }

  /** ReadRecord on a log or what a crash left of it. */
  lemma WrittenRecord(file: Bytes, start: nat, rs: seq<Bytes>) returns (m: nat)
    requires start <= |file| && Cut(file, start, Records(rs, start))
    ensures FirstIs(file, start, rs, m)
  {
    hide *;
    FollowStart(file, start, rs);
    NothingTaken(file, start);
    m := FollowRecord(file, start, rs, 0, true, [], 0);
  }

  /** All records that are wholly there come back, and nothing is reported. */
  lemma {:induction false} WrittenLog(file: Bytes, g: nat, rs: seq<Bytes>) returns (k: nat)
    requires g <= |file| && Cut(file, g, Records(rs, g))
    ensures k <= |rs| && Completed(Outcomes(file, g), |Outcomes(file, g)|) == rs[..k]
    ensures Drops(Outcomes(file, g), |Outcomes(file, g)|) == 0
    ensures g + |Records(rs[..k], g)| <= |file| && (k < |rs| ==> g + |Records(rs[..k + 1], g)| > |file|)
    decreases |rs|
  {
    hide Outcomes, Completed, Drops, Records, Fragments, PosAfter, HeaderAt, Cut, FirstComplete, RecordStart;
    var os := Outcomes(file, g);
    var m := WrittenRecord(file, g, rs);
    NothingTaken(file, g);
    NothingCollected(os, 0);
    if rs != [] && RecordEnd(g, rs) <= |file| {
      var h := RecordEnd(g, rs);
      k := WrittenLog(file, h, rs[1..]);
      OutcomesAfter(file, g, m);
      assert os[0..] == os;
      OneMoreRecord(os, 0, m, Some(rs[0]));
      Afresh(os, m, |os| - m);
      k := k + 1;
      FirstAndRest(rs, g, k);
    } else {
      k := 0;
      NoRecords(os, m);
      FirstAndRest(rs, g, 0);
    }
  }

  lemma NoRecords(os: seq<Outcome>, m: nat)
    requires FirstComplete(os, m, None)
    ensures m == |os| && Completed(os, |os|) == []
  {
    NothingCollected(os, m);
  }

  lemma FirstAndRest(rs: seq<Bytes>, g: nat, k: nat)
    requires k <= |rs|
    ensures k == 0 ==> |Records(rs[..k], g)| == 0
    ensures rs != [] && k > 0 ==>
              && g + |Records(rs[..k], g)| == RecordEnd(g, rs) + |Records(rs[1..][..k - 1], RecordEnd(g, rs))|
              && rs[..k] == [rs[0]] + rs[1..][..k - 1]
    ensures k < |rs| ==>
              g + |Records(rs[..k + 1], g)| == RecordEnd(g, rs) + |Records(rs[1..][..k], RecordEnd(g, rs))|
  {
    hide Fragments;
    if k > 0 {
      assert rs[..k][1..] == rs[1..][..k - 1];
    }
    if k < |rs| {
      assert rs[..k + 1][1..] == rs[1..][..k];
    }
  }

  /** Reads a log from the start until ReadRecord finds no more. */
  method ReadLog(file: Bytes, ghost rs: seq<Bytes>) returns (out: seq<Bytes>, reports: nat)
    ensures out == Completed(Outcomes(file, 0), |Outcomes(file, 0)|)
    ensures reports == Drops(Outcomes(file, 0), |Outcomes(file, 0)|)
    ensures Cut(file, 0, Records(rs, 0)) ==> Survivors(out, rs, |file|) && reports == 0
  {
    hide *;
    var reader := new Reader(file);
    out := [];
    ghost var os, n: nat := Outcomes(file, 0), 0;
    NothingTaken(file, 0);
    StartAfresh(os);
    while true
      invariant reader.Valid() && reader.file == file && n <= |os| && reader.Pos() <= |file|
      invariant reader.Pos() == PosAfter(file, 0, n) && Partial(os, n) == None
      invariant out == Completed(os, n) && reader.reports == Drops(os, n)
      decreases |file| - reader.Pos()
    {
      var record;
      ghost var taken;
      OutcomesAfter(file, 0, n);
      record, taken := reader.ReadRecord();
      TakenFits(os[n..], taken, record);
      OneMoreRecord(os, n, taken, record);
      PosJoins(file, 0, n, taken);
      n := n + taken;
      if record == None {
        break;
      }
      out := out + [record.value];
    }
    reports := reader.reports;
    if Cut(file, 0, Records(rs, 0)) {
      ghost var k := WrittenLog(file, 0, rs);
      TheseSurvive(rs, k, |file|);
    }
  }

  lemma StartAfresh(os: seq<Outcome>)
    ensures Completed(os, 0) == [] && Partial(os, 0) == None
  {
  }

  lemma TakenFits(os: seq<Outcome>, taken: nat, record: Option<Bytes>)
    requires FirstComplete(os, taken, record)
    ensures taken <= |os|
  {
  }

  lemma {:induction false} PosJoins(file: Bytes, g: nat, n: nat, k: nat)
    requires g <= |file|
    ensures PosAfter(file, PosAfter(file, g, n), k) == PosAfter(file, g, n + k)
  {
    hide ParseAt;
    if k > 0 {
      PosJoins(file, g, n, k - 1);
    }
  }

  lemma TheseSurvive(rs: seq<Bytes>, k: nat, size: nat)
    requires k <= |rs| && |Records(rs[..k], 0)| <= size && (k < |rs| ==> |Records(rs[..k + 1], 0)| > size)
    ensures Survivors(rs[..k], rs, size)
  {
    hide Records;
  }

  lemma OneMoreRecord(os: seq<Outcome>, n: nat, taken: nat, record: Option<Bytes>)
    requires n + taken <= |os| && Partial(os, n) == None && FirstComplete(os[n..], taken, record)
    ensures os[n..][taken..] == os[n + taken..] && Drops(os, n + taken) == Drops(os, n) + Drops(os[n..], taken)
    ensures Completed(os, n + taken) == Completed(os, n) + if record == None then [] else [record.value]
    ensures if record == None then n + taken == |os| else Partial(os, n + taken) == None
  {
    Afresh(os, n, taken);
    var rest := os[n..];
    if record == None {
      NothingCollected(rest, taken);
    } else {
      NothingCollected(rest, taken - 1);
      assert Ends(rest, taken - 1);
    }
  }

  lemma LeftOfLog(rs: seq<Bytes>, n: nat)
    ensures var file := Records(rs, 0);
            Cut(if n < |file| then file[..n] else file, 0, file)
  {
    hide Records;
  }

  /** Writing `rs`, losing everything behind byte `n`, and reading what is left. */
  method WriteCrashRead(rs: seq<Bytes>, n: nat) returns (out: seq<Bytes>, reports: nat)
    ensures reports == 0 && Survivors(out, rs, n)
    ensures n >= |Records(rs, 0)| ==> out == rs
  {
    hide Records, Fragments;
    var file := WriteLog(rs);
    file := if n < |file| then file[..n] else file;
    assert Cut(file, 0, Records(rs, 0));
    out, reports := ReadLog(file, rs);
    AllSurvive(out, rs, n, |file|);
  }

  lemma AllSurvive(out: seq<Bytes>, rs: seq<Bytes>, n: nat, size: nat)
    requires Survivors(out, rs, size)
    requires size == if n < |Records(rs, 0)| then n else |Records(rs, 0)|
    ensures Survivors(out, rs, n) && (n >= |Records(rs, 0)| ==> out == rs)
  {
    hide Records, Fragments;
    if |out| < |rs| {
      RecordsGrow(rs, |out| + 1);
    } else {
      assert out == rs;
    }
  }

  lemma {:induction false} RecordsGrow(rs: seq<Bytes>, k: nat)
    requires k <= |rs|
    ensures |Records(rs[..k], 0)| <= |Records(rs, 0)|
    decreases |rs| - k
  {
    hide Records, Fragments;
    if k == |rs| {
      assert rs[..k] == rs;
    } else {
      assert rs[..k + 1] == rs[..k] + [rs[k]];
      RecordsAppend(rs[..k], rs[k], 0);
      RecordsGrow(rs, k + 1);
    }
  }
}
