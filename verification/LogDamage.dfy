/**
Damage to a log stays local (util/leveldb/doc/log_format.txt): a reader that loses its way finds the next
record at a block boundary, so that only records with a part in a damaged block can be lost.
 */
module LogDamage {
  import opened Keys
  import opened Coding
  import opened LogFormat
  import opened LogScan
  import opened LogReader

  /** Two files of one length that differ at most from `s` up to `e`. */
  ghost predicate DiffersIn(a: Bytes, b: Bytes, s: nat, e: nat) {
    |a| == |b| && forall i :: 0 <= i < |a| && (i < s || e <= i) ==> a[i] == b[i]
  }

  // ---------------------------------------------------------------- before the damage

  lemma SameSlice(a: Bytes, b: Bytes, s: nat, e: nat, lo: nat, hi: nat)
    requires DiffersIn(a, b, s, e) && lo <= hi <= |a| && (hi <= s || e <= lo)
    ensures a[lo..hi] == b[lo..hi]
  {
  }

  /** A record that ends before the damage, or begins behind it, is read the same. */
  lemma SameRecord(a: Bytes, b: Bytes, s: nat, e: nat, g: nat)
    requires DiffersIn(a, b, s, e) && g <= |a|
    requires var p := ParseAt(a, g); HeaderAt(g) >= e || (p.outcome.Record? && p.next <= s)
    ensures ParseAt(b, g) == ParseAt(a, g)
  {
    hide HeaderAt, Crc, Unmask, DecodeFixed32, BlockEnd;
    var o := HeaderAt(g);
    if o + HEADER <= |a| {
      SameSlice(a, b, s, e, o, o + 4);
      assert a[o + 4] == b[o + 4] && a[o + 5] == b[o + 5] && a[o + 6] == b[o + 6];
      var length := DecodeLength(a[o + 4], a[o + 5]);
      if o + HEADER + length <= |a| && (o >= e || o + HEADER + length <= s) {
        SameSlice(a, b, s, e, o + 6, o + 7 + length);
        SameSlice(a, b, s, e, o + HEADER, o + HEADER + length);
      }
    }
  }

  /** As long as the undamaged log has whole records before the damage, both files are read alike. */
  lemma {:induction false} SameStart(a: Bytes, b: Bytes, s: nat, e: nat, n: nat)
    requires DiffersIn(a, b, s, e) && n <= |Outcomes(a, 0)| && PosAfter(a, 0, n) <= s
    requires AllRecords(Outcomes(a, 0), n)
    ensures PosAfter(b, 0, n) == PosAfter(a, 0, n) && n <= |Outcomes(b, 0)| && Outcomes(b, 0)[..n] == Outcomes(a, 0)[..n]
  {
    hide Outcomes, ParseAt, DiffersIn, HeaderAt;
    var xs, ys := Outcomes(a, 0), Outcomes(b, 0);
    SameSize(a, b, s, e);
    if n > 0 {
      var g := PosAfter(a, 0, n - 1);
      OutcomesAfter(a, 0, n - 1);
      OutcomesStep(a, g);
      assert xs[n - 1] == xs[n - 1..][0] == ParseAt(a, g).outcome;
      SameStart(a, b, s, e, n - 1);
      SameRecord(a, b, s, e, g);
      OutcomesAfter(b, 0, n - 1);
      OutcomesStep(b, g);
      assert ys[n - 1] == ys[n - 1..][0];
      assert ys[..n] == ys[..n - 1] + [ys[n - 1]] && xs[..n] == xs[..n - 1] + [xs[n - 1]];
    }
  }

  lemma SameSize(a: Bytes, b: Bytes, s: nat, e: nat)
    requires DiffersIn(a, b, s, e)
    ensures |a| == |b|
  {
  }

  // ---------------------------------------------------------------- behind the damage

  /** Whatever the bytes are, a reader comes to every block boundary that the file has. */
  lemma {:induction false} Resync(file: Bytes, g: nat, e: nat) returns (n: nat)
    requires g <= e <= |file| && e % BLOCK == 0
    ensures n <= |Outcomes(file, g)| && HeaderAt(PosAfter(file, g, n)) == e
    decreases e - g
  {
    hide *;
    if HeaderAt(g) >= e {
      n := 0;
      BoundaryAhead(g, e);
      NoStep(file, g);
    } else {
      InsideBlock(file, g, e);
      n := Resync(file, ParseAt(file, g).next, e);
      OneStep(file, g, n);
      n := n + 1;
    }
  }

  lemma NoStep(file: Bytes, g: nat)
    requires g <= |file|
    ensures PosAfter(file, g, 0) == g
  {
  }

  lemma OneStep(file: Bytes, g: nat, n: nat)
    requires g <= |file| && !ParseAt(file, g).outcome.Eof? && n <= |Outcomes(file, ParseAt(file, g).next)|
    ensures n + 1 <= |Outcomes(file, g)| && PosAfter(file, g, n + 1) == PosAfter(file, ParseAt(file, g).next, n)
  {
    hide ParseAt, Outcomes;
    OutcomesStep(file, g);
    PosJoins(file, g, 1, n);
    assert PosAfter(file, g, 1) == ParseAt(file, PosAfter(file, g, 0)).next;
  }

  lemma BoundaryAhead(g: nat, e: nat)
    requires g <= e <= HeaderAt(g) && e % BLOCK == 0
    ensures HeaderAt(g) == e
  {
  }

  lemma InsideBlock(file: Bytes, g: nat, e: nat)
    requires g <= HeaderAt(g) < e <= |file| && e % BLOCK == 0
    ensures var p := ParseAt(file, g);
            !p.outcome.Eof? && g < p.next <= e
  {
    hide Crc, Unmask, DecodeFixed32;
    var o := HeaderAt(g);
    assert BlockEnd(o) <= e;
  }

  /** Before a boundary or at it makes no difference. */
  lemma FromBoundary(file: Bytes, g: nat, e: nat)
    requires g <= e <= |file| && HeaderAt(g) == e
    ensures Outcomes(file, g) == Outcomes(file, e) && (Outcomes(file, g) != [] ==> PosAfter(file, g, 1) == PosAfter(file, e, 1))
  {
    hide Outcomes, ParseHeader;
    assert HeaderAt(e) == e;
    OutcomesStep(file, g);
    OutcomesStep(file, e);
    assert PosAfter(file, g, 1) == ParseAt(file, g).next && PosAfter(file, e, 1) == ParseAt(file, e).next;
  }

  lemma {:induction false} SameRest(a: Bytes, b: Bytes, s: nat, e: nat, g: nat)
    requires DiffersIn(a, b, s, e) && e <= g <= |a|
    ensures Outcomes(b, g) == Outcomes(a, g)
    decreases |a| - g
  {
    hide Outcomes, ParseAt, DiffersIn, HeaderAt;
    SameSize(a, b, s, e);
    SameRecord(a, b, s, e, g);
    OutcomesStep(a, g);
    OutcomesStep(b, g);
    var p := ParseAt(a, g);
    if !p.outcome.Eof? {
      SameRest(a, b, s, e, p.next);
    }
  }

  // ---------------------------------------------------------------- whole logs

  ghost function Size(rs: seq<Bytes>): nat {
    |Records(rs, 0)|
  }

  /** After `n` outcomes of a log a reader has its first `j` records and stands behind them. */
  ghost predicate AtBoundary(rs: seq<Bytes>, j: nat, n: nat)
    requires j <= |rs|
  {
    var file, end := Records(rs, 0), Size(rs[..j]);
    var os := Outcomes(file, 0);
    && n <= |os| && PosAfter(file, 0, n) == end <= |file| && AllRecords(os, n)
    && Partial(os, n) == None && Completed(os, n) == rs[..j] && Cut(file, end, Records(rs[j..], end))
  }

  lemma {:induction false} Boundary(rs: seq<Bytes>, j: nat) returns (n: nat)
    requires j <= |rs|
    ensures AtBoundary(rs, j, n)
  {
    hide *;
    if j == 0 {
      n := 0;
      FirstBoundary(rs);
    } else {
      n := Boundary(rs, j - 1);
      BoundaryParts(rs, j - 1, n);
      var m := WrittenRecord(Records(rs, 0), Size(rs[..j - 1]), rs[j - 1..]);
      NextBoundary(rs, j, n, m);
      n := n + m;
    }
  }

  lemma FirstBoundary(rs: seq<Bytes>)
    ensures AtBoundary(rs, 0, 0)
  {
    hide Fragments, Outcomes;
    var file := Records(rs, 0);
    assert rs[..0] == [] && rs[0..] == rs && Records([], 0) == [];
    assert file[0..] == file[..|file|];
  }

  lemma BoundaryParts(rs: seq<Bytes>, j: nat, n: nat)
    requires j <= |rs| && AtBoundary(rs, j, n)
    ensures var file, end := Records(rs, 0), Size(rs[..j]);
            var os := Outcomes(file, 0);
            && n <= |os| && PosAfter(file, 0, n) == end <= |file| && AllRecords(os, n)
            && Partial(os, n) == None && Completed(os, n) == rs[..j] && Cut(file, end, Records(rs[j..], end))
  {
    hide Outcomes, Completed, Partial, PosAfter, Records, Cut, AllRecords, Size;
  }

  lemma NextBoundary(rs: seq<Bytes>, j: nat, n: nat, m: nat)
    requires 0 < j <= |rs| && AtBoundary(rs, j - 1, n) && Size(rs[..j - 1]) <= |Records(rs, 0)|
    requires FirstIs(Records(rs, 0), Size(rs[..j - 1]), rs[j - 1..], m)
    ensures AtBoundary(rs, j, n + m)
  {
    hide *;
    var file, start, rest := Records(rs, 0), Size(rs[..j - 1]), rs[j - 1..];
    var os := Outcomes(file, 0);
    BoundaryParts(rs, j - 1, n);
    assert rest[0] == rs[j - 1] && rest[1..] == rs[j..];
    NextSize(rs, j);
    FirstParts(file, start, rest, m);
    OutcomesAfter(file, 0, n);
    OneMoreRecord(os, n, m, Some(rest[0]));
    PosJoins(file, 0, n, m);
    MoreRecords(os, n, m);
    assert rs[..j - 1] + [rs[j - 1]] == rs[..j];
    PackBoundary(rs, j, n + m);
  }

  lemma NextSize(rs: seq<Bytes>, j: nat)
    requires 0 < j <= |rs|
    ensures RecordEnd(Size(rs[..j - 1]), rs[j - 1..]) == Size(rs[..j]) <= |Records(rs, 0)|
  {
    hide Records, Fragments;
    RecordsAppend(rs[..j - 1], rs[j - 1], 0);
    assert rs[..j - 1] + [rs[j - 1]] == rs[..j] && rs[j - 1..][0] == rs[j - 1];
    RecordsGrow(rs, j);
  }

  lemma FirstParts(file: Bytes, start: nat, rest: seq<Bytes>, m: nat)
    requires start <= |file| && rest != [] && RecordEnd(start, rest) <= |file| && FirstIs(file, start, rest, m)
    ensures AllRecords(Outcomes(file, start), m) && FirstComplete(Outcomes(file, start), m, Some(rest[0]))
    ensures m <= |Outcomes(file, start)| && PosAfter(file, start, m) == RecordEnd(start, rest)
    ensures Cut(file, RecordEnd(start, rest), Records(rest[1..], RecordEnd(start, rest)))
  {
    hide Outcomes, PosAfter, Records, Cut, RecordEnd, Drops, FirstComplete, RecordStart, HeaderAt;
  }

  lemma MoreRecords(os: seq<Outcome>, n: nat, m: nat)
    requires AllRecords(os, n) && AllRecords(os[n..], m)
    ensures AllRecords(os, n + m)
  {
    assert forall i :: n <= i < n + m ==> os[i] == os[n..][i - n];
  }

  lemma PackBoundary(rs: seq<Bytes>, j: nat, n: nat)
    requires j <= |rs|
    requires var file, end := Records(rs, 0), Size(rs[..j]);
             var os := Outcomes(file, 0);
             && n <= |os| && PosAfter(file, 0, n) == end <= |file| && AllRecords(os, n)
             && Partial(os, n) == None && Completed(os, n) == rs[..j] && Cut(file, end, Records(rs[j..], end))
    ensures AtBoundary(rs, j, n)
  {
    hide Outcomes, Completed, Partial, PosAfter, Records, Cut, AllRecords, Size;
  }

  /** The outcomes of a log from a boundary on make the records from there on. */
  lemma RecordsFrom(rs: seq<Bytes>, k: nat, n: nat)
    requires k <= |rs| && AtBoundary(rs, k, n)
    ensures var rest := Outcomes(Records(rs, 0), 0)[n..];
            Completed(rest, |rest|) == rs[k..]
  {
    hide *;
    var file := Records(rs, 0);
    var os := Outcomes(file, 0);
    BoundaryParts(rs, k, n);
    var all := Boundary(rs, |rs|);
    BoundaryParts(rs, |rs|, all);
    assert rs[..|rs|] == rs;
    WholeSize(rs);
    OutcomesAfter(file, 0, all);
    AtTheEnd(file);
    Afresh(os, n, |os| - n);
    assert rs[..k] + rs[k..] == rs;
    assert rs[k..] == (rs[..k] + Completed(os[n..], |os| - n))[k..];
  }

  lemma WholeSize(rs: seq<Bytes>)
    ensures Size(rs) == |Records(rs, 0)|
  {
  }

  lemma AtTheEnd(file: Bytes)
    ensures Outcomes(file, |file|) == []
  {
    OutcomesStep(file, |file|);
  }

  /** The first outcome of a record that is wholly there begins it. */
  lemma FirstFragment(file: Bytes, start: nat, rs: seq<Bytes>)
    requires start <= |file| && Cut(file, start, Records(rs, start)) && rs != [] && RecordEnd(start, rs) <= |file|
    ensures var os := Outcomes(file, start);
            os != [] && (IsKind(os[0], FULL) || IsKind(os[0], FIRST))
  {
    hide Outcomes, ParseAt, Records, Fragments, Cut, Following, HeaderAt, RecordEnd;
    FollowStart(file, start, rs);
    FollowStep(file, start, rs, start, true, [], 0);
    OutcomesStep(file, start);
  }

  // ---------------------------------------------------------------- outcomes of the damaged file

  lemma {:induction false} SameFront(xs: seq<Outcome>, ys: seq<Outcome>, n: nat)
    requires n <= |xs| && n <= |ys| && xs[..n] == ys[..n]
    ensures Completed(xs, n) == Completed(ys, n) && Partial(xs, n) == Partial(ys, n)
  {
    if n > 0 {
      assert xs[..n - 1] == xs[..n][..n - 1] && ys[..n - 1] == ys[..n][..n - 1];
      assert xs[n - 1] == xs[..n][n - 1] && ys[n - 1] == ys[..n][n - 1];
      SameFront(xs, ys, n - 1);
    }
  }

  /** An outcome that begins a record is read the same whatever was collected before. */
  lemma {:induction false} AfreshAtFirst(os: seq<Outcome>, n: nat, j: nat)
    requires n + j <= |os| && n < |os| && (IsKind(os[n], FULL) || IsKind(os[n], FIRST))
    ensures j > 0 ==> Partial(os[n..], j) == Partial(os, n + j)
    ensures Completed(os, n + j) == Completed(os, n) + Completed(os[n..], j)
  {
    if j > 0 {
      AfreshAtFirst(os, n, j - 1);
      assert os[n..][j - 1] == os[n + j - 1];
      assert Ends(os[n..], j - 1) <==> Ends(os, n + j - 1);
    }
  }

  lemma {:induction false} PosGrows(file: Bytes, g: nat, n: nat, m: nat)
    requires g <= |file| && n <= m
    ensures PosAfter(file, g, n) <= PosAfter(file, g, m)
  {
    hide ParseAt;
    if n < m {
      PosGrows(file, g, n, m - 1);
    }
  }

  /** A reader that stands before the boundary `e` has not seen more than one that stands at it or behind. */
  lemma NotPast(file: Bytes, n: nat, m: nat, e: nat)
    requires n <= |Outcomes(file, 0)| && m <= |Outcomes(file, 0)|
    requires HeaderAt(PosAfter(file, 0, n)) == e <= HeaderAt(PosAfter(file, 0, m))
    ensures n <= m
  {
    hide ParseAt, Outcomes, HeaderAt;
    if m < n {
      var g := PosAfter(file, 0, m);
      PosGrows(file, 0, m + 1, n);
      OutcomesAfter(file, 0, m);
      OutcomesStep(file, g);
      NextIsBehind(file, g);
    }
  }

  lemma NextIsBehind(file: Bytes, g: nat)
    requires g <= |file| && !ParseAt(file, g).outcome.Eof?
    ensures ParseAt(file, g).next > HeaderAt(g)
  {
    hide HeaderAt, ParseHeader;
  }

  /** Behind a damaged part that ends at the boundary `e`, a reader sees what one of the undamaged log sees. */
  lemma SameTail(rs: seq<Bytes>, b: Bytes, s: nat, e: nat, from: nat, k: nat, nk: nat) returns (n: nat)
    requires DiffersIn(Records(rs, 0), b, s, e) && e % BLOCK == 0 && e <= |b|
    requires k <= |rs| && AtBoundary(rs, k, nk) && HeaderAt(Size(rs[..k])) >= e
    requires from <= |Outcomes(b, 0)| && PosAfter(b, 0, from) <= e
    ensures from <= n <= |Outcomes(b, 0)| && nk <= |Outcomes(Records(rs, 0), 0)|
    ensures Outcomes(b, 0)[n..] == Outcomes(Records(rs, 0), 0)[nk..]
  {
    hide *;
    var a := Records(rs, 0);
    var xs, ys := Outcomes(a, 0), Outcomes(b, 0);
    SameSize(a, b, s, e);
    BoundaryParts(rs, k, nk);
    var na := Resync(a, 0, e);
    NotPast(a, na, nk, e);
    OutcomesAfter(a, 0, na);
    FromBoundary(a, PosAfter(a, 0, na), e);
    OutcomesAfter(b, 0, from);
    var r := Resync(b, PosAfter(b, 0, from), e);
    PosJoins(b, 0, from, r);
    OutcomesAfter(b, 0, from + r);
    FromBoundary(b, PosAfter(b, 0, from + r), e);
    SameRest(a, b, s, e, e);
    assert ys[from + r..] == xs[na..];
    n := from + r + (nk - na);
    assert ys[n..] == ys[from + r..][nk - na..] && xs[nk..] == xs[na..][nk - na..];
  }

  /**
  Whatever has happened to the bytes of a log from `s` up to the block boundary `e`: a reader gets all records
  that end before `s` and all that begin behind `e`, in order, and at most others in between.
   */
  lemma DamageIsLocal(rs: seq<Bytes>, b: Bytes, s: nat, e: nat, j: nat, k: nat) returns (between: seq<Bytes>)
    requires DiffersIn(Records(rs, 0), b, s, e) && s <= e && e % BLOCK == 0
    requires j <= k <= |rs| && Size(rs[..j]) <= s
    requires k == |rs| || (e <= |b| && HeaderAt(Size(rs[..k])) >= e)
    ensures Completed(Outcomes(b, 0), |Outcomes(b, 0)|) == rs[..j] + between + rs[k..]
  {
    hide *;
    var a := Records(rs, 0);
    var xs, ys := Outcomes(a, 0), Outcomes(b, 0);
    var nj := Boundary(rs, j);
    BoundaryParts(rs, j, nj);
    SameStart(a, b, s, e, nj);
    SameFront(xs, ys, nj);
    var n := |ys|;
    if k < |rs| {
      var nk := Boundary(rs, k);
      BoundaryParts(rs, k, nk);
      n := SameTail(rs, b, s, e, nj, k, nk);
      OutcomesAfter(a, 0, nk);
      NextSize(rs, k + 1);
      FirstFragment(a, Size(rs[..k]), rs[k..]);
      assert ys[n] == ys[n..][0];
      AfreshAtFirst(ys, n, |ys| - n);
      RecordsFrom(rs, k, nk);
    }
    CompletedGrows(ys, nj, n);
    between := Completed(ys, n)[j..];
  }
}
