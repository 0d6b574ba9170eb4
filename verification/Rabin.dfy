/**
Content-defined chunk boundaries with a rolling fingerprint
(util/fs-hasher/fs-hasher.c: pwrmod, var_chnk_compute_table, var_chnk_rabin_match).
 */
module Rabin {
  import opened Common
  import opened Coding

  const PRIME: nat := 1048583
  const M: nat := 0x4000_0000

  /** Parameters; a fingerprint matches if it agrees with `pattern` modulo two to the `bits`. */
  datatype Params = Params(win: nat, bits: nat, pattern: int, min: nat, max: nat) {
    /** Besides what var_chnk_init checks, the window is not empty. */
    ghost predicate Valid() {
      1 <= win && min <= max
    }

    /** Where the first window ends: at the minimum, or later if it is wider than that. */
    function First(): (e: nat)
      ensures e >= min && e >= win
    {
      if min > win then min else win
    }
  }

  // ---------------------------------------------------------------- the fingerprint

  ghost function Pow(k: nat): nat {
    if k == 0 then 1 else PRIME * Pow(k - 1)
  }

  /** The bytes as coefficients of a polynomial in PRIME, highest power first. */
  ghost function Poly(b: Bytes): nat {
    if b == [] then 0 else PRIME * Poly(b[..|b| - 1]) + b[|b| - 1]
  }

  ghost function Fingerprint(b: Bytes): nat {
    Poly(b) % M
  }

  function Wrap(x: int): (r: nat)
    ensures r < TWO_64 && r % M == x % M
  {
    x % TWO_64
  }

  /** Removing the first coefficient. */
  lemma {:induction false} PolyHead(c: Byte, b: Bytes)
    ensures Poly([c] + b) == c * Pow(|b|) + Poly(b)
    decreases |b|
  {
    if b == [] {
      assert ([c] + b)[..0] == [];
    } else {
      var front, last := b[..|b| - 1], b[|b| - 1];
      assert ([c] + b)[..|b|] == [c] + front;
      PolyHead(c, front);
      Regroup(c, Pow(|front|), Poly(front), last);
    }
  }

  lemma Regroup(c: nat, p: nat, q: nat, last: nat)
    ensures PRIME * (c * p + q) + last == c * (PRIME * p) + (PRIME * q + last)
  {
  }

  lemma ProductModulo(t: nat, p: nat)
    ensures (t * (p % M)) % M == (t * p) % M
  {
    var q := p / M;
    assert t * p == t * (p % M) + M * (t * q) by {
      assert p == p % M + M * q;
      Distribute(t, p % M, q);
    }
    MultipleModulo(t * (p % M), t * q);
  }

  lemma Distribute(t: nat, r: nat, q: nat)
    ensures t * (r + M * q) == t * r + M * (t * q)
  {
  }

  lemma MultipleModulo(x: int, q: int)
    ensures (x + M * q) % M == x % M
  {
  }

  lemma SameTimesPrime(a: int, b: int)
    requires a % M == b % M
    ensures (PRIME * a) % M == (PRIME * b) % M
  {
    var q := a / M - b / M;
    assert PRIME * a == PRIME * b + M * (PRIME * q);
    MultipleModulo(PRIME * b, PRIME * q);
  }

  /** pwrmod(PRIME, p, M). */
  method PowerModulo(p: nat) returns (result: nat)
    ensures result == Pow(p) % M
  {
    result := 1;
    for i := 0 to p
      invariant result == Pow(i) % M
    {
      SameTimesPrime(result, Pow(i));
      result := result % M * (PRIME % M) % M;
    }
  }

  /** What polynomial_tables[t] has to be. */
  ghost function TableEntry(t: Byte, win: nat): nat
    requires win >= 1
  {
    (t * Pow(win - 1)) % M
  }

  method ComputeTable(win: nat) returns (table: seq<nat>)
    requires win >= 1
    ensures |table| == 256 && forall t :: 0 <= t < 256 ==> table[t] == TableEntry(t, win)
  {
    var result := PowerModulo(win - 1);
    table := [];
    for t := 0 to 256
      invariant |table| == t && forall k :: 0 <= k < t ==> table[k] == TableEntry(k, win)
    {
      ProductModulo(t, Pow(win - 1));
      table := table + [t * result % M];
    }
  }

  /** Sliding the window by one byte, in wrapping 64-bit arithmetic. */
  function Slide(fprt: nat, entry: nat, c: Byte): (r: nat) {
    Wrap(Wrap(Wrap(fprt - entry) * PRIME) + c) % M
  }

  /** The wrapped arithmetic still gives the fingerprint of the new window. */
  lemma SlideIsFingerprint(w: Bytes, c: Byte)
    requires w != []
    ensures Slide(Fingerprint(w), TableEntry(w[0], |w|), c) == Fingerprint(w[1..] + [c])
  {
    hide Poly, Pow;
    var tail := w[1..];
    assert w == [w[0]] + tail;
    PolyHead(w[0], tail);
    PolyAppend(tail, c);
    SlideModulo(Poly(w), w[0] * Pow(|tail|), Poly(tail), c);
  }

  lemma PolyAppend(b: Bytes, c: Byte)
    ensures Poly(b + [c]) == PRIME * Poly(b) + c
  {
    assert (b + [c])[..|b|] == b;
  }

  lemma Difference(whole: nat, head: nat)
    requires head <= whole
    ensures (whole % M - head % M) % M == (whole - head) % M
  {
    MultipleModulo(whole % M - head % M, whole / M - head / M);
  }

  lemma SameSum(a: int, b: int, c: int)
    requires a % M == b % M
    ensures (a + c) % M == (b + c) % M
  {
    MultipleModulo(b + c, a / M - b / M);
  }

  lemma SlideModulo(whole: nat, head: nat, tail: nat, c: Byte)
    requires whole == head + tail
    ensures Slide(whole % M, head % M, c) == (PRIME * tail + c) % M
  {
    hide Wrap;
    var a := Wrap(whole % M - head % M);
    Difference(whole, head);
    SameTimesPrime(a, tail);
    SameSum(Wrap(a * PRIME), PRIME * tail, c);
  }

  lemma SlideInBuffer(buf: Bytes, i: nat, win: nat)
    requires 1 <= i && 1 <= win && i + win <= |buf|
    ensures Slide(Fingerprint(buf[i - 1..i - 1 + win]), TableEntry(buf[i - 1], win), buf[i + win - 1])
            == Fingerprint(buf[i..i + win])
  {
    hide Slide, Fingerprint, TableEntry;
    var w := buf[i - 1..i - 1 + win];
    assert buf[i..i + win] == w[1..] + [buf[i + win - 1]];
    SlideIsFingerprint(w, buf[i + win - 1]);
  }

  // ---------------------------------------------------------------- the matcher

  /**
  A boundary, a request for more data, the end of the function that must not be reached, or a first
  window that reaches behind the data.
   */
  datatype Cut = At(size: nat) | NeedMore | Overrun | Outside

  /** Comparing under a mask of `bits` ones. */
  predicate Hits(fprt: nat, p: Params) {
    fprt % Pow2(p.bits) == p.pattern % Pow2(p.bits)
  }

  /** The window that ends at `e` has a matching fingerprint. */
  ghost predicate Matches(buf: Bytes, e: nat, p: Params)
    requires p.win <= e <= |buf|
  {
    Hits(Fingerprint(buf[e - p.win..e]), p)
  }

  /** A window matches exactly if the low bits of its fingerprint are those of the pattern, bit by bit. */
  lemma MatchesIff(buf: Bytes, e: nat, p: Params)
    requires p.win <= e <= |buf|
    ensures Matches(buf, e, p) <==> SameBits(Fingerprint(buf[e - p.win..e]), p.pattern, p.bits)
  {
    SameLowBits(Fingerprint(buf[e - p.win..e]), p.pattern, p.bits);
  }

  /** The first matching boundary of at least `e` bytes; the maximum, if there is none below it. */
  ghost function Boundary(buf: Bytes, e: nat, p: Params): (r: Cut)
    requires p.Valid() && p.First() <= e <= p.max
    ensures r.At? ==> e <= r.size <= p.max && r.size <= |buf|
    ensures r.At? && r.size < p.max ==> Matches(buf, r.size, p)
    ensures r.At? ==> forall k :: e <= k < r.size ==> !Matches(buf, k, p)
    ensures !r.At? ==> r.NeedMore? && |buf| < p.max
    ensures !r.At? ==> forall k :: e <= k <= |buf| ==> !Matches(buf, k, p)
    decreases p.max - e
  {
    if e > |buf| then NeedMore
    else if e == p.max || Matches(buf, e, p) then At(e)
    else Boundary(buf, e + 1, p)
  }

  /** Adding bytes to the buffer does not move a boundary that was found. */
  lemma {:induction false} BoundaryIsStable(buf: Bytes, more: Bytes, e: nat, p: Params)
    requires p.Valid() && p.First() <= e <= p.max && Boundary(buf, e, p).At?
    ensures Boundary(buf + more, e, p) == Boundary(buf, e, p)
    decreases p.max - e
  {
    assert (buf + more)[e - p.win..e] == buf[e - p.win..e];
    if e != p.max && !Matches(buf, e, p) {
      BoundaryIsStable(buf, more, e + 1, p);
    }
  }

  /**
  What a buffer is cut into.  The first boundary is found if the first window ends below the
  maximum; if it does not, there is nothing left to slide it over.
   */
  ghost function MatchOf(buf: Bytes, p: Params): (r: Cut)
    requires p.Valid()
    ensures p.First() < p.max && p.win <= p.min ==> r == Boundary(buf, p.First(), p)
    ensures r == Outside <==> p.min <= |buf| < p.win
    ensures r == Overrun <==> p.max <= p.First() < |buf| && !Matches(buf, p.First(), p)
  {
    if |buf| < p.min then NeedMore
    else if |buf| < p.win then Outside
    else if p.First() < p.max then Boundary(buf, p.First(), p)
    else if Matches(buf, p.First(), p) then At(p.First())
    else if |buf| == p.First() then NeedMore
    else Overrun
  }

  /** More bytes do not change an answer other than a request for more, if the window fits the minimum. */
  lemma MatchIsStable(buf: Bytes, more: Bytes, p: Params)
    requires p.Valid() && p.win <= p.min && MatchOf(buf, p) != NeedMore
    ensures MatchOf(buf + more, p) == MatchOf(buf, p)
  {
    var e := p.First();
    assert (buf + more)[e - p.win..e] == buf[e - p.win..e];
    if e < p.max {
      BoundaryIsStable(buf, more, e, p);
    }
  }

  const NO_SLACK := Params(1, 1, 1, 1, 1)

  /** Chunks of exactly one byte, a file of two zeros, and a pattern that zero does not match. */
  lemma EqualSizesOverrun()
    ensures NO_SLACK.Valid() && MatchOf([0, 0], NO_SLACK) == Overrun
  {
    var buf: Bytes := [0, 0];
    assert buf[0..1] == [0] && [0][..0] == [];
    assert Poly([0]) == 0;
    assert Pow2(1) == 2;
    assert !Matches(buf, 1, NO_SLACK);
  }

  const ONE_BIT := Params(1, 1, 1, 1, 3)

  /** Only the masked bits count: the first odd byte ends the chunk. */
  lemma MaskDecides()
    ensures ONE_BIT.Valid() && MatchOf([2, 3, 4], ONE_BIT) == At(2)
  {
    var buf: Bytes := [2, 3, 4];
    assert buf[0..1] == [2] && buf[1..2] == [3] && [2][..0] == [] && [3][..0] == [];
    assert Poly([2]) == 2 && Poly([3]) == 3;
    assert Pow2(1) == 2;
    assert !Matches(buf, 1, ONE_BIT) && Matches(buf, 2, ONE_BIT);
  }

  /** The fingerprint of the first window. */
  method FirstWindow(buf: Bytes, start: nat, win: nat) returns (fprt: nat)
    requires start + win <= |buf|
    ensures fprt == Fingerprint(buf[start..start + win])
  {
    fprt := 0;
    for j := 0 to win
      invariant fprt == Fingerprint(buf[start..start + j])
    {
      var b := buf[start..start + j];
      assert buf[start..start + j + 1] == b + [buf[start + j]];
      PolyAppend(b, buf[start + j]);
      SameTimesPrime(fprt, Poly(b));
      SameSum(PRIME * fprt, PRIME * Poly(b), buf[start + j]);
      fprt := (PRIME * fprt + buf[start + j]) % M;
    }
  }

  /** var_chnk_rabin_match. */
  method RabinMatch(buf: Bytes, p: Params, table: seq<nat>) returns (r: Cut)
    requires p.Valid() && |table| == 256 && forall t :: 0 <= t < 256 ==> table[t] == TableEntry(t, p.win)
    ensures r == MatchOf(buf, p)
  {
    hide *;
    MatchCases(buf, p);
    if |buf| < p.min {
      return NeedMore;
    }
    var start := if p.min > p.win then p.min - p.win else 0;
    if start + p.win > |buf| {
      return Outside;
    }
    var fprt := FirstWindow(buf, start, p.win);
    MatchesIs(buf, start + p.win, p);
    if p.First() < p.max {
      BoundaryCases(buf, p.First(), p);
    }
    if Hits(fprt, p) {
      return At(start + p.win);
    }
    var i := start + 1;
    while i + p.win <= |buf| && i + p.win < p.max
      invariant start < i && i + p.win <= |buf| + 1
      invariant i + p.win <= p.max || (i == start + 1 && p.First() >= p.max)
      invariant fprt == Fingerprint(buf[i - 1..i - 1 + p.win])
      invariant p.First() < p.max ==> Boundary(buf, p.First(), p) == Boundary(buf, i + p.win, p)
    {
      SlideInBuffer(buf, i, p.win);
      fprt := Slide(fprt, table[buf[i - 1]], buf[i + p.win - 1]);
      MatchesIs(buf, i + p.win, p);
      BoundaryCases(buf, i + p.win, p);
      if Hits(fprt, p) {
        return At(i + p.win);
      }
      i := i + 1;
    }
    if p.First() < p.max {
      BoundaryCases(buf, i + p.win, p);
    }
    if i + p.win == |buf| + 1 {
      return NeedMore;
    }
    if i + p.win == p.max {
      return At(p.max);
    }
    r := Overrun;
  }

  lemma MatchCases(buf: Bytes, p: Params)
    requires p.Valid()
    ensures 1 <= p.win && p.min <= p.max && p.First() == if p.min > p.win then p.min else p.win
    ensures |buf| < p.min ==> MatchOf(buf, p) == NeedMore
    ensures p.min <= |buf| < p.win ==> MatchOf(buf, p) == Outside
    ensures p.First() <= |buf| ==>
              MatchOf(buf, p) == if p.First() < p.max then Boundary(buf, p.First(), p)
                                 else if Matches(buf, p.First(), p) then At(p.First())
                                 else if |buf| == p.First() then NeedMore
                                 else Overrun
  {
  }

  lemma MatchesIs(buf: Bytes, e: nat, p: Params)
    requires p.win <= e <= |buf|
    ensures Matches(buf, e, p) <==> Hits(Fingerprint(buf[e - p.win..e]), p)
  {
  }

  lemma BoundaryCases(buf: Bytes, e: nat, p: Params)
    requires p.Valid() && p.First() <= e <= p.max
    ensures Boundary(buf, e, p) == if e > |buf| then NeedMore
                                   else if e == p.max || Matches(buf, e, p) then At(e)
                                   else Boundary(buf, e + 1, p)
  {
  }
}
