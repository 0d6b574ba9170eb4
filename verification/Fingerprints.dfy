/**
Fingerprints of the deduplication prototype: how they are compared, and how bytes are written as
text and read back (prototype/lrucache.cc, prototype/container_manager.cc, prototype/bloom.c).
 */
module Fingerprints {

  type Octet = bv8

  const FP_SIZE: nat := 6

  /** Any six bytes; the prototype compares and writes them as C strings. */
  type Fp = f: seq<Octet> | |f| == FP_SIZE witness [0, 0, 0, 0, 0, 0]

  // ---------------------------------------------------------------- strncmp

  /** strncmp(a, b, n) == 0, from position `i` on: it stops at a zero byte. */
  predicate SameString(a: seq<Octet>, b: seq<Octet>, i: nat)
    requires |a| == |b| && i <= |a|
    decreases |a| - i
  {
    i == |a| || (a[i] == b[i] && (a[i] == 0 || SameString(a, b, i + 1)))
  }

  lemma {:induction false} SameStringIsEqual(a: seq<Octet>, b: seq<Octet>, i: nat)
    requires |a| == |b| && i <= |a| && a[..i] == b[..i]
    requires forall k :: 0 <= k < |a| - 1 ==> a[k] != 0
    ensures SameString(a, b, i) <==> a == b
    decreases |a| - i
  {
    if i == |a| {
      assert a == a[..i] && b == b[..i];
    } else if a[i] == b[i] {
      assert a[..i + 1] == a[..i] + [a[i]] && b[..i + 1] == b[..i] + [b[i]];
      if i < |a| - 1 {
        SameStringIsEqual(a, b, i + 1);
      } else {
        assert a == a[..i + 1] && b == b[..i + 1];
      }
    }
  }

  /** strncmp tells a key from every other exactly if none of its bytes but the last is zero. */
  lemma StrncmpIsExact(a: seq<Octet>)
    requires |a| == FP_SIZE
    ensures (forall b: seq<Octet> :: |b| == FP_SIZE && SameString(a, b, 0) ==> a == b)
            <==> (forall k :: 0 <= k < FP_SIZE - 1 ==> a[k] != 0)
  {
    if forall k :: 0 <= k < FP_SIZE - 1 ==> a[k] != 0 {
      forall b: seq<Octet> | |b| == FP_SIZE && SameString(a, b, 0)
        ensures a == b
      {
        SameStringIsEqual(a, b, 0);
      }
    } else {
      var k :| 0 <= k < FP_SIZE - 1 && a[k] == 0;
      var b := a[k + 1 := a[k + 1] + 1];
      SameUpToZero(a, b, k, 0);
      assert a[k + 1] != b[k + 1];
    }
  }

  lemma {:induction false} SameUpToZero(a: seq<Octet>, b: seq<Octet>, k: nat, i: nat)
    requires |a| == |b| && i <= k < |a| && a[k] == 0 && a[..k + 1] == b[..k + 1]
    ensures SameString(a, b, i)
    decreases k - i
  {
    assert a[..k + 1][i] == b[..k + 1][i];
    if i < k {
      SameUpToZero(a, b, k, i + 1);
    }
  }

  lemma {:induction false} SameStringSymmetric(a: seq<Octet>, b: seq<Octet>, i: nat)
    requires |a| == |b| && i <= |a|
    ensures SameString(a, b, i) <==> SameString(b, a, i)
    decreases |a| - i
  {
    if i < |a| {
      SameStringSymmetric(a, b, i + 1);
    }
  }

  lemma {:induction false} SameStringTransitive(a: seq<Octet>, b: seq<Octet>, c: seq<Octet>, i: nat)
    requires |a| == |b| == |c| && i <= |a| && SameString(a, b, i) && SameString(b, c, i)
    ensures SameString(a, c, i)
    decreases |a| - i
  {
    if i < |a| && a[i] != 0 {
      SameStringTransitive(a, b, c, i + 1);
    }
  }

  lemma {:induction false} SameStringReflexive(a: seq<Octet>, i: nat)
    requires i <= |a|
    ensures SameString(a, a, i)
    decreases |a| - i
  {
    if i < |a| {
      SameStringReflexive(a, i + 1);
    }
  }

  // ---------------------------------------------------------------- fingerprints in container files

  /** Byte `k` lies behind the end of the string. */
  predicate BehindEnd(key: Fp, k: nat)
    requires k <= FP_SIZE
  {
    exists j :: 0 <= j < k && key[j] == 0
  }

  /**
  What a container file says about a key.  It is copied as a C string and then read to its full
  length, so that the bytes behind its end are whatever memory holds there: `junk`.
   */
  function AsWritten(key: Fp, junk: Fp): (r: Fp) {
    seq(FP_SIZE, k requires 0 <= k < FP_SIZE => if BehindEnd(key, k) then junk[k] else key[k])
  }

  lemma {:induction false} SameUpToEnd(a: Fp, b: Fp, i: nat)
    requires i <= FP_SIZE && !BehindEnd(a, i)
    ensures SameString(a, b, i) <==> forall k :: i <= k < FP_SIZE && !BehindEnd(a, k) ==> a[k] == b[k]
    decreases FP_SIZE - i
  {
    if i < FP_SIZE {
      if a[i] == 0 {
        assert forall k :: i < k < FP_SIZE ==> BehindEnd(a, k);
      } else {
        assert !BehindEnd(a, i + 1);
        SameUpToEnd(a, b, i + 1);
      }
    }
  }

  /** A key and what is written of it are one string, and any key of the same string can be written for it. */
  lemma WrittenIsSameString(key: Fp, junk: Fp)
    ensures SameString(key, AsWritten(key, junk), 0)
    ensures SameString(key, junk, 0) ==> AsWritten(key, junk) == junk
  {
    hide BehindEnd;
    NothingBehind(key);
    SameUpToEnd(key, AsWritten(key, junk), 0);
    SameUpToEnd(key, junk, 0);
  }

  lemma NothingBehind(key: Fp)
    ensures !BehindEnd(key, 0)
  {
  }

  /** A container file gives a key back, whatever memory holds, exactly if no byte but its last is zero. */
  lemma WrittenIsExact(key: Fp)
    ensures (forall junk: Fp :: AsWritten(key, junk) == key) <==> (forall k :: 0 <= k < FP_SIZE - 1 ==> key[k] != 0)
  {
    if k :| 0 <= k < FP_SIZE - 1 && key[k] == 0 {
      var junk: Fp := key[k + 1 := key[k + 1] + 1];
      assert BehindEnd(key, k + 1);
      assert AsWritten(key, junk)[k + 1] == junk[k + 1];
    } else {
      forall junk: Fp
        ensures AsWritten(key, junk) == key
      {
        assert forall k :: 0 <= k < FP_SIZE ==> !BehindEnd(key, k);
      }
    }
  }

  // ---------------------------------------------------------------- bits as text

  function Mask(j: nat): (m: Octet)
    requires j < 8
  {
    match j
    case 0 => 0x01
    case 1 => 0x02
    case 2 => 0x04
    case 3 => 0x08
    case 4 => 0x10
    case 5 => 0x20
    case 6 => 0x40
    case 7 => 0x80
  }

  predicate OctetBit(c: Octet, j: nat)
    requires j < 8
  {
    c & Mask(j) != 0
  }

  /** A byte as eight characters, highest bit first. */
  function PrintOctet(c: Octet): (s: string)
    ensures |s| == 8
  {
    seq(8, j requires 0 <= j < 8 => if OctetBit(c, 7 - j) then '1' else '0')
  }

  /** Reads back eight characters: a power of two for every '1'. */
  method ReadOctet(s: string, ghost b: Octet) returns (c: Octet)
    requires |s| == 8
    ensures s == PrintOctet(b) ==> c == b
  {
    hide HighBits, Mask, OctetBit;
    Ends(b);
    c := 0;
    for j := 0 to 8
      invariant s == PrintOctet(b) ==> c == HighBits(b, j)
    {
      OneMoreBit(b, j);
      if s[j] == '1' {
        c := c + Mask(7 - j);
      }
    }
  }

  /** The byte with only its `j` highest bits kept. */
  function HighBits(b: Octet, j: nat): Octet
    requires j <= 8
  {
    match j
    case 0 => 0
    case 1 => b & 0x80
    case 2 => b & 0xc0
    case 3 => b & 0xe0
    case 4 => b & 0xf0
    case 5 => b & 0xf8
    case 6 => b & 0xfc
    case 7 => b & 0xfe
    case 8 => b
  }

  lemma OneMoreBit(b: Octet, j: nat)
    requires j < 8
    ensures HighBits(b, j + 1) == HighBits(b, j) + if OctetBit(b, 7 - j) then Mask(7 - j) else 0
  {
    hide *;
    if j < 4 {
      UpperHalf(b, j);
    } else {
      LowerHalf(b, j);
    }
  }

  lemma UpperHalf(b: Octet, j: nat)
    requires j < 4
    ensures HighBits(b, j + 1) == HighBits(b, j) + if OctetBit(b, 7 - j) then Mask(7 - j) else 0
  {
  }

  lemma LowerHalf(b: Octet, j: nat)
    requires 4 <= j < 8
    ensures HighBits(b, j + 1) == HighBits(b, j) + if OctetBit(b, 7 - j) then Mask(7 - j) else 0
  {
  }

  lemma Ends(b: Octet)
    ensures HighBits(b, 0) == 0 && HighBits(b, 8) == b
  {
  }

  function PrintOctets(b: seq<Octet>): (s: string)
    ensures |s| == 8 * |b|
  {
    if b == [] then "" else PrintOctets(b[..|b| - 1]) + PrintOctet(b[|b| - 1])
  }

  lemma {:induction false} PrintedAt(b: seq<Octet>, i: nat)
    requires i < |b|
    ensures PrintOctets(b)[8 * i..8 * i + 8] == PrintOctet(b[i])
    decreases |b|
  {
    hide PrintOctet;
    var front := b[..|b| - 1];
    var s, t := PrintOctets(front), PrintOctet(b[|b| - 1]);
    if i < |front| {
      PrintedAt(front, i);
      assert (s + t)[8 * i..8 * i + 8] == s[8 * i..8 * i + 8];
    } else {
      assert (s + t)[8 * i..8 * i + 8] == t;
    }
  }

  /** Reading undoes printing, for any number of bytes. */
  method ReadOctets(s: string, n: nat, ghost b: seq<Octet>) returns (r: seq<Octet>)
    requires |s| >= 8 * n
    ensures |r| == n
    ensures n == |b| && s == PrintOctets(b) ==> r == b
  {
    hide PrintOctet, PrintOctets;
    r := [];
    for i := 0 to n
      invariant |r| == i
      invariant n == |b| && s == PrintOctets(b) ==> r == b[..i]
    {
      ghost var expected := if i < |b| then b[i] else 0;
      if i < |b| {
        PrintedAt(b, i);
      }
      var c := ReadOctet(s[8 * i..8 * i + 8], expected);
      r := r + [c];
    }
  }
}
