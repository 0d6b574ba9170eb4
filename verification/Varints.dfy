/**
Variable-length integers, fixed-width integers as numbers, and length-prefixed strings
(util/leveldb/util/coding.cc).
 */
module Varints {
  import opened Common
  import opened Keys
  import opened Coding

  // ---------------------------------------------------------------- varints

  /** Seven bits a byte, lowest first; every byte but the last has its top bit set. */
  function VarintBytes(v: nat): (b: Bytes)
    ensures |b| > 0
  {
    if v < 128 then [v] else [v % 128 + 128] + VarintBytes(v / 128)
  }

  datatype Varint = Varint(value: nat, size: nat)

  /** The number in front of `b` if it ends within `max` bytes, and how many bytes it takes. */
  function ParseVarint(b: Bytes, max: nat): (r: Option<Varint>)
    ensures r.Some? ==> 0 < r.value.size <= |b|
  {
    if max == 0 || b == [] then None
    else if b[0] < 128 then Some(Varint(b[0], 1))
    else
      match ParseVarint(b[1..], max - 1)
      case None => None
      case Some(r) => Some(Varint(b[0] - 128 + 128 * r.value, r.size + 1))
  }

  /** 128 to the power `k`. */
  function Place(k: nat): (p: nat)
    ensures p > 0
  {
    if k == 0 then 1 else 128 * Place(k - 1)
  }

  /** Reading a varint undoes writing it, whatever follows. */
  lemma {:induction false} VarintRoundTrip(v: nat, max: nat, rest: Bytes)
    requires max > 0 && v < Place(max)
    ensures ParseVarint(VarintBytes(v) + rest, max) == Some(Varint(v, |VarintBytes(v)|))
  {
    hide ParseVarint, VarintBytes, Place;
    var b := VarintBytes(v) + rest;
    Unfold(v);
    ParseFirst(b, max);
    if v >= 128 {
      PlaceStep(v, max);
      VarintRoundTrip(v / 128, max - 1, rest);
      assert b[1..] == VarintBytes(v / 128) + rest;
    }
  }

  lemma {:induction false} PlaceStep(v: nat, max: nat)
    requires max > 0 && 128 <= v < Place(max)
    ensures max > 1 && v / 128 < Place(max - 1)
  {
  }

  /** A varint that ends inside `a` is read the same when more bytes follow. */
  lemma {:induction false} VarintIsStable(a: Bytes, b: Bytes, max: nat)
    requires ParseVarint(a, max).Some?
    ensures ParseVarint(a + b, max) == ParseVarint(a, max)
  {
    if a[0] >= 128 {
      VarintIsStable(a[1..], b, max - 1);
      assert (a + b)[1..] == a[1..] + b;
    }
  }

  /** Seven bits a byte, the eighth says that more follow, and no byte too many. */
  lemma {:induction false} VarintShape(v: nat, i: nat)
    requires i < |VarintBytes(v)|
    ensures var b := VarintBytes(v);
            && (b[i] >= 128 <==> i + 1 < |b|) && (|b| > 1 ==> b[|b| - 1] > 0)
            && forall k :: 0 <= k < 7 ==> (Bit(b[i], k) <==> Bit(v, 7 * i + k))
  {
    SmallPowers();
    hide Bit, Pow2;
    var b := VarintBytes(v);
    if i == 0 {
      forall k | 0 <= k < 7
        ensures Bit(b[0], k) <==> Bit(v, k)
      {
        LowBit(b[0], 7, k);
        LowBit(v, 7, k);
      }
    } else {
      VarintShape(v / 128, i - 1);
      forall k | 0 <= k < 7
        ensures Bit(b[i], k) <==> Bit(v, 7 * i + k)
      {
        HighBit(v, 7, 7 * (i - 1) + k);
      }
    }
    if |b| > 1 {
      VarintShape(v / 128, |b| - 2);
    }
  }

  method EncodeVarint32(v: nat) returns (b: Bytes)
    requires v < TWO_32
    ensures b == VarintBytes(v)
  {
    hide VarintBytes;
    Unfold(v);
    Unfold(v / 128);
    Unfold(v / 128 / 128);
    Unfold(v / 128 / 128 / 128);
    Unfold(v / 128 / 128 / 128 / 128);
    if v < 0x80 {
      b := [v];
    } else if v < 0x4000 {
      b := [v % 128 + 128, v / 128];
    } else if v < 0x20_0000 {
      b := [v % 128 + 128, v / 128 % 128 + 128, v / 128 / 128];
    } else if v < 0x1000_0000 {
      b := [v % 128 + 128, v / 128 % 128 + 128, v / 128 / 128 % 128 + 128, v / 128 / 128 / 128];
    } else {
      b := [v % 128 + 128, v / 128 % 128 + 128, v / 128 / 128 % 128 + 128, v / 128 / 128 / 128 % 128 + 128,
            v / 128 / 128 / 128 / 128];
    }
  }

  lemma {:induction false} Unfold(v: nat)
    ensures VarintBytes(v) == if v < 128 then [v] else [v % 128 + 128] + VarintBytes(v / 128)
  {
  }

  method EncodeVarint64(n: nat) returns (b: Bytes)
    requires n < TWO_64
    ensures b == VarintBytes(n)
  {
    b := [];
    var v := n;
    while v >= 128
      invariant VarintBytes(n) == b + VarintBytes(v)
    {
      b := b + [v % 128 + 128];
      v := v / 128;
    }
    b := b + [v];
  }

  /** What the decoders return: the number modulo the width of its type. */
  function GetVarint32(b: Bytes): (r: Option<Varint>)
    ensures r.Some? ==> r.value.value < TWO_32 && 0 < r.value.size <= |b|
  {
    match ParseVarint(b, 5) case None => None case Some(r) => Some(Varint(r.value % TWO_32, r.size))
  }

  function GetVarint64(b: Bytes): (r: Option<Varint>)
    ensures r.Some? ==> r.value.value < TWO_64 && 0 < r.value.size <= |b|
  {
    match ParseVarint(b, 10) case None => None case Some(r) => Some(Varint(r.value % TWO_64, r.size))
  }

  /**
  The shared loop of GetVarint32Ptr (five bytes, 32 bits) and GetVarint64Ptr (ten bytes, 64 bits).
  The bits a byte adds are new ones, so or-ing them in is adding them, modulo the width.
   */
  method DecodeVarint(b: Bytes, wide: bool) returns (r: Option<Varint>)
    ensures r == if wide then GetVarint64(b) else GetVarint32(b)
  {
    hide ParseVarint, Continues;
    var max := if wide then 10 else 5;
    var result: nat, i: nat, place: nat := 0, 0, 1;
    ghost var exact: nat := 0;
    ContinuesFromStart(b, max);
    while i < max && i < |b|
      invariant i <= max && i <= |b|
      invariant result == Narrow(exact, wide)
      invariant Continues(b, max, i, exact, place)
    {
      var byte := b[i];
      Step(b, max, i, exact, place);
      AddNarrow(exact, byte % 128 * place, wide);
      i := i + 1;
      if byte >= 128 {
        result := Narrow(result + byte % 128 * place, wide);
        exact := exact + byte % 128 * place;
        place := place * 128;
      } else {
        return Some(Varint(Narrow(result + byte % 128 * place, wide), i));
      }
    }
    Ended(b, max, i, exact, place);
    r := None;
  }

  function Narrow(v: nat, wide: bool): (r: nat) {
    if wide then v % TWO_64 else v % TWO_32
  }

  lemma AddNarrow(a: nat, b: nat, wide: bool)
    ensures Narrow(Narrow(a, wide) + b, wide) == Narrow(a + b, wide)
  {
  }

  /** After `i` bytes worth `exact`, the next one weighing `place`, the rest decides the outcome. */
  ghost predicate Continues(b: Bytes, max: nat, i: nat, exact: nat, place: nat)
    requires i <= max && i <= |b|
  {
    match ParseVarint(b[i..], max - i)
    case None => ParseVarint(b, max) == None
    case Some(p) => ParseVarint(b, max) == Some(Varint(Weighed(exact, place, p.value), i + p.size))
  }

  function Weighed(exact: nat, place: nat, v: nat): (r: nat) {
    exact + v * place
  }

  lemma ContinuesFromStart(b: Bytes, max: nat)
    ensures Continues(b, max, 0, 0, 1)
  {
    assert b[0..] == b;
  }

  lemma Ended(b: Bytes, max: nat, i: nat, exact: nat, place: nat)
    requires i <= max && i <= |b| && (i == max || i == |b|) && Continues(b, max, i, exact, place)
    ensures ParseVarint(b, max) == None
  {
  }

  lemma Step(b: Bytes, max: nat, i: nat, exact: nat, place: nat)
    requires i < max && i < |b| && Continues(b, max, i, exact, place)
    ensures b[i] < 128 ==> ParseVarint(b, max) == Some(Varint(Weighed(exact, place, b[i] % 128), i + 1))
    ensures b[i] >= 128 ==> Continues(b, max, i + 1, Weighed(exact, place, b[i] % 128), place * 128)
  {
    hide ParseVarint, Weighed;
    ParseFirst(b[i..], max - i);
    assert b[i..][1..] == b[i + 1..];
    var tail := ParseVarint(b[i + 1..], max - i - 1);
    if b[i] >= 128 && tail.Some? {
      Shift(exact, b[i] - 128, place, tail.value.value);
    }
  }

  lemma {:induction false} ParseFirst(b: Bytes, max: nat)
    requires max > 0 && b != []
    ensures ParseVarint(b, max) ==
      if b[0] < 128 then Some(Varint(b[0], 1))
      else match ParseVarint(b[1..], max - 1)
        case None => None
        case Some(r) => Some(Varint(b[0] - 128 + 128 * r.value, r.size + 1))
  {
  }

  lemma Shift(exact: nat, d: nat, place: nat, v: nat)
    ensures Weighed(exact, place, d + 128 * v) == Weighed(Weighed(exact, place, d), place * 128, v)
  {
    Distribute(d, 128 * v, place);
    Reorder(v, place);
  }

  lemma Distribute(a: nat, b: nat, c: nat)
    ensures (a + b) * c == a * c + b * c
  {
  }

  lemma Reorder(v: nat, place: nat)
    ensures 128 * v * place == v * (place * 128)
  {
  }

  // ---------------------------------------------------------------- length-prefixed strings

  datatype Prefixed = Prefixed(data: Bytes, size: nat)

  function PrefixedBytes(s: Bytes): (b: Bytes) {
    VarintBytes(|s| % TWO_32) + s
  }

  /** GetLengthPrefixedSlice: the string in front of `b`, and the bytes taken. */
  function ParsePrefixed(b: Bytes): (r: Option<Prefixed>)
    ensures r.Some? ==> 0 < r.value.size <= |b|
  {
    match GetVarint32(b)
    case None => None
    case Some(n) =>
      if n.size + n.value <= |b| then Some(Prefixed(b[n.size..n.size + n.value], n.size + n.value)) else None
  }

  lemma Widths()
    ensures Place(5) >= TWO_32 && Place(10) >= TWO_64
  {
    assert Place(5) == 128 * 128 * 128 * 128 * 128;
    assert Place(10) == Place(5) * 128 * 128 * 128 * 128 * 128;
  }

  lemma Varint32RoundTrip(v: nat, rest: Bytes)
    requires v < TWO_32
    ensures GetVarint32(VarintBytes(v) + rest) == Some(Varint(v, |VarintBytes(v)|))
  {
    hide VarintBytes, ParseVarint, Place;
    Widths();
    VarintRoundTrip(v, 5, rest);
  }

  lemma Varint64RoundTrip(v: nat, rest: Bytes)
    requires v < TWO_64
    ensures GetVarint64(VarintBytes(v) + rest) == Some(Varint(v, |VarintBytes(v)|))
  {
    hide VarintBytes, ParseVarint, Place;
    Widths();
    VarintRoundTrip(v, 10, rest);
  }

  lemma PrefixedRoundTrip(s: Bytes, rest: Bytes)
    requires |s| < TWO_32
    ensures ParsePrefixed(PrefixedBytes(s) + rest) == Some(Prefixed(s, |PrefixedBytes(s)|))
  {
    hide VarintBytes, GetVarint32;
    var b := VarintBytes(|s|);
    assert PrefixedBytes(s) + rest == b + (s + rest);
    Varint32RoundTrip(|s|, s + rest);
    assert (b + (s + rest))[|b|..|b| + |s|] == s;
  }

  lemma PrefixedIsStable(a: Bytes, b: Bytes)
    requires ParsePrefixed(a).Some?
    ensures ParsePrefixed(a + b) == ParsePrefixed(a)
  {
    hide ParseVarint;
    VarintIsStable(a, b, 5);
    var n := GetVarint32(a).value;
    assert (a + b)[n.size..n.size + n.value] == a[n.size..n.size + n.value];
  }
}
