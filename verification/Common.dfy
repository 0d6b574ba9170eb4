/** Sizes of machine words and sequence functions that several parts share. */
module Common {

  const TWO_32: nat := 0x1_0000_0000
  const TWO_64: nat := 0x1_0000_0000_0000_0000

  function Pow2(n: nat): (p: nat)
    ensures p > 0
  {
    if n == 0 then 1 else 2 * Pow2(n - 1)
  }

  /** Bit `k` of a number, lowest first; a negative one goes on with ones. */
  predicate Bit(n: int, k: nat)
    decreases k
  {
    if k == 0 then n % 2 == 1 else Bit(n / 2, k - 1)
  }

  /** The lowest `n` bits of two numbers are the same, one by one. */
  ghost predicate SameBits(a: int, b: int, n: nat) {
    forall k :: 0 <= k < n ==> (Bit(a, k) <==> Bit(b, k))
  }

  lemma BitsFromLowest(a: int, b: int, n: nat)
    requires n > 0
    ensures SameBits(a, b, n) <==> a % 2 == b % 2 && SameBits(a / 2, b / 2, n - 1)
  {
    assert (Bit(a, 0) <==> Bit(b, 0)) <==> a % 2 == b % 2;
    if SameBits(a, b, n) {
      forall k | 0 <= k < n - 1
        ensures Bit(a / 2, k) <==> Bit(b / 2, k)
      {
        assert Bit(a, k + 1) <==> Bit(b, k + 1);
      }
    } else {
      var k :| 0 <= k < n && (Bit(a, k) <==> !Bit(b, k));
      assert k > 0 ==> (Bit(a / 2, k - 1) <==> !Bit(b / 2, k - 1));
    }
  }

  /** Two numbers agree modulo a power of two exactly if their low bits do. */
  lemma {:induction false} SameLowBits(a: int, b: int, n: nat)
    ensures a % Pow2(n) == b % Pow2(n) <==> SameBits(a, b, n)
    decreases n
  {
    if n > 0 {
      SameLowBits(a / 2, b / 2, n - 1);
      BitsFromLowest(a, b, n);
      hide SameBits, Bit;
      HalfModulo(a, Pow2(n - 1));
      HalfModulo(b, Pow2(n - 1));
      TwoParts(a % 2, (a / 2) % Pow2(n - 1), b % 2, (b / 2) % Pow2(n - 1));
    }
  }

  lemma TwoParts(x: int, h: int, y: int, g: int)
    requires 0 <= x < 2 && 0 <= y < 2
    ensures x + 2 * h == y + 2 * g <==> x == y && h == g
  {
  }

  /** The bits of a number made of a low part of `n` bits and a high part. */
  lemma {:induction false} BitOfParts(low: nat, high: nat, n: nat, k: nat)
    requires low < Pow2(n)
    ensures Bit(low + Pow2(n) * high, k) <==> if k < n then Bit(low, k) else Bit(high, k - n)
    decreases n
  {
    if n == 0 {
      assert low + 1 * high == high;
    } else {
      HalfPower(low, high, n);
      hide Pow2;
      hide Bit;
      var h := Pow2(n - 1) * high;
      HalfOfParts(low, h);
      NextBit(low + 2 * h, k);
      NextBit(low, k);
      if k > 0 {
        BitOfParts(low / 2, high, n - 1, k - 1);
      }
    }
  }

  lemma HalfPower(low: nat, high: nat, n: nat)
    requires n > 0 && low < Pow2(n)
    ensures low / 2 < Pow2(n - 1) && Pow2(n) * high == 2 * (Pow2(n - 1) * high)
  {
    assert 2 * Pow2(n - 1) * high == 2 * (Pow2(n - 1) * high);
  }

  lemma NextBit(n: int, k: nat)
    ensures Bit(n, k) <==> if k == 0 then n % 2 == 1 else Bit(n / 2, k - 1)
  {
  }

  /** The bits below `n`, and those from `n` on. */
  lemma LowBit(v: nat, n: nat, k: nat)
    requires k < n
    ensures Bit(v % Pow2(n), k) <==> Bit(v, k)
  {
    hide Bit, Pow2;
    TwoPartsOf(v, Pow2(n));
    BitOfParts(v % Pow2(n), v / Pow2(n), n, k);
  }

  lemma HighBit(v: nat, n: nat, k: nat)
    ensures Bit(v / Pow2(n), k) <==> Bit(v, n + k)
  {
    hide Bit, Pow2;
    TwoPartsOf(v, Pow2(n));
    BitOfParts(v % Pow2(n), v / Pow2(n), n, n + k);
  }

  lemma TwoPartsOf(v: nat, p: nat)
    requires p > 0
    ensures v == v % p + p * (v / p)
  {
  }

  lemma SmallPowers()
    ensures Pow2(7) == 128 && Pow2(8) == 256
  {
    assert Pow2(3) == 8;
  }

  lemma HalfOfParts(low: nat, h: nat)
    ensures (low + 2 * h) % 2 == low % 2 && (low + 2 * h) / 2 == low / 2 + h
  {
  }

  lemma HalfModulo(a: int, p: nat)
    requires p > 0
    ensures a % (2 * p) == a % 2 + 2 * ((a / 2) % p)
  {
    var h := a / 2;
    var q := h / p;
    assert a == 2 * p * q + (a % 2 + 2 * (h % p)) by {
      assert h == p * q + h % p;
      assert 2 * (p * q) == 2 * p * q;
    }
    Unique(a, 2 * p, q, a % 2 + 2 * (h % p));
  }

  lemma Unique(a: int, d: int, q: int, r: int)
    requires d > 0 && a == d * q + r && 0 <= r < d
    ensures a % d == r
  {
    var k := a / d - q;
    assert a % d == r - d * k;
    assert k >= 1 ==> d * k >= d;
    assert k <= -1 ==> d * k <= -d;
  }

  function Removed<T>(s: seq<T>, i: nat): (r: seq<T>)
    requires i < |s|
    ensures |r| == |s| - 1 && forall k :: 0 <= k < |r| ==> r[k] == s[if k < i then k else k + 1]
  {
    s[..i] + s[i + 1..]
  }

  function Flatten<T>(parts: seq<seq<T>>): (r: seq<T>) {
    if parts == [] then [] else Flatten(parts[..|parts| - 1]) + parts[|parts| - 1]
  }

  lemma {:induction false} FlattenConcat<T>(a: seq<seq<T>>, b: seq<seq<T>>)
    ensures Flatten(a + b) == Flatten(a) + Flatten(b)
    decreases |b|
  {
    if b == [] {
      assert a + b == a;
    } else {
      var front := b[..|b| - 1];
      assert (a + b)[..|a + b| - 1] == a + front;
      FlattenConcat(a, front);
      assert Flatten(a) + (Flatten(front) + b[|b| - 1]) == Flatten(a) + Flatten(front) + b[|b| - 1];
    }
  }

  lemma FlattenOne<T>(part: seq<T>)
    ensures Flatten([part]) == part
  {
    assert [part][..0] == [];
    assert Flatten([part]) == [] + part;
  }
}
