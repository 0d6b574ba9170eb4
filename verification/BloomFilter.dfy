/** The prototype's Bloom filter over an array of bytes (prototype/bloom.c). */
module BloomFilter {
  import opened Common
  import opened Fingerprints

  const SEED: nat := 0x9747b28c

  /** Where the `i`-th probe of a key goes; `hash` stands for murmurhash2 with its seed. */
  function Probe(hash: (Fp, nat) -> nat, key: Fp, i: nat, bits: nat): (x: nat)
    requires bits > 0
    ensures x < bits
  {
    var a := hash(key, SEED) % TWO_32;
    var b := hash(key, a) % TWO_32;
    (a + i * b) % TWO_32 % bits
  }

  /** Without overflow the probes of a key are evenly spaced, from the first hash on by the second. */
  lemma ProbesAreSpaced(hash: (Fp, nat) -> nat, key: Fp, i: nat, bits: nat)
    requires bits > 0
    requires var a := hash(key, SEED); var b := hash(key, a); a < TWO_32 && b < TWO_32 && a + i * b < TWO_32
    ensures Probe(hash, key, i, bits) == (hash(key, SEED) + i * hash(key, hash(key, SEED))) % bits
  {
    var a := hash(key, SEED);
    var b := hash(key, a);
    NotWrapped(a);
    NotWrapped(b);
    NotWrapped(a + i * b);
  }

  lemma NotWrapped(n: nat)
    requires n < TWO_32
    ensures n % TWO_32 == n
  {
  }

  /** Three probes of a key that go to different bits. */
  lemma ProbesDiffer(key: Fp)
    ensures var hash := (k: Fp, seed: nat) => if seed == SEED then 3 else 5;
            Probe(hash, key, 0, 100) == 3 && Probe(hash, key, 1, 100) == 8 && Probe(hash, key, 2, 100) == 13
  {
  }

  predicate BitSet(bf: seq<Octet>, x: nat)
    requires x / 8 < |bf|
  {
    OctetBit(bf[x / 8], x % 8)
  }

  /** All probes of a key hit. */
  predicate Contains(bf: seq<Octet>, hash: (Fp, nat) -> nat, hashes: nat, bits: nat, key: Fp)
    requires 0 < bits <= 8 * |bf|
  {
    forall i :: 0 <= i < hashes ==> BitSet(bf, Probe(hash, key, i, bits))
  }

  /** No bit that was set before is lost. */
  ghost predicate Grows(bf: seq<Octet>, bf': seq<Octet>) {
    |bf'| == |bf| && forall x :: 0 <= x < 8 * |bf| && BitSet(bf, x) ==> BitSet(bf', x)
  }

  lemma GrowsKeeps(bf: seq<Octet>, bf': seq<Octet>, hash: (Fp, nat) -> nat, hashes: nat, bits: nat, key: Fp)
    requires Grows(bf, bf') && 0 < bits <= 8 * |bf| && Contains(bf, hash, hashes, bits, key)
    ensures Contains(bf', hash, hashes, bits, key)
  {
    hide BitSet, Probe;
  }

  /** Some of the first `n` probes of a key goes to bit `y`. */
  ghost predicate Probed(hash: (Fp, nat) -> nat, key: Fp, n: nat, bits: nat, y: nat)
    requires bits > 0
  {
    exists i :: 0 <= i < n && Probe(hash, key, i, bits) == y
  }

  /** Adding sets the probed bits and no other. */
  ghost predicate AddsProbes(bf: seq<Octet>, bf': seq<Octet>, hash: (Fp, nat) -> nat, key: Fp, n: nat, bits: nat)
    requires bits > 0
  {
    && |bf'| == |bf|
    && forall y :: 0 <= y < 8 * |bf| ==> (BitSet(bf', y) <==> BitSet(bf, y) || Probed(hash, key, n, bits, y))
  }

  lemma NoProbes(bf: seq<Octet>, hash: (Fp, nat) -> nat, key: Fp, bits: nat)
    requires bits > 0
    ensures AddsProbes(bf, bf, hash, key, 0, bits)
  {
  }

  lemma ProbeStep(bf: seq<Octet>, mid: seq<Octet>, bf': seq<Octet>, hash: (Fp, nat) -> nat, key: Fp, n: nat, bits: nat)
    requires 0 < bits <= 8 * |bf| && AddsProbes(bf, mid, hash, key, n, bits) && |bf'| == |mid|
    requires forall y :: 0 <= y < 8 * |mid| ==> (BitSet(bf', y) <==> BitSet(mid, y) || y == Probe(hash, key, n, bits))
    ensures AddsProbes(bf, bf', hash, key, n + 1, bits)
  {
    hide BitSet, Probe;
    forall y | 0 <= y < 8 * |bf|
      ensures BitSet(bf', y) <==> BitSet(bf, y) || Probed(hash, key, n + 1, bits, y)
    {
      assert Probed(hash, key, n + 1, bits, y) <==> Probed(hash, key, n, bits, y) || y == Probe(hash, key, n, bits);
    }
  }

  /** A probe that hits only because an earlier one set its bit comes after one that missed. */
  lemma HitStep(bf: seq<Octet>, mid: seq<Octet>, hash: (Fp, nat) -> nat, key: Fp, n: nat, bits: nat)
    requires 0 < bits <= 8 * |bf| && AddsProbes(bf, mid, hash, key, n, bits)
    requires Contains(bf, hash, n, bits, key)
    ensures BitSet(mid, Probe(hash, key, n, bits)) <==> BitSet(bf, Probe(hash, key, n, bits))
  {
    hide BitSet, Probe;
  }

  lemma ProbesAdded(bf: seq<Octet>, bf': seq<Octet>, hash: (Fp, nat) -> nat, key: Fp, n: nat, bits: nat)
    requires 0 < bits <= 8 * |bf| && AddsProbes(bf, bf', hash, key, n, bits)
    ensures Contains(bf', hash, n, bits, key) && Grows(bf, bf')
  {
    hide BitSet, Probe;
    forall i | 0 <= i < n
      ensures BitSet(bf', Probe(hash, key, i, bits))
    {
      assert Probed(hash, key, n, bits, Probe(hash, key, i, bits));
    }
  }

  lemma SetBit(c: Octet, k: nat, j: nat)
    requires k < 8 && j < 8
    ensures OctetBit(c | Mask(k), j) <==> OctetBit(c, j) || j == k
  {
  }

  /** Tests a bit, and sets it if asked to. */
  method TestBitSetBit(bf: array<Octet>, x: nat, setIt: bool) returns (was: bool)
    requires x < 8 * bf.Length
    modifies bf
    ensures was == old(BitSet(bf[..], x))
    ensures setIt ==> forall y :: 0 <= y < 8 * bf.Length ==> (BitSet(bf[..], y) <==> old(BitSet(bf[..], y)) || y == x)
    ensures !setIt ==> bf[..] == old(bf[..])
  {
    hide OctetBit, Mask;
    var byte, k := x / 8, x % 8;
    var c := bf[byte];
    was := OctetBit(c, k);
    if !was && setIt {
      bf[byte] := c | Mask(k);
    }
    forall y | setIt && 0 <= y < 8 * bf.Length
      ensures BitSet(bf[..], y) <==> old(BitSet(bf[..], y)) || y == x
    {
      SetBit(c, k, y % 8);
    }
  }

  class Bloom {
    const bits: nat
    const hashes: nat
    const hash: (Fp, nat) -> nat
    const bf: array<Octet>

    ghost predicate Valid()
      reads this
    {
      bits > 0 && hashes > 0 && bf.Length == (bits + 7) / 8
    }

    ghost predicate Has(key: Fp)
      requires Valid()
      reads this, bf
    {
      Contains(bf[..], hash, hashes, bits, key)
    }

    constructor (bits: nat, hashes: nat, hash: (Fp, nat) -> nat)
      requires bits > 0 && hashes > 0
      ensures Valid() && fresh(bf) && this.bits == bits && this.hashes == hashes && this.hash == hash
      ensures forall x :: 0 <= x < bits ==> !BitSet(bf[..], x)
    {
      this.bits, this.hashes, this.hash := bits, hashes, hash;
      bf := new Octet[(bits + 7) / 8](_ => 0);
    }

    /** The probe loop shared by checking and adding. */
    method CheckAdd(key: Fp, add: bool) returns (present: bool)
      requires Valid()
      modifies bf
      ensures present <==> old(Has(key))
      ensures !add ==> bf[..] == old(bf[..])
      ensures add ==> AddsProbes(old(bf[..]), bf[..], hash, key, hashes, bits)
      ensures add ==> Has(key) && Grows(old(bf[..]), bf[..])
    {
      hide BitSet, Probe, Fingerprints.OctetBit, AddsProbes, Grows;
      var hits := 0;
      ghost var was0 := bf[..];
      NoProbes(was0, hash, key, bits);
      for i := 0 to hashes
        invariant !add ==> bf[..] == was0
        invariant 0 <= hits <= i && (hits == i <==> Contains(was0, hash, i, bits, key))
        invariant add ==> AddsProbes(was0, bf[..], hash, key, i, bits)
      {
        ghost var mid := bf[..];
        if add && hits == i {
          HitStep(was0, mid, hash, key, i, bits);
        }
        var was := TestBitSetBit(bf, Probe(hash, key, i, bits), add);
        if add {
          ProbeStep(was0, mid, bf[..], hash, key, i, bits);
        }
        if was {
          hits := hits + 1;
        }
      }
      if add {
        ProbesAdded(was0, bf[..], hash, key, hashes, bits);
      }
      present := hits == hashes;
    }

    /** bloom_conf_out: all bytes as text. */
    method Save() returns (text: string)
      requires Valid()
      ensures text == PrintOctets(bf[..])
    {
      hide PrintOctet;
      text := "";
      for i := 0 to bf.Length
        invariant text == PrintOctets(bf[..i])
      {
        assert bf[..i + 1][..i] == bf[..i];
        text := text + PrintOctet(bf[i]);
      }
      assert bf[..bf.Length] == bf[..];
    }

    /** bloom_init_conf: what was saved comes back. */
    method Restore(text: string, ghost saved: seq<Octet>)
      requires Valid() && |saved| == bf.Length && text == PrintOctets(saved)
      modifies bf
      ensures bf[..] == saved
    {
      hide PrintOctet, PrintOctets;
      var r := ReadOctets(text, bf.Length, saved);
      for i := 0 to bf.Length
        invariant bf[..i] == r[..i]
      {
        bf[i] := r[i];
        assert bf[..i + 1] == bf[..i] + [bf[i]];
      }
      assert bf[..bf.Length] == bf[..];
    }
  }
}
