/** LevelDB's Bloom filter policy (util/leveldb/util/bloom.cc). */
module BloomPolicy {
  import opened Common
  import opened Coding

  // ---------------------------------------------------------------- bits of a byte

  /** Or-ing in bit `k`. */
  function WithBit(b: nat, k: nat): (r: nat)
    decreases k
  {
    if k == 0 then b - b % 2 + 1 else 2 * WithBit(b / 2, k - 1) + b % 2
  }

  lemma {:induction false} WithBitFits(b: nat, k: nat, n: nat)
    requires b < Pow2(n) && k < n
    ensures WithBit(b, k) < Pow2(n)
  {
    if k > 0 {
      WithBitFits(b / 2, k - 1, n - 1);
    }
  }

  lemma {:induction false} BitsAfter(b: nat, k: nat, j: nat)
    ensures Bit(WithBit(b, k), j) <==> Bit(b, j) || j == k
    decreases k
  {
    if k > 0 && j > 0 {
      BitsAfter(b / 2, k - 1, j - 1);
    }
  }

  // ---------------------------------------------------------------- bits of a filter

  predicate BitAt(f: Bytes, x: nat)
    requires x / 8 < |f|
  {
    Bit(f[x / 8], x % 8)
  }

  function SetBitAt(f: Bytes, x: nat): (r: Bytes)
    requires x / 8 < |f|
    ensures |r| == |f|
  {
    assert Pow2(8) == 256;
    WithBitFits(f[x / 8], x % 8, 8);
    f[..x / 8] + [WithBit(f[x / 8], x % 8)] + f[x / 8 + 1..]
  }

  lemma SetBitSets(f: Bytes, x: nat, y: nat)
    requires x / 8 < |f| && y / 8 < |f|
    ensures BitAt(SetBitAt(f, x), y) <==> BitAt(f, y) || y == x
  {
    hide Bit, WithBit;
    BitsAfter(f[x / 8], x % 8, y % 8);
  }

  // ---------------------------------------------------------------- probes

  /** The `j`-th probe: double hashing with the hash rotated right by 17 bits, in 32-bit arithmetic. */
  function Probe(h: nat, j: nat, bits: nat): (x: nat)
    requires bits > 0
    ensures x < bits
  {
    (h + j * Delta(h)) % TWO_32 % bits
  }

  function Delta(h: nat): (d: nat) {
    h % TWO_32 / 0x2_0000 + h % 0x2_0000 * 0x8000
  }

  /** The step between probes is the 32-bit hash rotated right by 17 bits. */
  lemma DeltaRotates(h: nat, k: nat)
    requires h < TWO_32 && k < 32
    ensures Bit(Delta(h), k) <==> Bit(h, (k + 17) % 32)
  {
    hide *;
    var low, high := h % 0x2_0000, h / 0x2_0000;
    PowersOfTwo();
    DeltaParts(h);
    BitOfParts(high, low, 15, k);
    BitOfParts(low, high, 17, (k + 17) % 32);
  }

  lemma DeltaParts(h: nat)
    requires h < TWO_32
    ensures var low, high := h % 0x2_0000, h / 0x2_0000;
            high < 0x8000 && h == low + 0x2_0000 * high && Delta(h) == high + 0x8000 * low
  {
  }

  lemma PowersOfTwo()
    ensures Pow2(15) == 0x8000 && Pow2(17) == 0x2_0000
  {
    assert Pow2(5) == 32;
    assert Pow2(10) == 1024;
    assert Pow2(15) == 32768;
  }

  /** Where the walk over the filter stands after `j` steps. */
  ghost function Walk(h: nat, j: nat): nat {
    if j == 0 then h else (Walk(h, j - 1) + Delta(h)) % TWO_32
  }

  /** The probes are the stations of the walk. */
  lemma {:induction false} ProbeIsStation(h: nat, j: nat, bits: nat)
    requires bits > 0 && h < TWO_32
    ensures Probe(h, j, bits) == Walk(h, j) % bits && Walk(h, j) == (h + j * Delta(h)) % TWO_32
  {
    hide *;
    WalkStep(h, j);
    if j > 0 {
      ProbeIsStation(h, j - 1, bits);
      ProbeNext(h, j - 1, Walk(h, j - 1), bits);
    }
    ProbeNext(h, j, Walk(h, j), bits);
  }

  lemma WalkStep(h: nat, j: nat)
    requires h < TWO_32
    ensures if j == 0 then Walk(h, j) == h == (h + j * Delta(h)) % TWO_32
            else Walk(h, j) == (Walk(h, j - 1) + Delta(h)) % TWO_32
  {
    hide Delta;
  }

  /** Two probes of one hash that go to different bits. */
  lemma ProbesDiffer()
    ensures Probe(1, 0, 100) == 1 && Probe(1, 1, 100) == 69
  {
  }

  /** The first `k` probes of a hash hit. */
  ghost predicate Hit(f: Bytes, h: nat, k: nat, bits: nat)
    requires 0 < bits <= 8 * |f|
  {
    forall j :: 0 <= j < k ==> BitAt(f, Probe(h, j, bits))
  }

  /** One of the first `k` probes of a hash goes to bit `y`. */
  ghost predicate Probed(h: nat, k: nat, bits: nat, y: nat)
    requires bits > 0
  {
    exists j :: 0 <= j < k && Probe(h, j, bits) == y
  }

  /** Exactly the probed bits have been added. */
  ghost predicate AddsProbes(f: Bytes, f': Bytes, h: nat, k: nat, bits: nat)
    requires bits > 0
  {
    && |f'| == |f|
    && forall y :: 0 <= y < 8 * |f| ==> (BitAt(f', y) <==> BitAt(f, y) || Probed(h, k, bits, y))
  }

  lemma NoProbes(f: Bytes, h: nat, bits: nat)
    requires bits > 0
    ensures AddsProbes(f, f, h, 0, bits)
  {
  }

  lemma ProbeAdded(f: Bytes, mid: Bytes, h: nat, k: nat, bits: nat)
    requires 0 < bits <= 8 * |f| && AddsProbes(f, mid, h, k, bits)
    ensures AddsProbes(f, SetBitAt(mid, Probe(h, k, bits)), h, k + 1, bits)
  {
    hide Bit, SetBitAt, Probe, BitAt;
    var x := Probe(h, k, bits);
    forall y | 0 <= y < 8 * |f|
      ensures BitAt(SetBitAt(mid, x), y) <==> BitAt(f, y) || Probed(h, k + 1, bits, y)
    {
      SetBitSets(mid, x, y);
      assert Probed(h, k + 1, bits, y) <==> Probed(h, k, bits, y) || y == x;
    }
  }

  lemma ProbeNext(h: nat, j: nat, g: nat, bits: nat)
    requires bits > 0 && g == (h + j * Delta(h)) % TWO_32
    ensures g % bits == Probe(h, j, bits) && (g + Delta(h)) % TWO_32 == (h + (j + 1) * Delta(h)) % TWO_32
  {
    hide Delta;
    var d := Delta(h);
    assert (j + 1) * d == j * d + d;
    SumModulo(h + j * d, d);
  }

  lemma SumModulo(a: nat, d: nat)
    ensures (a % TWO_32 + d) % TWO_32 == (a + d) % TWO_32
  {
  }

  /** Sets the bits of one key. */
  method AddKey(f: Bytes, h: nat, k: nat, bits: nat) returns (f': Bytes)
    requires 0 < bits <= 8 * |f| && h < TWO_32
    ensures AddsProbes(f, f', h, k, bits)
  {
    hide Bit, SetBitAt, Delta, BitAt, AddsProbes;
    f' := f;
    var g := h;
    NoProbes(f, h, bits);
    for j := 0 to k
      invariant |f'| == |f| && AddsProbes(f, f', h, j, bits)
      invariant g == (h + j * Delta(h)) % TWO_32
    {
      ProbeNext(h, j, g, bits);
      ProbeAdded(f, f', h, j, bits);
      var x := g % bits;
      f' := SetBitAt(f', x);
      g := (g + Delta(h)) % TWO_32;
    }
  }

  // ---------------------------------------------------------------- the policy

  datatype Policy = Policy(bitsPerKey: nat, k: nat, hash: Bytes -> nat) {
    /** The constructor clips the number of probes; the hash has 32 bits. */
    ghost predicate Valid() {
      1 <= k <= 30 && forall key :: hash(key) < TWO_32
    }
  }

  /** Some key of a list probes bit `y`. */
  ghost predicate ProbedBySome(p: Policy, keys: seq<Bytes>, bits: nat, y: nat)
    requires bits > 0
  {
    exists i :: 0 <= i < |keys| && Probed(p.hash(keys[i]), p.k, bits, y)
  }

  /** The bits set in the body of a filter are those probed by its keys. */
  ghost predicate BitsOf(body: Bytes, p: Policy, keys: seq<Bytes>, bits: nat)
    requires bits > 0
  {
    forall y :: 0 <= y < 8 * |body| ==> (BitAt(body, y) <==> ProbedBySome(p, keys, bits, y))
  }

  /** At least 64 bits, in whole bytes. */
  function FilterBytes(p: Policy, n: nat): (bytes: nat)
    ensures bytes >= 8 && 8 * bytes >= n * p.bitsPerKey
  {
    ((if n * p.bitsPerKey < 64 then 64 else n * p.bitsPerKey) + 7) / 8
  }

  /** A filter made for a list of keys: their bits and no others, and a last byte with the number of probes. */
  ghost predicate MadeFor(filter: Bytes, p: Policy, keys: seq<Bytes>) {
    && |filter| == FilterBytes(p, |keys|) + 1 && filter[|filter| - 1] == p.k
    && BitsOf(filter[..|filter| - 1], p, keys, 8 * (|filter| - 1))
  }

  /** What a filter says about a key: more than thirty probes are taken as a match. */
  ghost predicate MayMatch(p: Policy, key: Bytes, filter: Bytes) {
    && |filter| >= 2
    && (filter[|filter| - 1] > 30
        || Hit(filter[..|filter| - 1], p.hash(key), filter[|filter| - 1], 8 * (|filter| - 1)))
  }

  /** A key that a filter was made for is never rejected by it. */
  lemma NeverRejected(filter: Bytes, p: Policy, keys: seq<Bytes>, key: Bytes)
    requires MadeFor(filter, p, keys) && key in keys
    ensures MayMatch(p, key, filter)
  {
    hide BitAt, Probe;
    var bits, body, h := 8 * (|filter| - 1), filter[..|filter| - 1], p.hash(key);
    var i :| 0 <= i < |keys| && keys[i] == key;
    forall j | 0 <= j < p.k
      ensures BitAt(body, Probe(h, j, bits))
    {
      assert Probed(h, p.k, bits, Probe(h, j, bits));
      assert ProbedBySome(p, keys, bits, Probe(h, j, bits));
    }
  }

  lemma {:induction false} ZeroBits(k: nat)
    ensures !Bit(0, k)
  {
    if k > 0 {
      ZeroBits(k - 1);
    }
  }

  lemma NoKeys(p: Policy, n: nat, bits: nat)
    requires bits > 0
    ensures BitsOf(Zeros(n), p, [], bits)
  {
    hide Bit;
    forall y | 0 <= y < 8 * n
      ensures !BitAt(Zeros(n), y)
    {
      ZeroBits(y % 8);
    }
  }

  lemma OneMoreKey(body: Bytes, body': Bytes, p: Policy, keys: seq<Bytes>, key: Bytes, bits: nat)
    requires bits > 0 && BitsOf(body, p, keys, bits) && AddsProbes(body, body', p.hash(key), p.k, bits)
    ensures BitsOf(body', p, keys + [key], bits)
  {
    hide BitAt, Probed;
    forall y | 0 <= y < 8 * |body|
      ensures ProbedBySome(p, keys + [key], bits, y)
              <==> ProbedBySome(p, keys, bits, y) || Probed(p.hash(key), p.k, bits, y)
    {
      var all := keys + [key];
      assert all[|keys|] == key && forall i :: 0 <= i < |keys| ==> all[i] == keys[i];
    }
  }

  method CreateFilter(p: Policy, keys: seq<Bytes>) returns (filter: Bytes)
    requires p.Valid()
    ensures MadeFor(filter, p, keys)
  {
    hide BitsOf, AddsProbes;
    var bits := |keys| * p.bitsPerKey;
    if bits < 64 {
      bits := 64;
    }
    var bytes := (bits + 7) / 8;
    bits := bytes * 8;
    var array' := Zeros(bytes);
    NoKeys(p, bytes, bits);
    assert keys[..0] == [];
    for i := 0 to |keys|
      invariant |array'| == bytes && BitsOf(array', p, keys[..i], bits)
    {
      var next := AddKey(array', p.hash(keys[i]), p.k, bits);
      SameSize(array', next, p.hash(keys[i]), p.k, bits);
      OneMoreKey(array', next, p, keys[..i], keys[i], bits);
      assert keys[..i + 1] == keys[..i] + [keys[i]];
      array' := next;
    }
    assert keys[..|keys|] == keys;
    filter := array' + [p.k];
    assert filter[..|filter| - 1] == array';
  }

  lemma SameSize(f: Bytes, f': Bytes, h: nat, k: nat, bits: nat)
    requires bits > 0 && AddsProbes(f, f', h, k, bits)
    ensures |f'| == |f|
  {
  }

  method KeyMayMatch(p: Policy, key: Bytes, filter: Bytes) returns (may: bool)
    requires p.Valid()
    ensures may <==> MayMatch(p, key, filter)
  {
    hide Bit, Delta;
    var len := |filter|;
    if len < 2 {
      return false;
    }
    var bits, k := (len - 1) * 8, filter[len - 1];
    if k > 30 {
      return true;
    }
    ghost var body := filter[..len - 1];
    var h := p.hash(key);
    var g := h;
    for j := 0 to k
      invariant Hit(body, h, j, bits) && g == (h + j * Delta(h)) % TWO_32
    {
      ProbeNext(h, j, g, bits);
      var x := g % bits;
      if !Bit(filter[x / 8], x % 8) {
        assert !BitAt(body, Probe(h, j, bits));
        return false;
      }
      g := (g + Delta(h)) % TWO_32;
    }
    may := true;
  }
}
