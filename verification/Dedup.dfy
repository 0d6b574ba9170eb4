/**
The deduplication prototype: fingerprint cache, Bloom filter, index and containers together decide
which chunks are new (prototype/ddfs.cc, prototype/container_manager.cc, prototype/fp_index.cc).
The class refines a plain model; what the model stores is exact for all inputs over a set of
fingerprints if and only if no two of them are the same string.
 */
module Dedup {
  import opened Common
  import opened Keys
  import opened Fingerprints
  import opened BloomFilter
  import opened LruFingerprints
  import opened Recency

  const MAX_SIZE: nat := 4 * 1024 * 1024

  // ---------------------------------------------------------------- containers

  /** A container file: one line of bits per fingerprint. */
  function PrintLines(fps: seq<Fp>): (lines: seq<string>)
    ensures |lines| == |fps| && forall i :: 0 <= i < |fps| ==> lines[i] == PrintOctets(fps[i])
  {
    if fps == [] then [] else PrintLines(fps[..|fps| - 1]) + [PrintOctets(fps[|fps| - 1])]
  }

  /** Reading a container file gives back the bytes that were written. */
  method ReadLines(lines: seq<string>, ghost fps: seq<Fp>) returns (r: seq<Fp>)
    requires lines == PrintLines(fps)
    ensures r == fps
  {
    hide PrintLines, PrintOctets;
    r := [];
    for i := 0 to |lines|
      invariant r == fps[..i]
    {
      var data := ReadOctets(lines[i], FP_SIZE, fps[i]);
      r := r + [data];
    }
  }

  /** What memory holds behind the end of a string, by container and line. */
  type Noise = (nat, nat) -> Fp

  /** The fingerprints of container `c` as its file has them. */
  function Shown(fps: seq<Fp>, c: nat, noise: Noise): (r: seq<Fp>)
    ensures |r| == |fps| && forall i :: 0 <= i < |fps| ==> r[i] == AsWritten(fps[i], noise(c, i))
  {
    if fps == [] then []
    else
      var n := |fps| - 1;
      Shown(fps[..n], c, noise) + [AsWritten(fps[n], noise(c, n))]
  }

  // ---------------------------------------------------------------- the plain model

  datatype Chunk = Chunk(fp: Fp, size: nat)

  /**
  Cached keys, index, flushed containers, the one being filled and its size, all chunks stored so far, and the
  sizes of the chunks in the containers.
   */
  datatype Model = Model(cache: seq<Fp>, max: nat, index: map<Fp, nat>, stored: seq<seq<Fp>>, tmp: seq<Fp>,
                         size: nat, uniques: seq<Fp>, packed: seq<seq<nat>>, packing: seq<nat>)

  function Empty(max: nat): (m: Model) {
    Model([], max, map[], [], [], 0, [], [], [])
  }

  /** pocessw. */
  function Flush(m: Model): (m': Model) {
    if m.tmp == [] then m
    else m.(stored := m.stored + [m.tmp], tmp := [], size := 0, packed := m.packed + [m.packing], packing := [])
  }

  /** punique. */
  function Stored(m: Model, c: Chunk): (m': Model) {
    var m1 := if m.size + c.size > MAX_SIZE then Flush(m) else m;
    m1.(tmp := m1.tmp + [c.fp], size := m1.size + c.size, index := m1.index[c.fp := |m1.stored|],
        uniques := m1.uniques + [c.fp], packing := m1.packing + [c.size])
  }

  /** loadtonode: a flushed container as its file has it, or the one being filled. */
  function Loaded(m: Model, id: nat, noise: Noise): (fps: seq<Fp>) {
    if id < |m.stored| then Shown(m.stored[id], id, noise) else m.tmp
  }

  /** The cache's keys after a whole container has been put into it. */
  ghost function PutAll(keys: seq<Fp>, fps: seq<Fp>, max: nat): seq<Fp> {
    if fps == [] then keys else Put(PutAll(keys, fps[..|fps| - 1], max), fps[|fps| - 1], max)
  }

  /** Whatever went into the cache before, it keeps the keys used last, as many as it has room for. */
  lemma {:induction false} MostRecentStay(past: seq<Fp>, fps: seq<Fp>, max: nat)
    ensures PutAll(Front(ByLastUse(past), max), fps, max) == Front(ByLastUse(past + fps), max)
  {
    hide Put, Without, Front;
    if fps == [] {
      assert past + fps == past;
    } else {
      var front, key := fps[..|fps| - 1], fps[|fps| - 1];
      MostRecentStay(past, front, max);
      assert (past + fps)[..|past + fps| - 1] == past + front;
      var at := LastUses(past + front);
      PutTruncates(ByLastUse(past + front), key, max);
    }
  }

  /** Whether a chunk is stored: neither found in the cache nor indexed. */
  ghost predicate IsStored(m: Model, key: Fp) {
    !HasAlias(m.cache, key) && key !in m.index
  }

  /** One chunk of read_hashes. */
  ghost function Step(m: Model, c: Chunk, noise: Noise): Model {
    if HasAlias(m.cache, c.fp) then m.(cache := Used(m.cache, c.fp))
    else if c.fp !in m.index then Stored(m, c)
    else m.(cache := PutAll(m.cache, Loaded(m, m.index[c.fp], noise), m.max))
  }

  ghost function ReadFile(m: Model, chunks: seq<Chunk>, noise: Noise): Model {
    if chunks == [] then m
    else Step(ReadFile(m, chunks[..|chunks| - 1], noise), chunks[|chunks| - 1], noise)
  }

  /** The end of one run of the program and the start of the next. */
  ghost function Restart(m: Model): Model {
    var f := Flush(m);
    f.(cache := Reversed(f.cache), size := 0)
  }

  /** Any number of files, each in a run of its own. */
  ghost function AllRuns(m: Model, files: seq<seq<Chunk>>, noise: Noise): Model {
    if files == [] then m
    else Restart(ReadFile(AllRuns(m, files[..|files| - 1], noise), files[|files| - 1], noise))
  }

  // ---------------------------------------------------------------- what every step keeps

  /** Each key is indexed with the one container that holds it, and every stored key is indexed. */
  ghost predicate Indexed(m: Model) {
    && (forall k :: k in m.index ==> m.index[k] <= |m.stored| && k in ContainerAt(m, m.index[k]))
    && (forall c, k :: 0 <= c <= |m.stored| && k in ContainerAt(m, c) ==> k in m.index && m.index[k] == c)
  }

  /** The container with number `c`: a flushed one, or the one being filled. */
  function ContainerAt(m: Model, c: nat): (fps: seq<Fp>) {
    if c < |m.stored| then m.stored[c] else m.tmp
  }

  ghost predicate Distinct(s: seq<Fp>) {
    forall i, j :: 0 <= i < j < |s| ==> s[i] != s[j]
  }

  /** The chunks stored so far, in order: no fingerprint twice, and exactly the indexed ones. */
  ghost predicate StoredOnce(m: Model) {
    && m.uniques == Flatten(m.stored) + m.tmp && Distinct(m.uniques)
    && (forall k :: k in m.uniques <==> k in m.index)
  }

  /** A cached key is the same string as some indexed one. */
  ghost predicate IsRooted(index: map<Fp, nat>, k: Fp) {
    exists r :: r in index && SameString(r, k, 0)
  }

  ghost predicate Rooted(index: map<Fp, nat>, keys: seq<Fp>) {
    forall k :: k in keys ==> IsRooted(index, k)
  }

  function Sum(ns: seq<nat>): (n: nat) {
    if ns == [] then 0 else Sum(ns[..|ns| - 1]) + ns[|ns| - 1]
  }

  /** The chunks of a container stay within its size, but for one that is too large alone. */
  predicate Fits(sizes: seq<nat>) {
    |sizes| == 1 || Sum(sizes) <= MAX_SIZE
  }

  ghost predicate Packed(m: Model) {
    && |m.packed| == |m.stored| && (forall i :: 0 <= i < |m.stored| ==> |m.packed[i]| == |m.stored[i]| && Fits(m.packed[i]))
    && |m.packing| == |m.tmp| && Fits(m.packing) && m.size == Sum(m.packing)
  }

  lemma FlushKeepsPacked(m: Model)
    requires Packed(m)
    ensures Packed(Flush(m))
  {
  }

  lemma SumGrows(sizes: seq<nat>, n: nat)
    ensures Sum(sizes + [n]) == Sum(sizes) + n
  {
    assert (sizes + [n])[..|sizes|] == sizes;
  }

  /** A new chunk goes into the container being filled if it fits, and otherwise starts the next one. */
  lemma StoredPacks(m: Model, c: Chunk)
    requires Packed(m)
    ensures var m' := Stored(m, c);
            && Packed(m')
            && (if m.tmp != [] && Sum(m.packing) + c.size > MAX_SIZE
                then m'.stored == m.stored + [m.tmp] && m'.packed == m.packed + [m.packing] && m'.packing == [c.size]
                else m'.stored == m.stored && m'.packed == m.packed && m'.packing == m.packing + [c.size])
  {
    hide Sum, Fits;
    FlushKeepsPacked(m);
    var m1 := if m.size + c.size > MAX_SIZE then Flush(m) else m;
    AppendPacks(m1.packing, c.size);
    assert [] + [c.size] == [c.size];
  }

  lemma AppendPacks(sizes: seq<nat>, n: nat)
    ensures Sum(sizes + [n]) == Sum(sizes) + n && Sum([]) == 0
    ensures sizes == [] || Sum(sizes) + n <= MAX_SIZE ==> Fits(sizes + [n])
  {
    SumGrows(sizes, n);
  }

  ghost predicate Good(m: Model) {
    Indexed(m) && StoredOnce(m) && Rooted(m.index, m.cache) && Packed(m)
  }

  lemma EmptyIsGood(max: nat)
    ensures Good(Empty(max))
  {
  }

  lemma FlushKeepsIndex(m: Model)
    requires Indexed(m)
    ensures Indexed(Flush(m))
  {
    var m' := Flush(m);
    assert forall c :: 0 <= c <= |m.stored| ==> ContainerAt(m', c) == ContainerAt(m, c);
  }

  lemma FlushKeepsStored(m: Model)
    requires StoredOnce(m)
    ensures StoredOnce(Flush(m))
  {
    hide Distinct;
    var more := m.stored + [m.tmp];
    assert more[..|m.stored|] == m.stored;
    assert Flatten(more) + [] == Flatten(m.stored) + m.tmp;
  }

  lemma FlushKeepsGood(m: Model)
    requires Good(m)
    ensures Good(Flush(m))
  {
    hide Indexed, StoredOnce, Rooted, Packed;
    FlushKeepsPacked(m);
    FlushKeepsIndex(m);
    FlushKeepsStored(m);
  }

  ghost function Inserted(m: Model, key: Fp, size: nat, packing: seq<nat>): Model {
    m.(tmp := m.tmp + [key], size := size, index := m.index[key := |m.stored|], uniques := m.uniques + [key],
       packing := packing)
  }

  lemma InsertKeepsIndex(m: Model, key: Fp, size: nat, packing: seq<nat>)
    requires Indexed(m) && key !in m.index
    ensures Indexed(Inserted(m, key, size, packing))
  {
    var m' := Inserted(m, key, size, packing);
    forall k | k in m'.index
      ensures m'.index[k] <= |m.stored| && k in ContainerAt(m', m'.index[k])
    {
      if k == key {
        assert m'.tmp[|m.tmp|] == key;
      } else {
        assert k in ContainerAt(m, m.index[k]);
      }
    }
    forall c, k | 0 <= c <= |m.stored| && k in ContainerAt(m', c)
      ensures k in m'.index && m'.index[k] == c
    {
      if k in ContainerAt(m, c) {
        assert k in m.index;
      }
    }
  }

  lemma InsertKeepsStored(m: Model, key: Fp, size: nat, packing: seq<nat>)
    requires StoredOnce(m) && key !in m.index
    ensures StoredOnce(Inserted(m, key, size, packing))
  {
    hide Flatten;
    var m' := Inserted(m, key, size, packing);
    assert Flatten(m.stored) + m'.tmp == m.uniques + [key];
    assert m'.uniques[|m.uniques|] == key;
  }

  lemma InsertKeepsRooted(m: Model, key: Fp, size: nat, packing: seq<nat>)
    requires Rooted(m.index, m.cache)
    ensures Rooted(Inserted(m, key, size, packing).index, m.cache)
  {
    hide SameString;
    var index' := Inserted(m, key, size, packing).index;
    forall k | k in m.cache
      ensures IsRooted(index', k)
    {
      assert IsRooted(m.index, k);
      var r :| r in m.index && SameString(r, k, 0);
      assert r in index';
    }
  }

  lemma StoredKeepsGood(m: Model, c: Chunk)
    requires Good(m) && c.fp !in m.index
    ensures Good(Stored(m, c))
  {
    hide Indexed, StoredOnce, Rooted, Packed;
    FlushKeepsGood(m);
    StoredPacks(m, c);
    var m1 := if m.size + c.size > MAX_SIZE then Flush(m) else m;
    InsertKeepsIndex(m1, c.fp, m1.size + c.size, m1.packing + [c.size]);
    InsertKeepsStored(m1, c.fp, m1.size + c.size, m1.packing + [c.size]);
    InsertKeepsRooted(m1, c.fp, m1.size + c.size, m1.packing + [c.size]);
    assert Stored(m, c) == Inserted(m1, c.fp, m1.size + c.size, m1.packing + [c.size]);
  }

  lemma RootOfAlias(index: map<Fp, nat>, keys: seq<Fp>, key: Fp)
    requires Rooted(index, keys) && HasAlias(keys, key)
    ensures IsRooted(index, key)
  {
    hide SameString, Bucket;
    var i :| 0 <= i < |keys| && Alias(keys[i], key);
    assert keys[i] in keys && IsRooted(index, keys[i]);
    var r :| r in index && SameString(r, keys[i], 0);
    SameStringTransitive(r, keys[i], key, 0);
  }

  lemma PutKeepsRooted(index: map<Fp, nat>, keys: seq<Fp>, key: Fp, max: nat)
    requires Rooted(index, keys) && IsRooted(index, key)
    ensures Rooted(index, Put(keys, key, max)) && Rooted(index, Used(keys, key))
  {
    hide IsRooted, HasAlias;
  }

  lemma {:induction false} PutAllKeepsRooted(index: map<Fp, nat>, keys: seq<Fp>, fps: seq<Fp>, max: nat)
    requires Rooted(index, keys) && Rooted(index, fps)
    ensures Rooted(index, PutAll(keys, fps, max))
  {
    hide IsRooted, Put;
    if fps != [] {
      assert fps[|fps| - 1] in fps;
      PutAllKeepsRooted(index, keys, fps[..|fps| - 1], max);
      PutKeepsRooted(index, PutAll(keys, fps[..|fps| - 1], max), fps[|fps| - 1], max);
    }
  }

  /** Whatever is loaded, from a file or from memory, is rooted in the index. */
  lemma LoadedIsRooted(m: Model, id: nat, noise: Noise)
    requires Indexed(m) && id <= |m.stored|
    ensures Rooted(m.index, Loaded(m, id, noise))
  {
    hide SameString, AsWritten;
    var fps, kept := Loaded(m, id, noise), ContainerAt(m, id);
    forall k | k in fps
      ensures IsRooted(m.index, k)
    {
      var i :| 0 <= i < |fps| && fps[i] == k;
      assert kept[i] in kept && kept[i] in m.index;
      SameStringReflexive(kept[i], 0);
      WrittenIsSameString(kept[i], noise(id, i));
      assert SameString(kept[i], k, 0);
    }
  }

  lemma OtherCache(m: Model, cache: seq<Fp>)
    requires Good(m) && Rooted(m.index, cache)
    ensures Good(m.(cache := cache))
  {
    hide Flatten, IsRooted, Sum;
    var m' := m.(cache := cache);
    assert forall c :: ContainerAt(m', c) == ContainerAt(m, c);
  }

  lemma FlushedIsEmpty(m: Model)
    requires Good(m)
    ensures Flush(m).size == 0 && Flush(m).tmp == []
  {
  }

  lemma StepKeepsGood(m: Model, c: Chunk, noise: Noise)
    requires Good(m)
    ensures Good(Step(m, c, noise))
    ensures c.fp in m.index ==> m.index[c.fp] <= |m.stored|
  {
    hide StoredOnce, Rooted, HasAlias, Used, PutAll, Stored;
    if HasAlias(m.cache, c.fp) {
      RootOfAlias(m.index, m.cache, c.fp);
      PutKeepsRooted(m.index, m.cache, c.fp, m.max);
      OtherCache(m, Used(m.cache, c.fp));
    } else if c.fp !in m.index {
      StoredKeepsGood(m, c);
    } else {
      LoadedIsRooted(m, m.index[c.fp], noise);
      PutAllKeepsRooted(m.index, m.cache, Loaded(m, m.index[c.fp], noise), m.max);
      OtherCache(m, PutAll(m.cache, Loaded(m, m.index[c.fp], noise), m.max));
    }
  }

  lemma RestartKeepsGood(m: Model)
    requires Good(m)
    ensures Good(Restart(m))
  {
    hide StoredOnce, Reversed, IsRooted;
    FlushKeepsGood(m);
    forall k | k in Reversed(m.cache)
      ensures k in m.cache
    {
      ReversedHas(m.cache, k);
    }
    FlushedIsEmpty(m);
    OtherCache(Flush(m), Reversed(m.cache));
  }

  // ---------------------------------------------------------------- when deduplication is exact

  /** No two different keys are the same string. */
  ghost predicate Separate(K: set<Fp>) {
    forall a, b :: a in K && b in K && SameString(a, b, 0) ==> a == b
  }

  /** Among separate keys the cache never takes a new key for another. */
  lemma SeparateIsUnmasked(m: Model, key: Fp)
    requires Good(m) && Separate(m.index.Keys + {key})
    ensures HasAlias(m.cache, key) ==> key in m.index
  {
    hide SameString, Indexed, StoredOnce, HasAlias;
    if HasAlias(m.cache, key) {
      RootOfAlias(m.index, m.cache, key);
      var r :| r in m.index && SameString(r, key, 0);
      assert r in m.index.Keys + {key};
    }
  }

  function Prints(chunks: seq<Chunk>): (fps: seq<Fp>)
    ensures |fps| == |chunks| && forall i :: 0 <= i < |chunks| ==> fps[i] == chunks[i].fp
  {
    seq(|chunks|, i requires 0 <= i < |chunks| => chunks[i].fp)
  }

  ghost function KeysOf(fps: seq<Fp>): set<Fp> {
    set k | k in fps
  }

  /** The first occurrences, in order, of the keys not yet seen. */
  ghost function Firsts(seen: set<Fp>, fps: seq<Fp>): (r: seq<Fp>) {
    if fps == [] then []
    else
      var front, k := fps[..|fps| - 1], fps[|fps| - 1];
      Firsts(seen, front) + if k in seen || k in front then [] else [k]
  }

  lemma {:induction false} FirstsAppend(seen: set<Fp>, fps: seq<Fp>, k: Fp)
    ensures Firsts(seen, fps + [k]) == Firsts(seen, fps) + if k in seen || k in fps then [] else [k]
  {
    assert (fps + [k])[..|fps|] == fps;
  }

  lemma NoFirsts(seen: set<Fp>)
    ensures Firsts(seen, []) == []
  {
  }

  lemma {:induction false} FirstsConcat(seen: set<Fp>, a: seq<Fp>, b: seq<Fp>)
    ensures Firsts(seen, a + b) == Firsts(seen, a) + Firsts(seen + KeysOf(a), b)
    decreases |b|
  {
    hide Firsts;
    NoFirsts(seen + KeysOf(a));
    if b == [] {
      assert a + b == a;
    } else {
      var front, k := b[..|b| - 1], b[|b| - 1];
      FirstsConcat(seen, a, front);
      assert a + b == (a + front) + [k] && b == front + [k];
      FirstsAppend(seen, a + front, k);
      FirstsAppend(seen + KeysOf(a), front, k);
    }
  }

  lemma {:induction false} FileKeepsGood(m: Model, chunks: seq<Chunk>, noise: Noise)
    requires Good(m)
    ensures Good(ReadFile(m, chunks, noise))
  {
    hide Good, Step;
    if chunks != [] {
      FileKeepsGood(m, chunks[..|chunks| - 1], noise);
      StepKeepsGood(ReadFile(m, chunks[..|chunks| - 1], noise), chunks[|chunks| - 1], noise);
    }
  }

  /** What is known of the chunks stored so far when every answer was right. */
  ghost predicate ExactAfter(m: Model, m': Model, fps: seq<Fp>) {
    m'.index.Keys == m.index.Keys + KeysOf(fps) && m'.uniques == m.uniques + Firsts(m.index.Keys, fps)
  }

  /** One file of separate fingerprints: what is stored are the first occurrences, in order. */
  lemma {:induction false} FileIsExact(m: Model, chunks: seq<Chunk>, noise: Noise)
    requires Good(m) && Separate(m.index.Keys + KeysOf(Prints(chunks)))
    ensures ExactAfter(m, ReadFile(m, chunks, noise), Prints(chunks))
  {
    hide Good, Step, Firsts, Separate;
    NoFirsts(m.index.Keys);
    if chunks != [] {
      var front, c := chunks[..|chunks| - 1], chunks[|chunks| - 1];
      assert Prints(chunks) == Prints(front) + [c.fp];
      FewerAreSeparate(m.index.Keys + KeysOf(Prints(front)), m.index.Keys + KeysOf(Prints(chunks)));
      FileIsExact(m, front, noise);
      FileKeepsGood(m, front, noise);
      ChunkIsExact(m, ReadFile(m, front, noise), Prints(front), c, noise);
    }
  }

  lemma FewerAreSeparate(K: set<Fp>, L: set<Fp>)
    requires Separate(L) && K <= L
    ensures Separate(K)
  {
    hide SameString;
  }

  lemma ChunkIsExact(m: Model, m1: Model, fps: seq<Fp>, c: Chunk, noise: Noise)
    requires Good(m1) && ExactAfter(m, m1, fps) && Separate(m.index.Keys + KeysOf(fps + [c.fp]))
    ensures ExactAfter(m, Step(m1, c, noise), fps + [c.fp])
  {
    hide Good, Firsts, Separate, HasAlias, PutAll, Used;
    assert m1.index.Keys + {c.fp} == m.index.Keys + KeysOf(fps + [c.fp]);
    SeparateIsUnmasked(m1, c.fp);
    FirstsAppend(m.index.Keys, fps, c.fp);
    StoredIndex(m1, c);
  }

  lemma StoredIndex(m: Model, c: Chunk)
    ensures Stored(m, c).index.Keys == m.index.Keys + {c.fp} && Stored(m, c).uniques == m.uniques + [c.fp]
  {
  }

  ghost function AllPrints(files: seq<seq<Chunk>>): seq<Fp> {
    if files == [] then [] else AllPrints(files[..|files| - 1]) + Prints(files[|files| - 1])
  }

  lemma {:induction false} RunsKeepGood(m: Model, files: seq<seq<Chunk>>, noise: Noise)
    requires Good(m)
    ensures Good(AllRuns(m, files, noise))
  {
    hide Good, ReadFile, Restart;
    if files != [] {
      var before := AllRuns(m, files[..|files| - 1], noise);
      RunsKeepGood(m, files[..|files| - 1], noise);
      FileKeepsGood(before, files[|files| - 1], noise);
      RestartKeepsGood(ReadFile(before, files[|files| - 1], noise));
    }
  }

  /** Any number of files and restarts with separate fingerprints: exactly the first occurrences are stored. */
  lemma {:induction false} RunsAreExact(m: Model, files: seq<seq<Chunk>>, noise: Noise)
    requires Good(m) && Separate(m.index.Keys + KeysOf(AllPrints(files)))
    ensures ExactAfter(m, AllRuns(m, files, noise), AllPrints(files))
  {
    hide Good, ReadFile, Restart, Firsts, Separate, Prints;
    NoFirsts(m.index.Keys);
    if files != [] {
      var front, file := files[..|files| - 1], files[|files| - 1];
      var before := AllRuns(m, front, noise);
      FewerAreSeparate(m.index.Keys + KeysOf(AllPrints(front)), m.index.Keys + KeysOf(AllPrints(files)));
      RunsAreExact(m, front, noise);
      RunsKeepGood(m, front, noise);
      assert before.index.Keys + KeysOf(Prints(file)) == m.index.Keys + KeysOf(AllPrints(files));
      FileIsExact(before, file, noise);
      FirstsConcat(m.index.Keys, AllPrints(front), Prints(file));
      RestartKeepsStored(ReadFile(before, file, noise));
    }
  }

  lemma RestartKeepsStored(m: Model)
    ensures Restart(m).index == m.index && Restart(m).uniques == m.uniques
  {
  }

  // ---------------------------------------------------------------- when it is not

  /** A file with `a`, and then one with `a` and `b`, in two runs. */
  ghost function TwoRuns(a: Fp, b: Fp): seq<seq<Chunk>> {
    [[Chunk(a, 0)], [Chunk(a, 0), Chunk(b, 0)]]
  }

  /**
  Two different keys that are one string: if memory holds the bytes of `b` where the container of
  `a` is written, loading it puts `b` into the cache, and `b` is never stored.
   */
  lemma ConfusedKeysAreLost(a: Fp, b: Fp, max: nat)
    requires a != b && SameString(a, b, 0) && max > 0
    ensures AllRuns(Empty(max), TwoRuns(a, b), (_, _) => b).uniques == [a]
    ensures Firsts({}, AllPrints(TwoRuns(a, b))) == [a, b]
  {
    hide SameString, AsWritten, HasAlias, Reversed, Firsts, AllPrints;
    var noise: Noise := (_, _) => b;
    var files := TwoRuns(a, b);
    FirstsOfTwoRuns(a, b);
    FirstRun(a, b, max, noise);
    SecondRun(a, b, max, noise);
    assert files[..1] == [[Chunk(a, 0)]] && files[..1][..0] == [];
    RestartKeepsStored(ReadFile(AfterFirst(a, max), files[1], noise));
    assert AllRuns(Empty(max), files[..1][..0], noise) == Empty(max);
    assert AllRuns(Empty(max), files[..1], noise) == Restart(ReadFile(Empty(max), [Chunk(a, 0)], noise));
  }

  ghost function AfterFirst(a: Fp, max: nat): Model {
    Model([], max, map[a := 0], [[a]], [], 0, [a], [[0]], [])
  }

  lemma FirstRun(a: Fp, b: Fp, max: nat, noise: Noise)
    ensures Restart(ReadFile(Empty(max), [Chunk(a, 0)], noise)) == AfterFirst(a, max)
  {
    hide SameString, Bucket;
    var m, chunks := Empty(max), [Chunk(a, 0)];
    assert chunks[..0] == [];
    assert ReadFile(m, chunks[..0], noise) == m;
    assert !HasAlias(m.cache, a);
    assert Stored(m, Chunk(a, 0)) == Model([], max, map[a := 0], [], [a], 0, [a], [], [0]);
  }

  lemma SecondRun(a: Fp, b: Fp, max: nat, noise: Noise)
    requires SameString(a, b, 0) && max > 0 && noise(0, 0) == b
    ensures ReadFile(AfterFirst(a, max), [Chunk(a, 0), Chunk(b, 0)], noise).uniques == [a]
  {
    hide SameString, Bucket, AsWritten;
    var m, chunks := AfterFirst(a, max), [Chunk(a, 0), Chunk(b, 0)];
    assert chunks[..1] == [Chunk(a, 0)] && chunks[..1][..0] == [];
    assert ReadFile(m, chunks[..1][..0], noise) == m;
    WrittenIsSameString(a, b);
    var fps := Shown([a], 0, noise);
    assert fps == [b] && fps[..0] == [];
    assert !HasAlias([], b) && !HasAlias(m.cache, a);
    assert PutAll([], fps[..0], max) == [];
    assert PutAll([], [b], max) == [b];
    var m1 := m.(cache := [b]);
    assert Step(m, Chunk(a, 0), noise) == m1;
    assert ReadFile(m, chunks[..1], noise) == m1;
    AliasReflexive(b);
    assert HasAlias([b], b) by {
      assert Alias([b][0], b);
    }
    assert Step(m1, Chunk(b, 0), noise).uniques == [a];
  }

  lemma FirstsOfTwoRuns(a: Fp, b: Fp)
    requires a != b
    ensures AllPrints(TwoRuns(a, b)) == [a, a, b] && Firsts({}, AllPrints(TwoRuns(a, b))) == [a, b]
  {
    hide Firsts;
    var files := TwoRuns(a, b);
    assert files[..1] == [[Chunk(a, 0)]] && files[..1][..0] == [];
    assert AllPrints(files[..1]) == [a];
    assert [a, a, b] == [a, a] + [b] && [a, a] == [a] + [a] && [a] == [] + [a];
    NoFirsts({});
    FirstsAppend({}, [], a);
    FirstsAppend({}, [a], a);
    FirstsAppend({}, [a, a], b);
  }

  /** The answer is exact for every capacity, whatever is read and whatever memory holds. */
  ghost predicate AlwaysExact(K: set<Fp>) {
    forall max, files: seq<seq<Chunk>>, noise: Noise :: KeysOf(AllPrints(files)) <= K ==>
      AllRuns(Empty(max), files, noise).uniques == Firsts({}, AllPrints(files))
  }

  /** Deduplication over a set of fingerprints is exact if and only if no two of them are the same string. */
  lemma ExactIffSeparate(K: set<Fp>)
    ensures AlwaysExact(K) <==> Separate(K)
  {
    hide SameString, AllRuns, Firsts, AllPrints;
    if Separate(K) {
      forall max, files: seq<seq<Chunk>>, noise: Noise | KeysOf(AllPrints(files)) <= K
        ensures AllRuns(Empty(max), files, noise).uniques == Firsts({}, AllPrints(files))
      {
        SeparateRuns(K, max, files, noise);
      }
    } else {
      var a, b :| a in K && b in K && SameString(a, b, 0) && a != b;
      ConfusedKeysAreLost(a, b, 1);
      FirstsOfTwoRuns(a, b);
      assert KeysOf(AllPrints(TwoRuns(a, b))) <= K;
    }
  }

  lemma SeparateRuns(K: set<Fp>, max: nat, files: seq<seq<Chunk>>, noise: Noise)
    requires Separate(K) && KeysOf(AllPrints(files)) <= K
    ensures AllRuns(Empty(max), files, noise).uniques == Firsts({}, AllPrints(files))
  {
    hide Separate, AllRuns, Firsts, AllPrints, Good;
    var m := Empty(max);
    EmptyIsGood(max);
    assert m.index.Keys == {};
    assert m.index.Keys + KeysOf(AllPrints(files)) == KeysOf(AllPrints(files));
    FewerAreSeparate(KeysOf(AllPrints(files)), K);
    RunsAreExact(m, files, noise);
  }

  const FIRST_KEY: Fp := [0, 1, 1, 1, 1, 6]
  const OTHER_KEY: Fp := [0, 1, 1, 1, 2, 1]

  lemma KeysCollide()
    ensures FIRST_KEY != OTHER_KEY && Alias(FIRST_KEY, OTHER_KEY)
    ensures HasAlias([FIRST_KEY], OTHER_KEY) && OTHER_KEY !in [FIRST_KEY]
  {
    assert FIRST_KEY[4] == 1 && OTHER_KEY[4] == 2;
    HashOfKeys();
    assert [FIRST_KEY][0] == FIRST_KEY;
  }

  lemma HashOfKeys()
    ensures StrHash(FIRST_KEY, FP_SIZE) == StrHash(OTHER_KEY, FP_SIZE)
  {
    assert StrHash(FIRST_KEY, 4) == 31 && StrHash(OTHER_KEY, 4) == 31 by {
      assert StrHash(FIRST_KEY, 2) == 1 && StrHash(OTHER_KEY, 2) == 1;
      assert StrHash(FIRST_KEY, 3) == 6 && StrHash(OTHER_KEY, 3) == 6;
    }
    assert StrHash(FIRST_KEY, 5) == 156 && StrHash(OTHER_KEY, 5) == 157;
    assert StrHash(FIRST_KEY, 6) == 786 && StrHash(OTHER_KEY, 6) == 786;
  }

  /** Within one run, whatever memory holds: the second key is taken for the first and never stored. */
  lemma CollidingKeyIsLost(max: nat, noise: Noise)
    requires max > 0
    ensures var chunks := [Chunk(FIRST_KEY, 0), Chunk(FIRST_KEY, 0), Chunk(OTHER_KEY, 0)];
            && ReadFile(Empty(max), chunks, noise).uniques == [FIRST_KEY]
            && Firsts({}, Prints(chunks)) == [FIRST_KEY, OTHER_KEY]
  {
    hide SameString, Bucket, Firsts;
    KeysCollide();
    var a, b := FIRST_KEY, OTHER_KEY;
    hide *;
    AliasIsLost(a, b, max, noise);
  }

  lemma AliasIsLost(a: Fp, b: Fp, max: nat, noise: Noise)
    requires a != b && Alias(a, b) && max > 0
    ensures var chunks := [Chunk(a, 0), Chunk(a, 0), Chunk(b, 0)];
            && ReadFile(Empty(max), chunks, noise).uniques == [a]
            && Firsts({}, Prints(chunks)) == [a, b]
  {
    hide Alias, Firsts;
    var m, chunks := Empty(max), [Chunk(a, 0), Chunk(a, 0), Chunk(b, 0)];
    FirstsOfTwoRuns(a, b);
    FirstsOfThree(a, b);
    assert chunks[..2] == [Chunk(a, 0), Chunk(a, 0)] && chunks[..2][..1] == [Chunk(a, 0)];
    assert chunks[..2][..1][..0] == [];
    assert ReadFile(m, chunks[..2][..1][..0], noise) == m;
    var m1 := Model([], max, map[a := 0], [], [a], 0, [a], [], [0]);
    assert Stored(m, Chunk(a, 0)) == m1;
    assert ReadFile(m, chunks[..2][..1], noise) == m1;
    assert [a][..0] == [] && PutAll([], [a][..0], max) == [] && !HasAlias([], a);
    assert PutAll([], [a], max) == [a];
    var m2 := m1.(cache := [a]);
    assert Step(m1, Chunk(a, 0), noise) == m2;
    assert ReadFile(m, chunks[..2], noise) == m2;
    assert HasAlias([a], b) by {
      assert Alias([a][0], b);
    }
    assert Step(m2, Chunk(b, 0), noise).uniques == [a];
  }

  lemma FirstsOfThree(a: Fp, b: Fp)
    requires Firsts({}, [a, a, b]) == [a, b] || a == b
    ensures a != b ==> Firsts({}, Prints([Chunk(a, 0), Chunk(a, 0), Chunk(b, 0)])) == [a, b]
  {
    hide Firsts;
    assert Prints([Chunk(a, 0), Chunk(a, 0), Chunk(b, 0)]) == [a, a, b];
  }

  // ---------------------------------------------------------------- the whole system

  ghost predicate OnDisk(disk: map<nat, seq<string>>, stored: seq<seq<Fp>>, noise: Noise) {
    && (forall c :: c in disk <==> 0 <= c < |stored|)
    && (forall c :: 0 <= c < |stored| ==> disk[c] == PrintLines(Shown(stored[c], c, noise)))
  }

  lemma {:induction false} FlushKeepsDisk(disk: map<nat, seq<string>>, stored: seq<seq<Fp>>, tmp: seq<Fp>, noise: Noise)
    requires OnDisk(disk, stored, noise)
    ensures OnDisk(disk[|stored| := PrintLines(Shown(tmp, |stored|, noise))], stored + [tmp], noise)
  {
    hide PrintLines, Shown;
  }

  lemma FlushIs(m: Model)
    ensures Flush(m) == if m.tmp == [] then m
                        else m.(stored := m.stored + [m.tmp], tmp := [], size := 0, packed := m.packed + [m.packing],
                                packing := [])
  {
  }

  lemma InsertedIs(m: Model, key: Fp, size: nat, packing: seq<nat>)
    ensures Inserted(m, key, size, packing)
         == m.(tmp := m.tmp + [key], size := size, index := m.index[key := |m.stored|], uniques := m.uniques + [key],
               packing := packing)
  {
  }

  lemma StoredIs(m: Model, c: Chunk)
    ensures var m1 := if m.size + c.size > MAX_SIZE then Flush(m) else m;
            Stored(m, c) == Inserted(m1, c.fp, m1.size + c.size, m1.packing + [c.size])
  {
  }

  class Ddfs {
    const noise: Noise
    var cache: LruCache
    var bloom: Bloom
    var index: map<Fp, nat>
    var tmp: seq<Fp>
    var nowSize: nat
    var nowId: nat
    var disk: map<nat, seq<string>>
    var manifest: nat
    var updateAccess: nat
    /** The containers flushed and all chunks stored so far. */
    ghost var stored: seq<seq<Fp>>
    ghost var uniques: seq<Fp>
    ghost var packed: seq<seq<nat>>
    ghost var packing: seq<nat>

    ghost function View(): Model
      requires cache.Valid()
      reads this, cache
    {
      Model(cache.Contents(), cache.maxSize, index, stored, tmp, nowSize, uniques, packed, packing)
    }

    ghost predicate Valid()
      reads this, cache, bloom, bloom.bf
    {
      && cache.Valid() && bloom.Valid() && Good(View()) && OnDisk(disk, stored, noise)
      && nowId == manifest == |stored|
      && (forall k :: k in index ==> bloom.Has(k))
    }

    constructor (cache: LruCache, bloom: Bloom, noise: Noise)
      requires cache.Valid() && cache.Contents() == [] && bloom.Valid()
      ensures Valid() && View() == Empty(cache.maxSize) && updateAccess == 0
      ensures this.cache == cache && this.bloom == bloom && this.noise == noise
    {
      this.cache, this.bloom, this.noise, index, tmp, nowSize, nowId := cache, bloom, noise, map[], [], 0, 0;
      disk, manifest, updateAccess, stored, uniques, packed, packing := map[], 0, 0, [], [], [], [];
    }

    /** pocessw: writes the container being filled, unless it is empty. */
    method FlushContainer() returns (written: bool)
      requires cache.Valid() && OnDisk(disk, stored, noise) && nowId == manifest == |stored|
      modifies this`tmp, this`nowSize, this`nowId, this`disk, this`manifest, this`stored, this`packed, this`packing
      ensures OnDisk(disk, stored, noise) && nowId == manifest == |stored|
      ensures written == (old(tmp) != []) && View() == Flush(old(View()))
    {
      hide *;
      ViewIs();
      FlushIs(View());
      if tmp == [] {
        return false;
      }
      FlushKeepsDisk(disk, stored, tmp, noise);
      disk := disk[nowId := PrintLines(Shown(tmp, nowId, noise))];
      stored, packed, packing := stored + [tmp], packed + [packing], [];
      nowId := nowId + 1;
      tmp, nowSize, manifest := [], 0, nowId;
      written := true;
      ViewIs();
    }

    /** loadtonode: the container with number `id`, from its file or from memory. */
    method LoadContainer(id: nat) returns (fps: Option<seq<Fp>>)
      requires Valid()
      ensures fps == if id <= |stored| then Some(Loaded(View(), id, noise)) else None
    {
      hide Good, PrintLines, Shown, LruFingerprints.Sound, LruFingerprints.Keys;
      if id in disk {
        var r := ReadLines(disk[id], Shown(stored[id], id, noise));
        fps := Some(r);
      } else if id == nowId {
        fps := Some(tmp);
      } else {
        fps := None;
      }
    }

    /** fpindex.insert: adds the key unless it is there; -1, as in the source, if it was. */
    method IndexInsert(key: Fp, id: nat) returns (r: int)
      modifies this`index
      ensures key in old(index) ==> r == -1 && index == old(index)
      ensures key !in old(index) ==> r == 1 && index == old(index)[key := id]
    {
      if key in index {
        return -1;
      }
      index := index[key := id];
      r := 1;
    }

    /** bloom_add: the new key passes from now on, and so does every key that did. */
    method AddToFilter(key: Fp)
      requires bloom.Valid() && forall k :: k in index ==> bloom.Has(k)
      modifies bloom.bf
      ensures bloom.Has(key) && forall k :: k in index ==> bloom.Has(k)
    {
      hide BloomFilter.Contains, BloomFilter.Grows;
      ghost var before := bloom.bf[..];
      var present := bloom.CheckAdd(key, true);
      forall k | k in index
        ensures bloom.Has(k)
      {
        GrowsKeeps(before, bloom.bf[..], bloom.hash, bloom.hashes, bloom.bits, k);
      }
    }

    /** Puts a new key into the container being filled, and into the index under its number. */
    method InsertChunk(key: Fp, size: nat)
      requires cache.Valid() && OnDisk(disk, stored, noise) && nowId == manifest == |stored| && key !in index
      modifies this`index, this`tmp, this`nowSize, this`nowId, this`disk, this`manifest, this`stored, this`uniques,
               this`updateAccess, this`packed, this`packing
      ensures OnDisk(disk, stored, noise) && nowId == manifest == |stored|
      ensures View() == Stored(old(View()), Chunk(key, size)) && updateAccess == old(updateAccess) + 1
    {
      hide *;
      ViewIs();
      StoredIs(View(), Chunk(key, size));
      FlushIs(View());
      if nowSize + size > MAX_SIZE {
        var written := FlushContainer();
        ViewIs();
      }
      AppendChunk(key, size);
    }

    method AppendChunk(key: Fp, size: nat)
      requires cache.Valid() && nowId == |stored| && key !in index
      modifies this`index, this`tmp, this`nowSize, this`uniques, this`updateAccess, this`packing
      ensures View() == Inserted(old(View()), key, old(nowSize) + size, old(packing) + [size])
      ensures updateAccess == old(updateAccess) + 1
    {
      hide *;
      ViewIs();
      InsertedIs(View(), key, nowSize + size, packing + [size]);
      nowSize := nowSize + size;
      tmp := tmp + [key];
      var r := IndexInsert(key, nowId);
      uniques, packing := uniques + [key], packing + [size];
      updateAccess := updateAccess + 1;
      ViewIs();
    }

    lemma ViewIs()
      requires cache.Valid()
      ensures View() == Model(cache.Contents(), cache.maxSize, index, stored, tmp, nowSize, uniques, packed, packing)
    {
    }

    /** punique: stores a chunk whose fingerprint is new. */
    method StoreUnique(key: Fp, size: nat)
      requires Valid() && key !in index
      modifies this, bloom.bf
      ensures Valid() && unchanged(`cache, `bloom) && unchanged(cache)
      ensures View() == Stored(old(View()), Chunk(key, size)) && updateAccess == old(updateAccess) + 1
    {
      hide Good, OnDisk, BloomFilter.Contains, LruFingerprints.Sound, LruFingerprints.Keys, Stored;
      StoredKeepsGood(View(), Chunk(key, size));
      StoredIndex(View(), Chunk(key, size));
      ghost var before := View();
      AddToFilter(key);
      InsertChunk(key, size);
      assert forall k :: k in index.Keys ==> k in before.index.Keys || k == key;
    }

    /** Loads a container into the cache. */
    method CacheContainer(fps: seq<Fp>)
      requires cache.Valid()
      modifies cache
      ensures cache.Valid() && cache.Contents() == PutAll(old(cache.Contents()), fps, cache.maxSize)
    {
      hide LruFingerprints.Sound, LruFingerprints.Keys, Put;
      for i := 0 to |fps|
        invariant cache.Valid() && cache.Contents() == PutAll(old(cache.Contents()), fps[..i], cache.maxSize)
      {
        assert fps[..i + 1][..i] == fps[..i];
        var added := cache.PutData(fps[i]);
      }
      assert fps[..|fps|] == fps;
    }

    /**
    One chunk of read_hashes.  The filter and the index only change the way to the answer, and no
    load ever fails; the cache makes a new chunk look old exactly if it takes its key for another.
     */
    method ReadHash(key: Fp, size: nat) returns (isNew: bool)
      requires Valid()
      modifies this, cache, bloom.bf
      ensures Valid() && unchanged(`cache, `bloom)
      ensures isNew <==> IsStored(old(View()), key)
      ensures View() == Step(old(View()), Chunk(key, size), noise)
      ensures updateAccess == old(updateAccess) + if isNew then 1 else 0
    {
      hide Good, OnDisk, BloomFilter.Contains, LruFingerprints.Sound, LruFingerprints.Keys, Loaded, PutAll, Used, Stored,
           HasAlias;
      ghost var m := View();
      StepKeepsGood(m, Chunk(key, size), noise);
      var cached := cache.Find(key);
      if cached {
        return false;
      }
      assert View() == m by {
        NothingUsed(m.cache, key);
      }
      var maybe := bloom.CheckAdd(key, false);
      if !maybe || key !in index {
        StoreUnique(key, size);
        return true;
      }
      var fps := LoadContainer(index[key]);
      assert fps.Some?;
      CacheContainer(fps.value);
      isNew := false;
    }

    /** The chunks of one file. */
    method ReadHashes(chunks: seq<Chunk>)
      requires Valid()
      modifies this, cache, bloom.bf
      ensures Valid() && unchanged(`cache, `bloom)
      ensures View() == ReadFile(old(View()), chunks, noise)
      ensures updateAccess - old(updateAccess) == |uniques| - |old(uniques)|
    {
      hide Good, OnDisk, BloomFilter.Contains, LruFingerprints.Sound, LruFingerprints.Keys, Step, IsStored;
      for i := 0 to |chunks|
        invariant Valid() && unchanged(`cache, `bloom)
        invariant View() == ReadFile(old(View()), chunks[..i], noise)
        invariant updateAccess - old(updateAccess) == |uniques| - |old(uniques)|
      {
        assert chunks[..i + 1][..i] == chunks[..i];
        StepCounts(View(), chunks[i], noise);
        var isNew := ReadHash(chunks[i].fp, chunks[i].size);
      }
      assert chunks[..|chunks|] == chunks;
    }

    /** The end of a run: the container being filled goes to disk. */
    method EndRun()
      requires Valid()
      modifies this`tmp, this`nowSize, this`nowId, this`disk, this`manifest, this`stored, this`packed, this`packing
      ensures Valid() && View() == Flush(old(View())) && tmp == []
    {
      hide Good, OnDisk, BloomFilter.Contains, LruFingerprints.Sound, LruFingerprints.Keys;
      FlushKeepsGood(View());
      var written := FlushContainer();
    }

    /** The start of the next run: of the cache only the order of use is lost, and the counter starts again. */
    method StartRun()
      requires Valid() && tmp == []
      modifies this`cache, this`bloom, this`nowSize, this`nowId, this`updateAccess
      ensures Valid() && fresh(cache) && fresh(bloom) && fresh(bloom.bf) && updateAccess == 0
      ensures View() == Restart(old(View())) && bloom.bf[..] == old(bloom.bf[..])
    {
      hide Good, OnDisk, BloomFilter.Contains, LruFingerprints.Sound, LruFingerprints.Keys, Reversed;
      RestartKeepsGood(View());
      var cache' := ReloadCache(cache);
      var bloom' := ReloadFilter(bloom);
      cache, bloom, nowSize, nowId, updateAccess := cache', bloom', 0, manifest, 0;
    }

    /**
    Any number of files, each in a run of its own; returns the number of chunks each run reports as
    stored.  If no two fingerprints are the same string, exactly the first occurrences are stored.
     */
    method Runs(files: seq<seq<Chunk>>) returns (accesses: seq<nat>)
      requires Valid() && View() == Empty(cache.maxSize) && updateAccess == 0
      modifies this, cache, bloom.bf
      ensures Valid() && View() == AllRuns(Empty(old(cache.maxSize)), files, noise)
      ensures |accesses| == |files| && Total(accesses) == |uniques|
      ensures Separate(KeysOf(AllPrints(files))) ==> uniques == Firsts({}, AllPrints(files))
      ensures Separate(KeysOf(AllPrints(files))) ==>
                forall i :: 0 <= i < |files| ==>
                  accesses[i] == |Firsts(KeysOf(AllPrints(files[..i])), Prints(files[i]))|
    {
      hide Good, OnDisk, BloomFilter.Contains, LruFingerprints.Sound, LruFingerprints.Keys, ReadFile, Separate, Firsts,
           AllPrints, Restart;
      ghost var start := View();
      accesses := [];
      for i := 0 to |files|
        invariant Valid() && View() == AllRuns(start, files[..i], noise) && updateAccess == 0
        invariant cache == old(cache) || fresh(cache)
        invariant bloom.bf == old(bloom.bf) || fresh(bloom.bf)
        invariant |accesses| == i && Total(accesses) == |uniques|
        invariant Separate(KeysOf(AllPrints(files))) ==>
                    forall k :: 0 <= k < i ==> accesses[k] == |Firsts(KeysOf(AllPrints(files[..k])), Prints(files[k]))|
      {
        ghost var before := View();
        assert files[..i + 1][..i] == files[..i];
        ReadHashes(files[i]);
        if Separate(KeysOf(AllPrints(files))) {
          CountOfRun(start, files, i, noise);
        }
        ghost var count := updateAccess;
        accesses := accesses + [updateAccess];
        assert accesses[..i] + [count] == accesses && accesses[..|accesses| - 1] == accesses[..i];
        RestartKeepsStored(View());
        EndRun();
        FlushTwice(before, files[i], noise);
        StartRun();
      }
      assert files[..|files|] == files;
      if Separate(KeysOf(AllPrints(files))) {
        SeparateRuns(KeysOf(AllPrints(files)), start.max, files, noise);
      }
    }
  }

  lemma FlushTwice(m: Model, chunks: seq<Chunk>, noise: Noise)
    ensures var f := ReadFile(m, chunks, noise); Restart(Flush(f)) == Restart(f)
  {
    hide ReadFile, Reversed;
  }

  /** How many chunks run `i` stores. */
  lemma CountOfRun(m: Model, files: seq<seq<Chunk>>, i: nat, noise: Noise)
    requires Good(m) && m.index.Keys == {} && i < |files| && Separate(KeysOf(AllPrints(files)))
    ensures var before := AllRuns(m, files[..i], noise);
            |ReadFile(before, files[i], noise).uniques| - |before.uniques|
            == |Firsts(KeysOf(AllPrints(files[..i])), Prints(files[i]))|
  {
    hide Good, AllRuns, ReadFile, Separate, Firsts, AllPrints, Prints;
    var before := AllRuns(m, files[..i], noise);
    var all, some, file := KeysOf(AllPrints(files)), KeysOf(AllPrints(files[..i])), KeysOf(Prints(files[i]));
    PrintsOfPrefix(files, i);
    PrintsOfPrefix(files, i + 1);
    OneMoreFile(files, i);
    assert m.index.Keys + some == some;
    FewerAreSeparate(some, all);
    FewerAreSeparate(some + file, all);
    RunsAreExact(m, files[..i], noise);
    RunsKeepGood(m, files[..i], noise);
    FileIsExact(before, files[i], noise);
  }

  lemma OneMoreFile(files: seq<seq<Chunk>>, i: nat)
    requires i < |files|
    ensures AllPrints(files[..i + 1]) == AllPrints(files[..i]) + Prints(files[i])
  {
    assert files[..i + 1][..i] == files[..i];
  }

  lemma {:induction false} PrintsOfPrefix(files: seq<seq<Chunk>>, i: nat)
    requires i <= |files|
    ensures KeysOf(AllPrints(files[..i])) <= KeysOf(AllPrints(files))
    decreases |files|
  {
    hide Prints;
    if i == |files| {
      assert files[..i] == files;
    } else {
      PrintsOfPrefix(files[..|files| - 1], i);
      assert files[..|files| - 1][..i] == files[..i];
    }
  }

  ghost function Total(s: seq<nat>): nat {
    if s == [] then 0 else Total(s[..|s| - 1]) + s[|s| - 1]
  }

  lemma NothingUsed(keys: seq<Fp>, key: Fp)
    requires !HasAlias(keys, key)
    ensures Used(keys, key) == keys
  {
  }

  lemma StepCounts(m: Model, c: Chunk, noise: Noise)
    ensures |Step(m, c, noise).uniques| == |m.uniques| + if IsStored(m, c.fp) then 1 else 0
  {
    hide HasAlias, Used, PutAll, Loaded;
    StoredIndex(m, c);
  }

  /** A new cache filled from what the old one saved. */
  method ReloadCache(cache: LruCache) returns (cache': LruCache)
    requires cache.Valid()
    ensures fresh(cache') && cache'.Valid() && cache'.Contents() == Reversed(cache.Contents())
    ensures cache'.maxSize == cache.maxSize
  {
    hide LruFingerprints.Sound, LruFingerprints.Keys, Reversed;
    CacheIsDistinct(cache);
    var saved := cache.OutputConf();
    cache' := new LruCache(cache.maxSize);
    cache'.InitConf(saved);
  }

  /** A new filter with the bits the old one saved. */
  method ReloadFilter(bloom: Bloom) returns (bloom': Bloom)
    requires bloom.Valid()
    ensures fresh(bloom') && fresh(bloom'.bf) && bloom'.Valid() && bloom'.bf[..] == bloom.bf[..]
    ensures forall k :: bloom.Has(k) <==> bloom'.Has(k)
  {
    hide BloomFilter.Contains, PrintOctets;
    var text := bloom.Save();
    bloom' := new Bloom(bloom.bits, bloom.hashes, bloom.hash);
    bloom'.Restore(text, bloom.bf[..]);
  }

  lemma CacheIsDistinct(cache: LruCache)
    requires cache.Valid()
    ensures |cache.Contents()| <= cache.maxSize && NoAliases(cache.Contents())
  {
    hide LruFingerprints.Keys, LruFingerprints.At, LruFingerprints.Bucket, Alias;
    SoundFacts(cache.memory, cache.table, cache.nodes, cache.head, cache.back, cache.free);
    HasKeyIsIn(cache.memory, cache.table, cache.nodes, FIRST_KEY);
  }
}
