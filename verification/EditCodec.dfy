/** Version edits as bytes in the manifest (util/leveldb/db/version_edit.cc). */
module EditCodec {
  import opened Common
  import opened Keys
  import opened Coding
  import opened Varints

  const NUM_LEVELS: nat := 7

  datatype NewFile = NewFile(level: nat, number: nat, size: nat, smallest: Bytes, largest: Bytes)

  /** A version edit; the deleted files are a set, as in the source. */
  datatype VersionEdit = VersionEdit(comparator: Option<Bytes>, logNumber: Option<nat>, prevLogNumber: Option<nat>,
                                     nextFileNumber: Option<nat>, lastSequence: Option<nat>,
                                     compactPointers: seq<(nat, Bytes)>, deleted: set<(nat, nat)>,
                                     newFiles: seq<NewFile>)

  /** One tagged item of an encoded edit. */
  datatype Field =
    | Comparator(name: Bytes)
    | LogNumber(number: nat)
    | PrevLogNumber(number: nat)
    | NextFileNumber(number: nat)
    | LastSequence(number: nat)
    | CompactPointer(level: nat, key: Bytes)
    | DeletedFile(level: nat, number: nat)
    | Added(file: NewFile)

  // ---------------------------------------------------------------- taking values off the front

  datatype Taken<T> = Taken(value: T, rest: Bytes)

  function TakeVarint32(b: Bytes): (r: Option<Taken<nat>>)
    ensures r.Some? ==> |r.value.rest| < |b|
  {
    match GetVarint32(b) case None => None case Some(v) => Some(Taken(v.value, b[v.size..]))
  }

  function TakeVarint64(b: Bytes): (r: Option<Taken<nat>>)
    ensures r.Some? ==> |r.value.rest| < |b|
  {
    match GetVarint64(b) case None => None case Some(v) => Some(Taken(v.value, b[v.size..]))
  }

  function TakePrefixed(b: Bytes): (r: Option<Taken<Bytes>>)
    ensures r.Some? ==> |r.value.rest| < |b|
  {
    match ParsePrefixed(b) case None => None case Some(p) => Some(Taken(p.data, b[p.size..]))
  }

  /** GetLevel: a level must be one of the seven. */
  function TakeLevel(b: Bytes): (r: Option<Taken<nat>>)
    ensures r.Some? ==> |r.value.rest| < |b|
  {
    var v := TakeVarint32(b);
    if v.Some? && v.value.value < NUM_LEVELS then v else None
  }

  lemma TakeBack(n: nat, m: nat, s: Bytes, rest: Bytes)
    ensures n < TWO_32 ==> TakeVarint32(VarintBytes(n) + rest) == Some(Taken(n, rest))
    ensures m < TWO_64 ==> TakeVarint64(VarintBytes(m) + rest) == Some(Taken(m, rest))
    ensures n < NUM_LEVELS ==> TakeLevel(VarintBytes(n) + rest) == Some(Taken(n, rest))
    ensures |s| < TWO_32 ==> TakePrefixed(PrefixedBytes(s) + rest) == Some(Taken(s, rest))
  {
    hide VarintBytes, PrefixedBytes, GetVarint32, GetVarint64, ParsePrefixed;
    assert (VarintBytes(n) + rest)[|VarintBytes(n)|..] == rest && (VarintBytes(m) + rest)[|VarintBytes(m)|..] == rest;
    assert (PrefixedBytes(s) + rest)[|PrefixedBytes(s)|..] == rest;
    if n < TWO_32 {
      Varint32RoundTrip(n, rest);
    }
    if m < TWO_64 {
      Varint64RoundTrip(m, rest);
    }
    if |s| < TWO_32 {
      PrefixedRoundTrip(s, rest);
    }
  }

  // ---------------------------------------------------------------- fields

  function Tag(f: Field): (t: nat) {
    match f
    case Comparator(_) => 1
    case LogNumber(_) => 2
    case NextFileNumber(_) => 3
    case LastSequence(_) => 4
    case CompactPointer(_, _) => 5
    case DeletedFile(_, _) => 6
    case Added(_) => 7
    case PrevLogNumber(_) => 9
  }

  function BodyBytes(f: Field): (b: Bytes) {
    match f
    case Comparator(name) => PrefixedBytes(name)
    case LogNumber(n) => VarintBytes(n)
    case PrevLogNumber(n) => VarintBytes(n)
    case NextFileNumber(n) => VarintBytes(n)
    case LastSequence(n) => VarintBytes(n)
    case CompactPointer(level, key) => VarintBytes(level) + PrefixedBytes(key)
    case DeletedFile(level, n) => VarintBytes(level) + VarintBytes(n)
    case Added(f) =>
      VarintBytes(f.level) + (VarintBytes(f.number) + (VarintBytes(f.size) + (PrefixedBytes(f.smallest) + PrefixedBytes(f.largest))))
  }

  function FieldBytes(f: Field): (b: Bytes) {
    VarintBytes(Tag(f)) + BodyBytes(f)
  }

  /** The bytes of each kind of field, with small numbers and one-byte strings. */
  lemma FieldLayout(l: Byte, n: Byte, x: Byte)
    requires l < 128 && n < 128
    ensures FieldBytes(Comparator([x])) == [1, 1, x]
    ensures FieldBytes(LogNumber(n)) == [2, n] && FieldBytes(PrevLogNumber(n)) == [9, n]
    ensures FieldBytes(NextFileNumber(n)) == [3, n] && FieldBytes(LastSequence(n)) == [4, n]
    ensures FieldBytes(CompactPointer(l, [x])) == [5, l, 1, x]
    ensures FieldBytes(DeletedFile(l, n)) == [6, l, n]
  {
  }

  lemma NewFileLayout(l: Byte, n: Byte, z: Byte, x: Byte, y: Byte)
    requires l < 128 && n < 128 && z < 128
    ensures FieldBytes(Added(NewFile(l, n, z, [x], [y]))) == [7, l, n, z, 1, x, 1, y]
  {
    assert PrefixedBytes([x]) == [1, x] && PrefixedBytes([y]) == [1, y];
    hide PrefixedBytes;
    assert VarintBytes(z) + (PrefixedBytes([x]) + PrefixedBytes([y])) == [z, 1, x, 1, y];
  }

  /** Numbers have 64 bits, strings 32-bit lengths, and levels are the seven there are. */
  ghost predicate Fits(f: Field) {
    match f
    case Comparator(name) => |name| < TWO_32
    case CompactPointer(level, key) => level < NUM_LEVELS && |key| < TWO_32
    case DeletedFile(level, n) => level < NUM_LEVELS && n < TWO_64
    case Added(f) =>
      f.level < NUM_LEVELS && f.number < TWO_64 && f.size < TWO_64 && |f.smallest| < TWO_32 && |f.largest| < TWO_32
    case LogNumber(n) => n < TWO_64
    case PrevLogNumber(n) => n < TWO_64
    case NextFileNumber(n) => n < TWO_64
    case LastSequence(n) => n < TWO_64
  }

  /** What went wrong, by the name of the field that could not be read. */
  datatype Parsed = Good(field: Field, rest: Bytes) | Bad(what: nat)

  const UNKNOWN_TAG: nat := 100
  const INVALID_TAG: nat := 101

  /** The body of a field with a given tag. */
  function ParseBody(tag: nat, b: Bytes): (r: Parsed)
    ensures r.Good? ==> |r.rest| < |b|
  {
    if tag == 1 then
      match TakePrefixed(b) case None => Bad(tag) case Some(t) => Good(Comparator(t.value), t.rest)
    else if tag == 2 then
      match TakeVarint64(b) case None => Bad(tag) case Some(t) => Good(LogNumber(t.value), t.rest)
    else if tag == 9 then
      match TakeVarint64(b) case None => Bad(tag) case Some(t) => Good(PrevLogNumber(t.value), t.rest)
    else if tag == 3 then
      match TakeVarint64(b) case None => Bad(tag) case Some(t) => Good(NextFileNumber(t.value), t.rest)
    else if tag == 4 then
      match TakeVarint64(b) case None => Bad(tag) case Some(t) => Good(LastSequence(t.value), t.rest)
    else if tag == 5 then
      var l := TakeLevel(b);
      if l == None then Bad(tag)
      else
        match TakePrefixed(l.value.rest)
        case None => Bad(tag)
        case Some(k) => Good(CompactPointer(l.value.value, k.value), k.rest)
    else if tag == 6 then
      var l := TakeLevel(b);
      if l == None then Bad(tag)
      else
        match TakeVarint64(l.value.rest)
        case None => Bad(tag)
        case Some(n) => Good(DeletedFile(l.value.value, n.value), n.rest)
    else if tag == 7 then ParseNewFile(b)
    else Bad(UNKNOWN_TAG)
  }

  function ParseNewFile(b: Bytes): (r: Parsed)
    ensures r.Good? ==> |r.rest| < |b|
  {
    var l := TakeLevel(b);
    if l == None then Bad(7)
    else
      var n := TakeVarint64(l.value.rest);
      if n == None then Bad(7)
      else
        var z := TakeVarint64(n.value.rest);
        if z == None then Bad(7)
        else
          var s := TakePrefixed(z.value.rest);
          if s == None then Bad(7)
          else
            match TakePrefixed(s.value.rest)
            case None => Bad(7)
            case Some(t) => Good(Added(NewFile(l.value.value, n.value.value, z.value.value, s.value.value, t.value)), t.rest)
  }

  /** A level that there is not makes a field bad. */
  lemma BadLevel(n: nat, rest: Bytes, tag: nat)
    requires 7 <= n < TWO_32 && 5 <= tag <= 7
    ensures ParseBody(tag, VarintBytes(n) + rest) == Bad(tag)
  {
    TakeBack(n, 0, [], rest);
    hide TakeVarint32, VarintBytes;
  }

  /** Reading a field undoes writing it, whatever follows. */
  lemma BodyRoundTrip(f: Field, rest: Bytes)
    requires Fits(f)
    ensures ParseBody(Tag(f), BodyBytes(f) + rest) == Good(f, rest)
  {
    hide VarintBytes, PrefixedBytes, TakeVarint32, TakeVarint64, TakePrefixed, TakeLevel;
    match f
    case Comparator(name) => TakeBack(0, 0, name, rest);
    case LogNumber(n) => TakeBack(0, n, [], rest);
    case PrevLogNumber(n) => TakeBack(0, n, [], rest);
    case NextFileNumber(n) => TakeBack(0, n, [], rest);
    case LastSequence(n) => TakeBack(0, n, [], rest);
    case CompactPointer(level, key) =>
      assert VarintBytes(level) + PrefixedBytes(key) + rest == VarintBytes(level) + (PrefixedBytes(key) + rest);
      TakeBack(level, 0, [], PrefixedBytes(key) + rest);
      TakeBack(0, 0, key, rest);
    case DeletedFile(level, n) =>
      assert VarintBytes(level) + VarintBytes(n) + rest == VarintBytes(level) + (VarintBytes(n) + rest);
      TakeBack(level, 0, [], VarintBytes(n) + rest);
      TakeBack(0, n, [], rest);
    case Added(file) => NewFileRoundTrip(file, rest);
  }

  lemma NewFileRoundTrip(f: NewFile, rest: Bytes)
    requires Fits(Added(f))
    ensures ParseNewFile(BodyBytes(Added(f)) + rest) == Good(Added(f), rest)
  {
    hide VarintBytes, PrefixedBytes, TakeVarint64, TakePrefixed, TakeLevel;
    var l, n, z := VarintBytes(f.level), VarintBytes(f.number), VarintBytes(f.size);
    var s, t := PrefixedBytes(f.smallest), PrefixedBytes(f.largest);
    Nested(l, n, z, s, t, rest);
    TakeBack(f.level, 0, [], n + (z + (s + (t + rest))));
    TakeBack(0, f.number, [], z + (s + (t + rest)));
    TakeBack(0, f.size, [], s + (t + rest));
    TakeBack(0, 0, f.smallest, t + rest);
    TakeBack(0, 0, f.largest, rest);
  }

  lemma Nested(l: Bytes, n: Bytes, z: Bytes, s: Bytes, t: Bytes, rest: Bytes)
    ensures l + (n + (z + (s + t))) + rest == l + (n + (z + (s + (t + rest))))
  {
  }

  // ---------------------------------------------------------------- whole edits

  function AllBytes(fs: seq<Field>): (b: Bytes) {
    if fs == [] then [] else FieldBytes(fs[0]) + AllBytes(fs[1..])
  }

  lemma {:induction false} AllBytesAppend(fs: seq<Field>, gs: seq<Field>)
    ensures AllBytes(fs + gs) == AllBytes(fs) + AllBytes(gs)
  {
    hide FieldBytes;
    if fs == [] {
      assert fs + gs == gs;
    } else {
      assert (fs + gs)[1..] == fs[1..] + gs;
      AllBytesAppend(fs[1..], gs);
    }
  }

  function Pointers(ps: seq<(nat, Bytes)>): (fs: seq<Field>)
    ensures |fs| == |ps| && forall i :: 0 <= i < |ps| ==> fs[i] == CompactPointer(ps[i].0, ps[i].1)
  {
    if ps == [] then [] else Pointers(ps[..|ps| - 1]) + [CompactPointer(ps[|ps| - 1].0, ps[|ps| - 1].1)]
  }

  function Deletions(ds: seq<(nat, nat)>): (fs: seq<Field>)
    ensures |fs| == |ds| && forall i :: 0 <= i < |ds| ==> fs[i] == DeletedFile(ds[i].0, ds[i].1)
  {
    if ds == [] then [] else Deletions(ds[..|ds| - 1]) + [DeletedFile(ds[|ds| - 1].0, ds[|ds| - 1].1)]
  }

  function Additions(ns: seq<NewFile>): (fs: seq<Field>)
    ensures |fs| == |ns| && forall i :: 0 <= i < |ns| ==> fs[i] == Added(ns[i])
  {
    if ns == [] then [] else Additions(ns[..|ns| - 1]) + [Added(ns[|ns| - 1])]
  }

  function ComparatorField(e: VersionEdit): (fs: seq<Field>) {
    match e.comparator case None => [] case Some(name) => [Comparator(name)]
  }

  function LogField(e: VersionEdit): (fs: seq<Field>) {
    match e.logNumber case None => [] case Some(n) => [LogNumber(n)]
  }

  function PrevLogField(e: VersionEdit): (fs: seq<Field>) {
    match e.prevLogNumber case None => [] case Some(n) => [PrevLogNumber(n)]
  }

  function NextFileField(e: VersionEdit): (fs: seq<Field>) {
    match e.nextFileNumber case None => [] case Some(n) => [NextFileNumber(n)]
  }

  function LastSequenceField(e: VersionEdit): (fs: seq<Field>) {
    match e.lastSequence case None => [] case Some(n) => [LastSequence(n)]
  }

  function Numbers(e: VersionEdit): (fs: seq<Field>) {
    ComparatorField(e) + LogField(e) + PrevLogField(e) + NextFileField(e) + LastSequenceField(e)
  }

  /** The fields in the order they are written; `order` lists the deleted files as the set's iterator does. */
  function Fields(e: VersionEdit, order: seq<(nat, nat)>): (fs: seq<Field>) {
    Numbers(e) + (Pointers(e.compactPointers) + (Deletions(order) + Additions(e.newFiles)))
  }

  ghost predicate Lists(order: seq<(nat, nat)>, deleted: set<(nat, nat)>) {
    forall d :: d in order <==> d in deleted
  }

  /** EncodeTo. */
  method EncodeTo(e: VersionEdit, order: seq<(nat, nat)>) returns (dst: Bytes)
    requires Lists(order, e.deleted)
    ensures dst == AllBytes(Fields(e, order))
  {
    hide FieldBytes, Pointers, Deletions, Additions, AllBytes, Numbers;
    dst := EncodeNumbers(e);
    ghost var n, p, x, a := Numbers(e), Pointers(e.compactPointers), Deletions(order), Additions(e.newFiles);
    dst := PutFields(dst, Pointers(e.compactPointers), n);
    dst := PutFields(dst, Deletions(order), n + p);
    dst := PutFields(dst, Additions(e.newFiles), n + p + x);
    assert n + p + x + a == n + (p + (x + a));
  }

  lemma OneMoreField(fs: seq<Field>, f: Field)
    ensures AllBytes(fs + [f]) == AllBytes(fs) + FieldBytes(f)
  {
    hide FieldBytes;
    AllBytesAppend(fs, [f]);
    assert [f][1..] == [];
    assert AllBytes([f]) == FieldBytes(f) + [];
  }

  method EncodeNumbers(e: VersionEdit) returns (dst: Bytes)
    ensures dst == AllBytes(Numbers(e))
  {
    hide FieldBytes, AllBytes, Pointers, ComparatorField, LogField, PrevLogField, NextFileField, LastSequenceField;
    NoFields();
    dst := PutFields([], ComparatorField(e), []);
    assert [] + ComparatorField(e) == ComparatorField(e);
    ghost var done := ComparatorField(e);
    dst := PutFields(dst, LogField(e), done);
    done := done + LogField(e);
    dst := PutFields(dst, PrevLogField(e), done);
    done := done + PrevLogField(e);
    dst := PutFields(dst, NextFileField(e), done);
    done := done + NextFileField(e);
    dst := PutFields(dst, LastSequenceField(e), done);
  }

  lemma NoFields()
    ensures AllBytes([]) == []
  {
  }

  /** Appends the bytes of fields to those of the fields written before. */
  method PutFields(dst: Bytes, fs: seq<Field>, ghost done: seq<Field>) returns (dst': Bytes)
    requires dst == AllBytes(done)
    ensures dst' == AllBytes(done + fs)
  {
    hide FieldBytes, AllBytes;
    dst' := dst;
    assert done + fs[..0] == done;
    for i := 0 to |fs|
      invariant dst' == AllBytes(done + fs[..i])
    {
      OneMoreField(done + fs[..i], fs[i]);
      assert done + fs[..i + 1] == done + fs[..i] + [fs[i]];
      dst' := dst' + FieldBytes(fs[i]);
    }
    assert fs[..|fs|] == fs;
  }

  // ---------------------------------------------------------------- decoding

  function Apply(d: VersionEdit, f: Field): (d': VersionEdit) {
    match f
    case Comparator(name) => d.(comparator := Some(name))
    case LogNumber(n) => d.(logNumber := Some(n))
    case PrevLogNumber(n) => d.(prevLogNumber := Some(n))
    case NextFileNumber(n) => d.(nextFileNumber := Some(n))
    case LastSequence(n) => d.(lastSequence := Some(n))
    case CompactPointer(level, key) => d.(compactPointers := d.compactPointers + [(level, key)])
    case DeletedFile(level, n) => d.(deleted := d.deleted + {(level, n)})
    case Added(file) => d.(newFiles := d.newFiles + [file])
  }

  /** Clear: everything but the compaction pointers, which the source leaves alone. */
  function Cleared(d: VersionEdit): (d': VersionEdit) {
    VersionEdit(None, None, None, None, None, d.compactPointers, {}, [])
  }

  datatype Decoded = Ok(edit: VersionEdit) | Corrupt(what: nat)

  function Decode(d: VersionEdit, b: Bytes): (r: Decoded)
    decreases |b|
  {
    match TakeVarint32(b)
    case None => if b == [] then Ok(d) else Corrupt(INVALID_TAG)
    case Some(t) =>
      match ParseBody(t.value, t.rest)
      case Bad(what) => Corrupt(what)
      case Good(f, rest) => Decode(Apply(d, f), rest)
  }

  /** DecodeFrom: the loop over tags. */
  method DecodeFrom(d: VersionEdit, src: Bytes) returns (r: Decoded)
    ensures r == Decode(Cleared(d), src)
  {
    hide ParseBody, TakeVarint32;
    var edit, input := Cleared(d), src;
    while true
      invariant Decode(Cleared(d), src) == Decode(edit, input)
      decreases |input|
    {
      var t := TakeVarint32(input);
      if t == None {
        return if input == [] then Ok(edit) else Corrupt(INVALID_TAG);
      }
      var p := ParseBody(t.value.value, t.value.rest);
      if p.Bad? {
        return Corrupt(p.what);
      }
      edit, input := Apply(edit, p.field), p.rest;
    }
  }

  function Fold(d: VersionEdit, fs: seq<Field>): (d': VersionEdit) {
    if fs == [] then d else Apply(Fold(d, fs[..|fs| - 1]), fs[|fs| - 1])
  }

  lemma {:induction false} FoldFront(d: VersionEdit, fs: seq<Field>)
    requires fs != []
    ensures Fold(d, fs) == Fold(Apply(d, fs[0]), fs[1..])
  {
    var n := |fs| - 1;
    if n > 0 {
      FoldFront(d, fs[..n]);
      assert fs[..n][1..] == fs[1..][..n - 1];
    } else {
      assert fs[..0] == [] && fs[1..] == [];
    }
  }

  /** Decoding the bytes of fields applies them one after the other. */
  lemma {:induction false} DecodeFields(d: VersionEdit, fs: seq<Field>)
    requires forall f :: f in fs ==> Fits(f)
    ensures Decode(d, AllBytes(fs)) == Ok(Fold(d, fs))
    decreases |fs|
  {
    hide ParseBody, BodyBytes, VarintBytes, Apply, Fold;
    if fs == [] {
      NothingToDecode(d);
    } else {
      var f, rest := fs[0], AllBytes(fs[1..]);
      FoldFront(d, fs);
      assert f in fs;
      assert VarintBytes(Tag(f)) + BodyBytes(f) + rest == VarintBytes(Tag(f)) + (BodyBytes(f) + rest);
      TagFits(f);
      TakeBack(Tag(f), 0, [], BodyBytes(f) + rest);
      BodyRoundTrip(f, rest);
      DecodeFields(Apply(d, f), fs[1..]);
    }
  }

  lemma NothingToDecode(d: VersionEdit)
    ensures Decode(d, AllBytes([])) == Ok(Fold(d, []))
  {
  }

  lemma TagFits(f: Field)
    ensures Tag(f) < TWO_32
  {
  }

  // ---------------------------------------------------------------- the round trip

  lemma {:induction false} FoldConcat(d: VersionEdit, fs: seq<Field>, gs: seq<Field>)
    ensures Fold(d, fs + gs) == Fold(Fold(d, fs), gs)
    decreases |gs|
  {
    hide Apply;
    if gs == [] {
      assert fs + gs == fs;
    } else {
      assert (fs + gs)[..|fs + gs| - 1] == fs + gs[..|gs| - 1];
      FoldConcat(d, fs, gs[..|gs| - 1]);
    }
  }

  lemma {:induction false} FoldPointers(d: VersionEdit, ps: seq<(nat, Bytes)>)
    ensures Fold(d, Pointers(ps)) == d.(compactPointers := d.compactPointers + ps)
  {
    if ps == [] {
      assert d.compactPointers + ps == d.compactPointers;
    } else {
      var n := |ps| - 1;
      FoldPointers(d, ps[..n]);
      assert Pointers(ps)[..n] == Pointers(ps[..n]);
      assert d.compactPointers + ps == d.compactPointers + ps[..n] + [(ps[n].0, ps[n].1)];
    }
  }

  function SetOf(ds: seq<(nat, nat)>): (r: set<(nat, nat)>)
    ensures forall x :: x in r <==> x in ds
  {
    if ds == [] then {} else SetOf(ds[..|ds| - 1]) + {ds[|ds| - 1]}
  }

  lemma {:induction false} FoldDeletions(d: VersionEdit, ds: seq<(nat, nat)>)
    ensures Fold(d, Deletions(ds)) == d.(deleted := d.deleted + SetOf(ds))
  {
    if ds == [] {
      assert d.deleted + SetOf(ds) == d.deleted;
    } else {
      var n := |ds| - 1;
      FoldDeletions(d, ds[..n]);
      assert Deletions(ds)[..n] == Deletions(ds[..n]);
      assert d.deleted + SetOf(ds) == d.deleted + SetOf(ds[..n]) + {(ds[n].0, ds[n].1)};
    }
  }

  lemma {:induction false} FoldAdditions(d: VersionEdit, ns: seq<NewFile>)
    ensures Fold(d, Additions(ns)) == d.(newFiles := d.newFiles + ns)
  {
    if ns == [] {
      assert d.newFiles + ns == d.newFiles;
    } else {
      var n := |ns| - 1;
      FoldAdditions(d, ns[..n]);
      assert Additions(ns)[..n] == Additions(ns[..n]);
      assert d.newFiles + ns == d.newFiles + ns[..n] + [ns[n]];
    }
  }

  lemma FoldNumbers(d: VersionEdit, e: VersionEdit)
    ensures Fold(Cleared(d), Numbers(e))
         == VersionEdit(e.comparator, e.logNumber, e.prevLogNumber, e.nextFileNumber, e.lastSequence, d.compactPointers, {}, [])
  {
    hide Fold, Apply, ComparatorField, LogField, PrevLogField, NextFileField, LastSequenceField;
    var a, b, c, f, g := ComparatorField(e), LogField(e), PrevLogField(e), NextFileField(e), LastSequenceField(e);
    FoldConcat(Cleared(d), a + b + c + f, g);
    FoldConcat(Cleared(d), a + b + c, f);
    FoldConcat(Cleared(d), a + b, c);
    FoldConcat(Cleared(d), a, b);
    var d1 := Cleared(d).(comparator := e.comparator);
    var d2 := d1.(logNumber := e.logNumber);
    var d3 := d2.(prevLogNumber := e.prevLogNumber);
    FoldComparator(Cleared(d), e);
    FoldLog(d1, e);
    FoldPrevLog(d2, e);
    FoldNextFile(d3, e);
    FoldLastSequence(d3.(nextFileNumber := e.nextFileNumber), e);
  }

  lemma FoldComparator(d: VersionEdit, e: VersionEdit)
    requires d.comparator == None
    ensures Fold(d, ComparatorField(e)) == d.(comparator := e.comparator)
  {
    FoldOne(d, ComparatorField(e));
  }

  lemma FoldLog(d: VersionEdit, e: VersionEdit)
    requires d.logNumber == None
    ensures Fold(d, LogField(e)) == d.(logNumber := e.logNumber)
  {
    FoldOne(d, LogField(e));
  }

  lemma FoldPrevLog(d: VersionEdit, e: VersionEdit)
    requires d.prevLogNumber == None
    ensures Fold(d, PrevLogField(e)) == d.(prevLogNumber := e.prevLogNumber)
  {
    FoldOne(d, PrevLogField(e));
  }

  lemma FoldNextFile(d: VersionEdit, e: VersionEdit)
    requires d.nextFileNumber == None
    ensures Fold(d, NextFileField(e)) == d.(nextFileNumber := e.nextFileNumber)
  {
    FoldOne(d, NextFileField(e));
  }

  lemma FoldLastSequence(d: VersionEdit, e: VersionEdit)
    requires d.lastSequence == None
    ensures Fold(d, LastSequenceField(e)) == d.(lastSequence := e.lastSequence)
  {
    FoldOne(d, LastSequenceField(e));
  }

  lemma FoldOne(d: VersionEdit, fs: seq<Field>)
    requires |fs| <= 1
    ensures Fold(d, fs) == if fs == [] then d else Apply(d, fs[0])
  {
    assert fs != [] ==> fs[..0] == [];
  }

  /** An edit all of whose fields can be written. */
  ghost predicate Writable(e: VersionEdit, order: seq<(nat, nat)>) {
    Lists(order, e.deleted) && forall f :: f in Fields(e, order) ==> Fits(f)
  }

  /** Decoding what was encoded gives the same edit, with its compaction pointers behind those already there. */
  lemma EditRoundTrip(d: VersionEdit, e: VersionEdit, order: seq<(nat, nat)>)
    requires Writable(e, order)
    ensures Decode(Cleared(d), AllBytes(Fields(e, order)))
         == Ok(e.(compactPointers := d.compactPointers + e.compactPointers))
  {
    hide Fold, Numbers, Pointers, Deletions, Additions, AllBytes, Decode, Apply, Fits;
    DecodeFields(Cleared(d), Fields(e, order));
    var n, p, x, a := Numbers(e), Pointers(e.compactPointers), Deletions(order), Additions(e.newFiles);
    FoldConcat(Cleared(d), n, p + (x + a));
    FoldNumbers(d, e);
    var d1 := Fold(Cleared(d), n);
    FoldConcat(d1, p, x + a);
    FoldPointers(d1, e.compactPointers);
    var d2 := Fold(d1, p);
    FoldConcat(d2, x, a);
    FoldDeletions(d2, order);
    FoldAdditions(Fold(d2, x), e.newFiles);
    assert {} + SetOf(order) == e.deleted && [] + e.newFiles == e.newFiles;
  }
}
