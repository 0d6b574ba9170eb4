/** Appending records to a log file (util/leveldb/db/log_writer.cc). */
module LogWriter {
  import opened Coding
  import opened LogFormat

  class Writer {
    var dest: Bytes
    var blockOffset: nat

    ghost predicate Valid()
      reads this
    {
      && blockOffset <= BLOCK
      && (blockOffset == |dest| % BLOCK || (blockOffset == BLOCK && |dest| % BLOCK == 0))
    }

    /** For a fresh file, or for appending to one that already has some length. */
    constructor (dest: Bytes)
      ensures Valid() && this.dest == dest
    {
      this.dest := dest;
      blockOffset := |dest| % BLOCK;
    }

    method EmitPhysicalRecord(t: Byte, data: Bytes)
      requires Valid() && blockOffset + HEADER + |data| <= BLOCK && blockOffset == |dest| % BLOCK
      modifies this
      ensures Valid() && |data| < 0x10000 && dest == old(dest) + Physical(t, data)
    {
      hide Crc, Extend, Mask, EncodeFixed32;
      var length := [|data| % 256, |data| / 256];
      var crc := Mask(Extend(Crc([t]), data));
      dest := dest + (EncodeFixed32(crc) + length + [t]);
      dest := dest + data;
      blockOffset := blockOffset + HEADER + |data|;
      assert old(dest) + Header(t, data) + data == old(dest) + Physical(t, data);
    }

    method SwitchBlock()
      requires Valid()
      modifies this
      ensures Valid() && blockOffset == |dest| % BLOCK && blockOffset + HEADER <= BLOCK
      ensures |dest| == HeaderAt(|old(dest)|) && dest == old(dest) + Zeros(HeaderAt(|old(dest)|) - |old(dest)|)
    {
      var leftover := BLOCK - blockOffset;
      if leftover < HEADER {
        if leftover > 0 {
          dest := dest + Zeros(leftover);
        }
        blockOffset := 0;
      }
      assert dest == old(dest) + Zeros(|dest| - |old(dest)|);
    }

    /** One round of the loop: a fragment of `left`; what is left of it comes back. */
    method AddFragment(left: Bytes, begin: bool) returns (rest: Bytes)
      requires Valid()
      modifies this
      ensures Valid()
      ensures dest + (if rest == [] then [] else Fragments(rest, |dest|, false))
              == old(dest) + Fragments(left, |old(dest)|, begin)
      ensures rest != [] ==> |rest| < |left| || (|rest| == |left| && Stuck(|old(dest)|) && !Stuck(|dest|))
    {
      hide Fragments, Physical, Header, Zeros, FragmentType;
      ghost var g := |dest|;
      FragmentsUnfold(left, g, begin);
      SwitchBlock();
      var avail := BLOCK - blockOffset - HEADER;
      var length := if |left| < avail then |left| else avail;
      var end := |left| == length;
      EmitPhysicalRecord(FragmentType(begin, end), left[..length]);
      rest := left[length..];
      assert length == Fit(HeaderAt(g), |left|);
      ghost var o := HeaderAt(g);
      Join(old(dest), Zeros(o - g), Physical(FragmentType(begin, end), left[..length]),
           if end then [] else Fragments(rest, o + HEADER + length, false));
    }

    method AddRecord(slice: Bytes)
      requires Valid()
      modifies this
      ensures Valid() && dest == old(dest) + Fragments(slice, |old(dest)|, true)
    {
      var left := AddFragment(slice, true);
      hide *;
      while left != []
        invariant Valid()
        invariant dest + (if left == [] then [] else Fragments(left, |dest|, false))
                  == old(dest) + Fragments(slice, |old(dest)|, true)
        decreases |left|, left != [] && Stuck(|dest|)
      {
        left := AddFragment(left, false);
      }
    }
  }

  /** The header would end exactly at the block's end, so a fragment carries no data. */
  ghost predicate Stuck(g: nat) {
    HeaderAt(g) % BLOCK + HEADER == BLOCK
  }

  lemma Join(a: Bytes, b: Bytes, c: Bytes, d: Bytes)
    ensures a + b + c + d == a + (b + c + d)
    ensures a + b + c == a + (b + c)
  {
  }

  lemma RecordsEmpty()
    ensures Records([], 0) == []
  {
  }

  /** Writing a list of records to a fresh file. */
  method WriteLog(rs: seq<Bytes>) returns (file: Bytes)
    ensures file == Records(rs, 0)
  {
    hide Fragments, Records;
    RecordsEmpty();
    var w := new Writer([]);
    for i := 0 to |rs|
      invariant w.Valid() && fresh(w) && w.dest == Records(rs[..i], 0)
    {
      w.AddRecord(rs[i]);
      RecordsAppend(rs[..i], rs[i], 0);
      assert rs[..i + 1] == rs[..i] + [rs[i]];
    }
    assert rs[..|rs|] == rs;
    file := w.dest;
  }
}
