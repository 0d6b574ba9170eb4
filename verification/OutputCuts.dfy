/**
How a compaction splits what it keeps into files (util/leveldb/db/db_impl.cc): one ends where it is big
enough, or where the key before which to stop comes.
 */
module OutputCuts {
  import opened Common
  import opened Keys

  /** Finished output files and the one being built; an open builder is never empty. */
  datatype Outputs = Outputs(files: seq<seq<Entry>>, builder: seq<Entry>)

  function FinishOutput(out: Outputs): (r: Outputs) {
    if out.builder == [] then out else Outputs(out.files + [out.builder], [])
  }

  function AddToOutput(out: Outputs, e: Entry): (r: Outputs) {
    Outputs(out.files, out.builder + [e])
  }

  /** The output holds `kept` in order, split into nonempty files. */
  ghost predicate Emitted(out: Outputs, kept: seq<Entry>) {
    && Flatten(out.files) + out.builder == kept
    && forall o :: o in out.files ==> |o| > 0
  }

  lemma OutputsFinish(out: Outputs, kept: seq<Entry>)
    requires Emitted(out, kept)
    ensures Emitted(FinishOutput(out), kept)
  {
    var r := out.files + [out.builder];
    assert r[..|r| - 1] == out.files;
  }

  lemma OutputsAdd(out: Outputs, e: Entry, kept: seq<Entry>)
    requires Emitted(out, kept)
    ensures Emitted(AddToOutput(out, e), kept + [e])
  {
  }

  lemma OutputsEnd(out: Outputs, kept: seq<Entry>)
    requires Emitted(out, kept)
    ensures Flatten(FinishOutput(out).files) == kept
    ensures forall o :: o in FinishOutput(out).files ==> |o| > 0
  {
    OutputsFinish(out, kept);
  }

  // ---------------------------------------------------------------- where the files end

  ghost predicate AllBefore(es: seq<Entry>, key: InternalKey) {
    forall e :: e in es ==> Less(e.key, key)
  }

  ghost predicate AllFrom(es: seq<Entry>, key: InternalKey) {
    forall e :: e in es ==> !Less(e.key, key)
  }

  /** A stop among the first `n` inputs comes between `a` and `b`. */
  ghost predicate StopBetween(a: seq<Entry>, b: seq<Entry>, input: seq<Entry>, n: nat, stopBefore: nat -> bool) {
    exists t :: 0 <= t < n && t < |input| && stopBefore(t) && AllBefore(a, input[t].key) && AllFrom(b, input[t].key)
  }

  /**
  No file goes on when it is big enough or past a stop, and every file but the last ends where it is big
  enough or a stop comes.
   */
  ghost predicate CutWhereTold(files: seq<seq<Entry>>, input: seq<Entry>, n: nat, stopBefore: nat -> bool,
                               bigEnough: seq<Entry> -> bool) {
    && (forall o, k :: o in files && 0 < k < |o| ==> !bigEnough(o[..k]))
    && (forall o, t :: o in files && 0 <= t < n && t < |input| && stopBefore(t) ==>
          AllBefore(o, input[t].key) || AllFrom(o, input[t].key))
    && (forall j :: 0 <= j < |files| - 1 ==>
          bigEnough(files[j]) || StopBetween(files[j], files[j + 1], input, n, stopBefore))
  }

  /** The same of the files so far, and what is known about the one being built. */
  ghost predicate CutSoFar(out: Outputs, input: seq<Entry>, n: nat, stopBefore: nat -> bool,
                           bigEnough: seq<Entry> -> bool) {
    && CutWhereTold(FinishOutput(out).files, input, n, stopBefore, bigEnough)
    && (out.builder != [] ==> !bigEnough(out.builder))
    && (forall t :: 0 <= t < n && t < |input| && stopBefore(t) ==> AllFrom(out.builder, input[t].key))
    && (out.files != [] && out.builder == [] ==> Ended(out.files[|out.files| - 1], input, n, stopBefore, bigEnough))
  }

  ghost predicate Ended(o: seq<Entry>, input: seq<Entry>, n: nat, stopBefore: nat -> bool, bigEnough: seq<Entry> -> bool) {
    bigEnough(o) || StopBetween(o, [], input, n, stopBefore)
  }

  lemma NothingCut(input: seq<Entry>, stopBefore: nat -> bool, bigEnough: seq<Entry> -> bool)
    ensures CutSoFar(Outputs([], []), input, 0, stopBefore, bigEnough)
  {
  }

  lemma AllCut(out: Outputs, input: seq<Entry>, n: nat, stopBefore: nat -> bool, bigEnough: seq<Entry> -> bool)
    requires CutSoFar(out, input, n, stopBefore, bigEnough)
    ensures CutWhereTold(FinishOutput(out).files, input, n, stopBefore, bigEnough)
  {
  }

  lemma NoStop(out: Outputs, input: seq<Entry>, n: nat, stopBefore: nat -> bool, bigEnough: seq<Entry> -> bool)
    requires CutSoFar(out, input, n, stopBefore, bigEnough) && !stopBefore(n)
    ensures CutSoFar(out, input, n + 1, stopBefore, bigEnough)
  {
    hide AllBefore, AllFrom, FinishOutput, CutWhereTold;
    WiderCuts(FinishOutput(out).files, input, n, stopBefore, bigEnough);
  }

  /** Everything so far comes before the input at which to stop. */
  lemma StopCuts(out: Outputs, kept: seq<Entry>, input: seq<Entry>, n: nat, stopBefore: nat -> bool,
                 bigEnough: seq<Entry> -> bool)
    requires Emitted(out, kept) && n < |input| && AllBefore(kept, input[n].key)
    requires CutSoFar(out, input, n, stopBefore, bigEnough) && stopBefore(n)
    ensures CutSoFar(FinishOutput(out), input, n + 1, stopBefore, bigEnough)
  {
    var files := FinishOutput(out).files;
    forall o | o in files
      ensures AllBefore(o, input[n].key)
    {
      PartOfKept(out, kept, o);
    }
    WiderCuts(files, input, n, stopBefore, bigEnough);
    hide AllBefore, FinishOutput, CutWhereTold;
    assert AllFrom([], input[n].key);
    assert files != [] ==> StopBetween(files[|files| - 1], [], input, n + 1, stopBefore);
  }

  lemma PartOfKept(out: Outputs, kept: seq<Entry>, o: seq<Entry>)
    requires Emitted(out, kept) && o in FinishOutput(out).files
    ensures forall e :: e in o ==> e in kept
  {
    if o in out.files {
      InFlatten(out.files, o);
    }
  }

  lemma {:induction false} InFlatten(parts: seq<seq<Entry>>, o: seq<Entry>)
    requires o in parts
    ensures forall e :: e in o ==> e in Flatten(parts)
  {
    if o != parts[|parts| - 1] {
      assert o in parts[..|parts| - 1];
      InFlatten(parts[..|parts| - 1], o);
    }
  }

  /** One stop more that no file reaches. */
  lemma WiderCuts(files: seq<seq<Entry>>, input: seq<Entry>, n: nat, stopBefore: nat -> bool, bigEnough: seq<Entry> -> bool)
    requires CutWhereTold(files, input, n, stopBefore, bigEnough)
    requires n < |input| && stopBefore(n) ==> forall o :: o in files ==> AllBefore(o, input[n].key)
    ensures CutWhereTold(files, input, n + 1, stopBefore, bigEnough)
  {
    hide AllBefore, AllFrom;
    forall j | 0 <= j < |files| - 1
      ensures bigEnough(files[j]) || StopBetween(files[j], files[j + 1], input, n + 1, stopBefore)
    {
      assert bigEnough(files[j]) || StopBetween(files[j], files[j + 1], input, n, stopBefore);
    }
  }

  /** The next input goes behind the file being built, or starts one. */
  lemma AddKeepsCuts(out: Outputs, input: seq<Entry>, n: nat, stopBefore: nat -> bool, bigEnough: seq<Entry> -> bool)
    requires n < |input| && Sorted(input) && CutSoFar(out, input, n + 1, stopBefore, bigEnough)
    ensures var grown := AddToOutput(out, input[n]);
            CutSoFar(if bigEnough(grown.builder) then FinishOutput(grown) else grown, input, n + 1, stopBefore, bigEnough)
  {
    var e := input[n];
    var files, grown := out.files, out.builder + [e];
    forall t | 0 <= t <= n && stopBefore(t)
      ensures AllFrom(grown, input[t].key)
    {
      NotBelow(input, t, n);
      assert AllFrom(out.builder, input[t].key);
    }
    GrownCuts(out, input, n, stopBefore, bigEnough);
    assert (files + [grown])[|files|] == grown;
  }

  lemma NotBelow(input: seq<Entry>, t: nat, n: nat)
    requires t <= n < |input| && Sorted(input)
    ensures !Less(input[n].key, input[t].key)
  {
    assert t < n ==> Less(input[t].key, input[n].key);
  }

  lemma GrownCuts(out: Outputs, input: seq<Entry>, n: nat, stopBefore: nat -> bool, bigEnough: seq<Entry> -> bool)
    requires n < |input| && CutSoFar(out, input, n + 1, stopBefore, bigEnough)
    requires forall t :: 0 <= t <= n && stopBefore(t) ==> AllFrom(out.builder + [input[n]], input[t].key)
    ensures CutWhereTold(out.files + [out.builder + [input[n]]], input, n + 1, stopBefore, bigEnough)
  {
    var files, grown := out.files, out.builder + [input[n]];
    var before, after := FinishOutput(out).files, files + [grown];
    forall k | 0 < k < |grown|
      ensures !bigEnough(grown[..k])
    {
      assert k < |out.builder| ==> grown[..k] == out.builder[..k] && out.builder in before;
      assert k == |out.builder| ==> grown[..k] == out.builder;
    }
    forall o | o in after
      ensures o in before || o == grown
    {
      assert o in files ==> o in before;
    }
    forall j | 0 <= j < |after| - 1
      ensures bigEnough(after[j]) || StopBetween(after[j], after[j + 1], input, n + 1, stopBefore)
    {
      assert after[j] == files[j] == before[j];
      if j < |files| - 1 {
        assert after[j + 1] == files[j + 1] == before[j + 1];
      } else if !bigEnough(files[j]) {
        assert out.builder != [] ==> before[j + 1] == out.builder;
        assert StopBetween(files[j], out.builder, input, n + 1, stopBefore);
        var t :| 0 <= t < n + 1 && stopBefore(t) && AllBefore(files[j], input[t].key) && AllFrom(out.builder, input[t].key);
        assert AllFrom(grown, input[t].key);
      }
    }
  }
}
