/** Writing to the log and reading it back, also after a crash. */
module LogRoundTrip {
  import opened PageBytes
  import opened Logs

  function Backwards(recs: seq<Bytes>): seq<Bytes> {
    if recs == [] then [] else [recs[|recs| - 1]] + Backwards(recs[..|recs| - 1])
  }

  predicate Loggable(rec: Bytes, blockSize: nat) {
    |rec| % INT_SIZE == 0 && 2 * INT_SIZE + |rec| <= blockSize
  }

  /** Everything an iterator has to offer, in the order it offers it; the loop terminates. */
  method ReadAll(it: LogIterator) returns (out: seq<Bytes>)
    requires it.Valid()
    modifies it, it.p.buffer
    ensures out == old(it.Remaining())
  {
    out := [];
    var more := it.HasNext();
    while more
      invariant it.Valid()
      invariant out + it.Remaining() == old(it.Remaining())
      invariant more <==> it.Remaining() != []
      decreases |it.Remaining()|
    {
      ghost var before := it.Remaining();
      var rec := it.Next();
      assert before == [rec] + it.Remaining();
      assert out + before == (out + [rec]) + it.Remaining();
      out := out + [rec];
      more := it.HasNext();
    }
  }

  method AppendAll(lm: LogMgr, recs: seq<Bytes>) returns (lsns: seq<nat>)
    requires lm.Valid() && lm.Records() == [] && lm.latestLsn == 0
    requires forall i :: 0 <= i < |recs| ==> Loggable(recs[i], lm.fm.blockSize)
    modifies lm, lm.fm, lm.logPage.buffer
    ensures lm.Valid() && lm.Records() == Backwards(recs)
    ensures |lsns| == |recs| && forall i :: 0 <= i < |recs| ==> lsns[i] == i + 1
  {
    lsns := [];
    for i := 0 to |recs|
      invariant lm.Valid() && lm.Records() == Backwards(recs[..i]) && lm.latestLsn == i
      invariant |lsns| == i && forall k :: 0 <= k < i ==> lsns[k] == k + 1
    {
      assert recs[..i + 1][..i] == recs[..i];
      var lsn := lm.Append(recs[i]);
      lsns := lsns + [lsn.value];
    }
    assert recs[..|recs|] == recs;
  }

  /** Records appended to a new log come back newest first, and the i-th got number i. */
  method AppendThenIterate(fm: LogFile, recs: seq<Bytes>) returns (lsns: seq<nat>, out: seq<Bytes>)
    requires fm.blocks == [] && fm.blockSize % INT_SIZE == 0 && 2 * INT_SIZE <= fm.blockSize < INT_LIMIT
    requires forall i :: 0 <= i < |recs| ==> Loggable(recs[i], fm.blockSize)
    modifies fm
    ensures |lsns| == |recs| && forall i :: 0 <= i < |recs| ==> lsns[i] == i + 1
    ensures out == Backwards(recs)
  {
    var lm := new LogMgr(fm, []);
    lsns := AppendAll(lm, recs);
    var it := lm.Iterator();
    out := ReadAll(it);
  }

  /** A log manager opened after a crash finds exactly the records that had reached the disk. */
  method Reopen(lm: LogMgr) returns (lm': LogMgr)
    requires lm.Valid()
    modifies lm.fm
    ensures lm'.Valid() && fresh(lm') && lm'.fm == lm.fm
    ensures lm'.Records() == old(lm.Durable())
  {
    lm' := new LogMgr(lm.fm, lm.SavedPacks());
  }
}
