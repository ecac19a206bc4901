/** Crashes, recovery and everything that happens before the machine is up again. */
module TxRestart {
  import opened DbTypes
  import opened Locks
  import opened Recovery
  import opened TxMachine
  import opened TxReplay
  import opened TxInvariant
  import opened TxSteps

  // ---------- a crash while up ----------

  lemma DeadPrefix(log: seq<Rec>, n: nat, i: int)
    requires 0 <= i < n <= |log| && log[i].SetVal?
    ensures Spent(log[..n], {}, i) <==> Dead(log, n, i)
  {
    var recs := log[..n];
    if Dead(recs, n, i) {
      var j :| i < j < n && Kills(recs[j], recs[i].tx);
      assert Kills(log[j], log[i].tx);
    }
    if Dead(log, n, i) {
      var j :| i < j < n && Kills(log[j], log[i].tx);
      assert Kills(recs[j], recs[i].tx);
    }
  }

  lemma OldestUnspent(recs: seq<Rec>, l: Loc, i: nat) returns (k: nat)
    requires i < |recs| && IsSet(recs[i], l) && !Spent(recs, {}, i)
    ensures k <= i && IsSet(recs[k], l) && !Spent(recs, {}, k)
    ensures forall j :: 0 <= j < k && IsSet(recs[j], l) ==> Spent(recs, {}, j)
    decreases i
  {
    if j :| 0 <= j < i && IsSet(recs[j], l) && !Spent(recs, {}, j) {
      k := OldestUnspent(recs, l, j);
    } else {
      k := i;
    }
  }

  /** A durable record of a live transaction is one the recovery walk undoes. */
  lemma LiveRecord(s: State, t: int, i: int)
    requires Inv(s) && s.mode.Up? && Unsettled(s, t) && s.txs[t].start < i < s.flushed
    requires s.log[i].SetVal? && s.log[i].tx == t
    ensures !Dead(s.log, s.flushed, i)
  {
    assert TxOk(s, t) && TxShape(s, t) && NotFinished(s, t);
    forall j | i < j < s.flushed
      ensures !Kills(s.log[j], t)
    {
    }
  }

  /** The oldest record recovery undoes at l holds the committed value. */
  lemma UndoneIsCommitted(s: State, l: Loc, k: nat)
    requires Inv(s) && s.mode.Up? && k < s.flushed && IsSet(s.log[k], l) && !Dead(s.log, s.flushed, k)
    requires forall j :: 0 <= j < k && IsSet(s.log[j], l) ==> Dead(s.log, s.flushed, j)
    ensures s.log[k].was == Committed(s, l)
  {
    var t := s.log[k].tx;
    assert SetOk(s, k) && OwnOk(s, t, l) && TxOk(s, t);
    var start := s.txs[t].start;
    if OwnOld(s.log, t, start, l) == None {
      OwnOldLater(s.log, t, start, k, l);
      assert false;
    }
    var i := OwnOldIndex(s.log, t, start, l);
    if i < k {
      LiveRecord(s, t, i);
    }
    assert i == k;
  }

  lemma CrashRecoverable(s: State, l: Loc)
    requires Inv(s) && s.mode.Up?
    ensures Recoverable(s, l)
  {
    var recs := s.log[..s.flushed];
    forall i | 0 <= i < |recs| && recs[i].SetVal?
      ensures Spent(recs, {}, i) <==> Dead(s.log, s.flushed, i)
    {
      DeadPrefix(s.log, s.flushed, i);
    }
    if i :| 0 <= i < |recs| && IsSet(recs[i], l) && !Spent(recs, {}, i) {
      var k := OldestUnspent(recs, l, i);
      OldestUndone(recs, {}, l, k);
      UndoneIsCommitted(s, l, k);
    } else {
      NothingToUndo(recs, {}, l);
      assert FreeOk(s, l);
      if t :| HasX(s, t, l.blk) {
        assert OwnOk(s, t, l);
        if !Unsettled(s, t) {
          SettledIsClean(s, t, l);
        } else if DurableOwn(s, t, l) {
          var i :| s.txs[t].start < i < s.flushed && OwnRec(s.log[i], t, l);
          LiveRecord(s, t, i);
          assert false;
        }
      }
    }
  }

  lemma CrashKeepsHistory(s: State)
    requires Inv(s)
    ensures HistInv(CrashStep(s))
  {
    var s' := CrashStep(s);
    forall i
      ensures EventOk(s', i) && Separated(s'.hist, i, |s.hist|)
    {
      assert EventOk(s, i);
      assert s'.hist[|s.hist|] == Crashed;
      assert 0 <= i < |s.hist| ==> ReleasedAfter(s'.hist, i, Crashed);
    }
    SeparatedAppend(s.hist, Crashed);
    forall i, j
      ensures WriteLastOk(s', i, j)
    {
    }
    forall l
      ensures LastOk(s', l)
    {
      assert LastOk(s, l);
      LastCommittedFrame(s.hist, Crashed, s.order, l);
    }
    SerialFrame(s.hist, Crashed, s.order);
  }

  lemma CrashKeeps(s: State)
    requires Inv(s)
    ensures Inv(Step(s, Crash))
  {
    var s' := Step(s, Crash);
    NoLocksInv();
    CrashKeepsHistory(s);
    forall l
      ensures Recoverable(s', l)
    {
      if s.mode.Up? {
        CrashRecoverable(s, l);
      }
      assert Recoverable(s, l);
      assert s'.log[..s'.flushed] == s.log[..s.flushed];
    }
  }

  // ---------- recovery ----------

  lemma DownKept(s: State, s': State)
    requires Inv(s) && !s.mode.Up? && !s'.mode.Up?
    requires s'.hist == s.hist && s'.order == s.order && s'.db == s.db && s'.boot == s.boot
    requires s'.txs == map[] && s'.locks == NoLocks && s'.nextTx >= 0
    ensures IdInv(s') && HistInv(s')
  {
    forall i
      ensures EventOk(s', i)
    {
      assert EventOk(s, i);
    }
    forall l
      ensures LastOk(s', l)
    {
      assert LastOk(s, l);
    }
    forall i, j
      ensures WriteLastOk(s', i, j)
    {
    }
  }

  lemma StartSkipped(recs: seq<Rec>, t: int, l: Loc)
    ensures FirstOld(recs + [Start(t)], {}, l) == FirstOld(recs, {}, l)
  {
    assert Init(recs + [Start(t)]) == recs;
  }

  lemma BootKeeps(s: State)
    requires Inv(s) && CanDo(s, Boot)
    ensures Inv(Step(s, Boot))
  {
    var s' := Step(s, Boot);
    DownKept(s, s');
    assert s'.log[..|s'.log|] == s'.log;
    assert s.log[..s.flushed] == s.log == s'.log[..s.flushed];
    forall l
      ensures Recoverable(s', l) && ProgressOk(s', l) && RecFrameOk(s', l)
    {
      assert Recoverable(s, l);
      StartSkipped(s.log, 1, l);
    }
  }

  /** The recovery walk undoes record r when it has not seen r's transaction finish. */
  predicate Undoes(s: State, r: Rec)
    requires s.mode.Recovering?
  {
    r.SetVal? && r.tx !in s.mode.finished
  }

  /** What one turn of do_recover changes. */
  lemma RecoverEffect(s: State, l: Loc)
    requires CanDo(s, RecoverOne)
    ensures
      var s', pos := Step(s, RecoverOne), s.mode.pos;
      && s' == s.(mode := s'.mode, cache := s'.cache)
      && (pos == 0 || NextRec(s, pos).Checkpoint? ==>
            s'.mode == Recovered(s.mode.start) && Cur(s', l) == Cur(s, l))
      && (pos > 0 && !NextRec(s, pos).Checkpoint? ==>
            var r := NextRec(s, pos);
            && s'.mode == Recovering(pos - 1, if r.Commit? || r.Rollback? then s.mode.finished + {r.tx} else s.mode.finished,
                                     s.mode.start)
            && Cur(s', l) == if Undoes(s, r) && r.loc == l then r.was else Cur(s, l))
  {
  }

  lemma RecoverOneProgress(s: State, s': State, l: Loc)
    requires s.mode.Recovering? && s.mode.pos <= |s.log| && ProgressOk(s, l)
    requires s' == s.(mode := s'.mode, cache := s'.cache)
    requires s.mode.pos > 0 && !NextRec(s, s.mode.pos).Checkpoint?
    requires
      var r := NextRec(s, s.mode.pos);
      && s'.mode == Recovering(s.mode.pos - 1,
                               if r.Commit? || r.Rollback? then s.mode.finished + {r.tx} else s.mode.finished,
                               s.mode.start)
      && Cur(s', l) == if Undoes(s, r) && r.loc == l then r.was else Cur(s, l)
    ensures ProgressOk(s', l)
  {
    var recs := s.log[..s.mode.pos];
    assert Init(recs) == s.log[..s.mode.pos - 1];
    assert Last(recs) == NextRec(s, s.mode.pos);
  }

  lemma RecoverOneFrame(s: State, l: Loc)
    requires Inv(s) && CanDo(s, RecoverOne)
    ensures RecFrameOk(Step(s, RecoverOne), l)
  {
    assert RecFrameOk(s, l);
  }

  lemma RecoverOneAt(s: State, l: Loc)
    requires Inv(s) && CanDo(s, RecoverOne)
    ensures ProgressOk(Step(s, RecoverOne), l)
  {
    var s' := Step(s, RecoverOne);
    assert ProgressOk(s, l);
    RecoverEffect(s, l);
    if s'.mode.Recovering? {
      RecoverOneProgress(s, s', l);
    } else if s.mode.pos > 0 {
      assert Last(s.log[..s.mode.pos]).Checkpoint?;
    }
  }

  lemma RecoverOneKeeps(s: State)
    requires Inv(s) && CanDo(s, RecoverOne)
    ensures Inv(Step(s, RecoverOne))
  {
    var s' := Step(s, RecoverOne);
    RecoverEffect(s, Loc(Block("", 0), 0));
    DownKept(s, s');
    forall l
      ensures Recoverable(s', l) && ProgressOk(s', l) && RecFrameOk(s', l)
    {
      assert Recoverable(s, l);
      RecoverOneAt(s, l);
      RecoverOneFrame(s, l);
    }
  }

  /** Reading, writing and dropping pages, and flushing the log, while recovering. */
  lemma DownLoadKeeps(s: State, b: Block, mark: int, lsn: int)
    requires Inv(s) && !s.mode.Up? && CanDo(s, Load(b, mark, lsn))
    ensures Inv(Step(s, Load(b, mark, lsn)))
  {
    var s' := Step(s, Load(b, mark, lsn));
    DownKept(s, s');
    forall l
      ensures Recoverable(s', l) && ProgressOk(s', l) && RecFrameOk(s', l)
    {
      assert Recoverable(s, l) && ProgressOk(s, l) && RecFrameOk(s, l);
      assert Cur(s', l) == Cur(s, l);
    }
  }

  lemma DownFlushPageKeeps(s: State, b: Block)
    requires Inv(s) && !s.mode.Up? && CanDo(s, FlushPage(b))
    ensures Inv(Step(s, FlushPage(b)))
  {
    var s' := Step(s, FlushPage(b));
    DownKept(s, s');
    forall l
      ensures Recoverable(s', l) && ProgressOk(s', l) && RecFrameOk(s', l)
    {
      assert Recoverable(s, l) && ProgressOk(s, l) && RecFrameOk(s, l);
      assert Cur(s', l) == Cur(s, l);
    }
  }

  /** flush_all by the recovering transaction. */
  lemma StartRecFlushKeeps(s: State)
    requires Inv(s) && CanDo(s, StartRecFlush)
    ensures Inv(Step(s, StartRecFlush))
  {
    var s' := Step(s, StartRecFlush);
    DownKept(s, s');
    forall l
      ensures Recoverable(s', l) && ProgressOk(s', l) && RecFrameOk(s', l)
    {
      assert Recoverable(s, l) && ProgressOk(s, l) && RecFrameOk(s, l);
    }
  }

  lemma RecFlushNextKeeps(s: State, b: Block)
    requires Inv(s) && CanDo(s, RecFlushNext(b))
    ensures Inv(Step(s, RecFlushNext(b)))
  {
    var s1, s' := FlushMarked(s, 1, b), Step(s, RecFlushNext(b));
    if Marked(s, 1, b) {
      DownFlushPageKeeps(s, b);
    }
    DownKept(s1, s');
    forall l
      ensures Recoverable(s', l) && ProgressOk(s', l) && RecFrameOk(s', l)
    {
      RecFlushNextAt(s, s1, b, l);
    }
  }

  lemma RecFlushNextAt(s: State, s1: State, b: Block, l: Loc)
    requires Inv(s) && CanDo(s, RecFlushNext(b)) && s1 == FlushMarked(s, 1, b) && Inv(s1)
    ensures
      var s' := Step(s, RecFlushNext(b));
      Recoverable(s', l) && ProgressOk(s', l) && RecFrameOk(s', l)
  {
    assert Recoverable(s1, l) && ProgressOk(s1, l) && RecFrameOk(s1, l) && RecFrameOk(s, l);
    assert Cur(Step(s, RecFlushNext(b)), l) == Cur(s1, l);
  }

  lemma AppendCheckpointKeeps(s: State)
    requires Inv(s) && CanDo(s, AppendCheckpoint)
    ensures Inv(Step(s, AppendCheckpoint))
  {
    var s' := Step(s, AppendCheckpoint);
    DownKept(s, s');
    assert s'.log[..s'.flushed] == s.log[..s.flushed];
    forall l
      ensures Recoverable(s', l) && ProgressOk(s', l) && RecFrameOk(s', l)
    {
      assert Recoverable(s, l) && ProgressOk(s, l) && RecFrameOk(s, l);
    }
  }

  lemma DownDropKeeps(s: State, s': State, b: Block)
    requires Inv(s) && !s.mode.Up? && b in s.cache && s' == s.(cache := s.cache - {b})
    requires forall l: Loc :: l.blk == b ==> Cur(s, l) == OnDisk(s.disk, l)
    ensures Inv(s')
  {
    DownKept(s, s');
    forall l
      ensures Recoverable(s', l) && ProgressOk(s', l) && RecFrameOk(s', l)
    {
      assert Recoverable(s, l) && ProgressOk(s, l) && RecFrameOk(s, l);
      assert Cur(s', l) == Cur(s, l);
    }
  }

  lemma DownEvictKeeps(s: State, b: Block)
    requires Inv(s) && !s.mode.Up? && CanDo(s, Evict(b))
    ensures Inv(Step(s, Evict(b)))
  {
    if s.cache[b].tx >= 0 {
      DownFlushPageKeeps(s, b);
      DownDropKeeps(Step(s, FlushPage(b)), Step(s, Evict(b)), b);
    } else {
      forall l: Loc | l.blk == b
        ensures Cur(s, l) == OnDisk(s.disk, l)
      {
        assert RecFrameOk(s, l);
      }
      DownDropKeeps(s, Step(s, Evict(b)), b);
    }
  }

  lemma DownFlushLogKeeps(s: State)
    requires Inv(s) && !s.mode.Up? && CanDo(s, FlushLog)
    ensures Inv(Step(s, FlushLog))
  {
    var s' := Step(s, FlushLog);
    var r := s.log[s.flushed];
    assert r == Start(1) || (r == Checkpoint && s.mode.Checkpointing?);
    DownKept(s, s');
    forall l
      ensures Recoverable(s', l) && ProgressOk(s', l) && RecFrameOk(s', l)
    {
      DownFlushLogAt(s, l);
    }
  }

  lemma DownFlushLogAt(s: State, l: Loc)
    requires Inv(s) && !s.mode.Up? && CanDo(s, FlushLog)
    ensures
      var s' := Step(s, FlushLog);
      Recoverable(s', l) && ProgressOk(s', l) && RecFrameOk(s', l)
  {
    var r := s.log[s.flushed];
    assert r == Start(1) || (r == Checkpoint && s.mode.Checkpointing?);
    assert Recoverable(s, l) && ProgressOk(s, l) && RecFrameOk(s, l);
    FirstOldMore(s.log, s.flushed, l);
  }

  /** One more record at the end of a recovery walk: a checkpoint ends it at once, a start record is passed over. */
  lemma FirstOldMore(log: seq<Rec>, n: nat, l: Loc)
    requires n < |log|
    ensures log[n].Start? ==> FirstOld(log[..n + 1], {}, l) == FirstOld(log[..n], {}, l)
    ensures log[n].Checkpoint? ==> FirstOld(log[..n + 1], {}, l) == None
  {
    assert log[..n + 1] == log[..n] + [log[n]];
    assert Init(log[..n + 1]) == log[..n];
  }

  lemma OpenUpKeeps(s: State)
    requires Inv(s) && CanDo(s, OpenUp)
    ensures Inv(Step(s, OpenUp))
  {
    var s' := Step(s, OpenUp);
    assert Kills(s.log[s.mode.start + 1], 0);
    assert s.flushed == |s.log|;
    forall i
      ensures SetOk(s', i) && FinOk(s', i) && LsnOk(s', i) && TxOk(s', i)
    {
      assert 0 <= i < |s.log| && s.log[i].SetVal? ==> Kills(s.log[s.mode.start + 1], s.log[i].tx);
    }
    forall l
      ensures FreeOk(s', l) && FrameOk(s', l) && LastOk(s', l)
    {
      assert ProgressOk(s, l) && LastOk(s, l);
    }
    forall i
      ensures EventOk(s', i)
    {
      assert EventOk(s, i);
    }
    forall i, j
      ensures WriteLastOk(s', i, j)
    {
      assert EventOk(s, i);
    }
    forall t
      ensures ReadsOk(s', t)
    {
      forall k | 0 <= k < |s.hist| && s.hist[k].Did?
        ensures s.hist[k].who != Me(s, t)
      {
        assert EventOk(s, k);
      }
      OpsNone(s.hist, Me(s, t));
    }
    forall t, l
      ensures OwnOk(s', t, l)
    {
    }
  }
}
