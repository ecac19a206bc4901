/** Each step of the transaction machine, taken while it is up, keeps the invariant. */
module TxSteps {
  import opened DbTypes
  import opened Locks
  import opened Recovery
  import opened TxMachine
  import opened TxReplay
  import opened TxInvariant

  // ---------- steps that leave the history alone ----------

  ghost predicate LocksGrow(s: State, s': State) {
    forall h :: h in s.locks.held ==>
      h in s'.locks.held && (s.locks.held[h] == X ==> s'.locks.held[h] == X)
  }

  ghost predicate SameRecord(s: State, s': State) {
    && s'.hist == s.hist && s'.order == s.order && s'.db == s.db && s'.boot == s.boot
    && s.mode.Up? && s'.mode.Up? && s'.nextTx >= s.nextTx
  }

  lemma {:induction false} OpsNone(hist: seq<Event>, u: Uid)
    requires forall k :: 0 <= k < |hist| && hist[k].Did? ==> hist[k].who != u
    ensures Ops(hist, u) == []
  {
    if hist != [] {
      OpsNone(Init(hist), u);
    }
  }

  lemma NewcomerHasNoOps(s: State, t: int)
    requires HistInv(s) && t > s.nextTx
    ensures Ops(s.hist, Me(s, t)) == []
  {
    forall k | 0 <= k < |s.hist| && s.hist[k].Did?
      ensures s.hist[k].who != Me(s, t)
    {
      assert EventOk(s, k);
    }
    OpsNone(s.hist, Me(s, t));
  }

  lemma HistKept(s: State, s': State)
    requires HistInv(s) && SameRecord(s, s') && LocksGrow(s, s')
    requires forall t :: t <= s.nextTx && Unsettled(s', t) ==> Unsettled(s, t)
    ensures HistInv(s')
  {
    forall i
      ensures EventOk(s', i)
    {
      assert EventOk(s, i);
    }
    forall i, j
      ensures WriteLastOk(s', i, j)
    {
      assert WriteLastOk(s, i, j);
      assert EventOk(s, i);
    }
    forall t
      ensures ReadsOk(s', t)
    {
      assert ReadsOk(s, t);
      if t > s.nextTx {
        NewcomerHasNoOps(s, t);
      }
    }
    forall l
      ensures LastOk(s', l)
    {
      assert LastOk(s, l);
    }
  }

  lemma LogKept(s: State, s': State)
    requires LogInv(s) && SameRecord(s, s') && s'.log == s.log && s'.flushed == s.flushed
    requires s'.txs == s.txs && s'.locks == s.locks
    ensures LogInv(s')
  {
    forall i
      ensures SetOk(s', i) && FinOk(s', i) && TxOk(s', i)
    {
      assert SetOk(s, i) && FinOk(s, i) && TxOk(s, i);
      assert i in s.txs ==> TxShape(s', i);
    }
  }

  /** A transaction in the middle of a write is left alone. */
  lemma BusyStays(s: State, s': State, t: int)
    requires BusyOk(s, t) && (IsWriting(s', t) ==> t in s.txs && s'.txs[t] == s.txs[t])
    requires IsWriting(s, t) ==>
               && s.log <= s'.log && (forall i :: |s.log| <= i < |s'.log| && s'.log[i].SetVal? ==> s'.log[i].tx != t)
               && HasX(s', t, s.txs[t].phase.loc.blk) && s.txs[t].phase.loc.blk in s'.cache
               && Cur(s', s.txs[t].phase.loc) == Cur(s, s.txs[t].phase.loc)
    ensures BusyOk(s', t)
  {
  }

  /** Nothing that matters to t at l changes. */
  lemma OwnStays(s: State, s': State, t: int, l: Loc)
    requires OwnOk(s, t, l) && (t in s'.txs ==> t in s.txs && s'.txs[t] == s.txs[t])
    requires s'.log == s.log && s'.flushed == s.flushed && View(s', t, l) == View(s, t, l)
    requires Cur(s', l) == Cur(s, l) && OnDisk(s'.disk, l) == OnDisk(s.disk, l) && Committed(s', l) == Committed(s, l)
    requires HasX(s', t, l.blk) ==> HasX(s, t, l.blk)
    ensures OwnOk(s', t, l)
  {
    assert t in s'.txs && DurableOwn(s, t, l) ==> DurableOwn(s', t, l);
  }

  lemma FreeStays(s: State, s': State, l: Loc)
    requires FreeOk(s, l) && Cur(s', l) == Cur(s, l) && OnDisk(s'.disk, l) == OnDisk(s.disk, l)
    requires Committed(s', l) == Committed(s, l) && forall t :: HasX(s, t, l.blk) ==> HasX(s', t, l.blk)
    ensures FreeOk(s', l)
  {
  }

  /** A frame that stays marked as it was. */
  lemma FrameStays(s: State, s': State, l: Loc)
    requires FrameOk(s, l) && Cur(s', l) == Cur(s, l) && OnDisk(s'.disk, l) == OnDisk(s.disk, l)
    requires l.blk in s'.cache && Cur(s, l) != OnDisk(s.disk, l) ==> l.blk in s.cache && s'.cache[l.blk].tx == s.cache[l.blk].tx
    requires forall t :: Changing(s, t, l.blk) ==> Changing(s', t, l.blk)
    requires forall t :: t in s.txs && !s.txs[t].phase.Ending? && HasX(s, t, l.blk) ==>
               t in s'.txs && !s'.txs[t].phase.Ending? && HasX(s', t, l.blk)
    ensures FrameOk(s', l)
  {
    if l.blk in s'.cache && Cur(s', l) != OnDisk(s'.disk, l) && MarkedByOwner(s, l.blk) {
      assert MarkedByOwner(s', l.blk);
    }
  }

  // ---------- records appended to the log ----------

  lemma DeadAppend(log: seq<Rec>, r: Rec, n: int, i: int)
    requires n <= |log|
    ensures 0 <= i < |log| && log[i].SetVal? ==> (Dead(log + [r], n, i) <==> Dead(log, n, i))
  {
    var log' := log + [r];
    if 0 <= i < |log| && log[i].SetVal? {
      if Dead(log, n, i) {
        var j :| i < j < n && Kills(log[j], log[i].tx);
        assert Kills(log'[j], log'[i].tx);
      }
      if Dead(log', n, i) {
        var j :| i < j < n && Kills(log'[j], log'[i].tx);
        assert Kills(log[j], log[i].tx);
      }
    }
  }

  // ---------- begin ----------

  lemma BeginOwn(s: State, t: int, l: Loc)
    requires Inv(s) && CanDo(s, Begin)
    ensures OwnOk(Step(s, Begin), t, l)
  {
    var n := s.nextTx + 1;
    assert OwnOk(s, t, l) && TxOk(s, t) && TxOk(s, n);
    assert forall b :: !HasLock(s, n, b);
    if t in s.txs {
      OwnOkAppend(s, Step(s, Begin), t, l, Start(n));
    }
  }

  lemma BeginRec(s: State, i: int)
    requires Inv(s) && CanDo(s, Begin)
    ensures SetOk(Step(s, Begin), i) && FinOk(Step(s, Begin), i) && LsnOk(Step(s, Begin), i)
  {
    assert SetOk(s, i) && FinOk(s, i) && LsnOk(s, i) && TxOk(s, s.nextTx + 1);
    DeadAppend(s.log, Start(s.nextTx + 1), s.flushed, i);
  }

  lemma BeginTx(s: State, t: int)
    requires Inv(s) && CanDo(s, Begin)
    ensures TxOk(Step(s, Begin), t) && BusyOk(Step(s, Begin), t)
  {
    assert TxOk(s, t) && TxOk(s, s.nextTx + 1) && BusyOk(s, t);
    BusyStays(s, Step(s, Begin), t);
  }

  lemma BeginFree(s: State, l: Loc)
    requires Inv(s) && CanDo(s, Begin)
    ensures FreeOk(Step(s, Begin), l) && FrameOk(Step(s, Begin), l)
  {
    assert FreeOk(s, l) && FrameOk(s, l) && TxOk(s, s.nextTx + 1);
    assert forall t :: HasX(Step(s, Begin), t, l.blk) == HasX(s, t, l.blk);
    assert forall t :: Changing(Step(s, Begin), t, l.blk) == Changing(s, t, l.blk);
  }

  lemma BeginKeeps(s: State)
    requires Inv(s) && CanDo(s, Begin)
    ensures Inv(Step(s, Begin))
  {
    var s' := Step(s, Begin);
    assert TxOk(s, s.nextTx + 1);
    HistKept(s, s');
    forall i
      ensures SetOk(s', i) && FinOk(s', i) && LsnOk(s', i)
    {
      BeginRec(s, i);
    }
    forall t
      ensures TxOk(s', t) && BusyOk(s', t)
    {
      BeginTx(s, t);
    }
    forall l
      ensures FreeOk(s', l) && FrameOk(s', l)
    {
      BeginFree(s, l);
    }
    forall t, l
      ensures OwnOk(s', t, l)
    {
      BeginOwn(s, t, l);
    }
  }

  /** What a transaction knows about its location survives a record that is not its own there. */
  lemma OwnOkAppend(s: State, s': State, t: int, l: Loc, r: Rec)
    requires t in s.txs && OwnOk(s, t, l) && TxOk(s, t) && SameRecord(s, s') && s'.flushed == s.flushed
    requires s'.log == s.log + [r] && !OwnRec(r, t, l)
    requires t in s'.txs && s'.txs[t] == s.txs[t]
    requires Cur(s', l) == Cur(s, l) && OnDisk(s'.disk, l) == OnDisk(s.disk, l)
    requires HasX(s', t, l.blk) ==> HasX(s, t, l.blk)
    ensures OwnOk(s', t, l)
  {
    OwnOldAppend(s.log, r, t, s.txs[t].start, l);
    if s.txs[t].phase.Undoing? {
      OwnOldAppend(s.log, r, t, s.txs[t].phase.pos, l);
    }
    if HasX(s', t, l.blk) && Unsettled(s', t) && DurableOwn(s, t, l) {
      var i :| s.txs[t].start < i < s.flushed && OwnRec(s.log[i], t, l);
      assert OwnRec(s'.log[i], t, l);
    }
  }

  // ---------- locking ----------

  lemma LockKeepsLog(s: State, la: LockAction)
    requires Inv(s) && CanDo(s, Lock(la))
    ensures LogInv(Step(s, Lock(la)))
  {
    var s' := Step(s, Lock(la));
    forall i
      ensures SetOk(s', i) && FinOk(s', i)
    {
      assert SetOk(s, i) && FinOk(s, i);
    }
    forall t
      ensures TxOk(s', t)
    {
      assert TxOk(s, t);
    }
  }

  /** A transaction has nothing to undo in a block it does not lock exclusively. */
  lemma NoRecordsUnlocked(s: State, t: int, l: Loc)
    requires Inv(s) && s.mode.Up? && Unsettled(s, t) && !HasX(s, t, l.blk)
    ensures OwnOld(s.log, t, s.txs[t].start, l) == None
    ensures View(s, t, l) == Committed(s, l)
  {
    assert TxOk(s, t);
    forall i | s.txs[t].start <= i < |s.log| && IsSet(s.log[i], l)
      ensures s.log[i].tx != t
    {
      assert SetOk(s, i);
    }
    OwnOldNone(s.log, t, s.txs[t].start, l);
    forall k
      ensures !Writes(s.hist, k, Me(s, t), l)
    {
      assert EventOk(s, k);
    }
    Unwritten(s.hist, Me(s, t), s.db, l);
  }

  lemma LockOwn(s: State, la: LockAction, t: int, l: Loc)
    requires Inv(s) && CanDo(s, Lock(la)) && LockInv(Step(s, Lock(la)).locks)
    requires t in s.txs && HasX(Step(s, Lock(la)), t, l.blk) && !HasX(s, t, l.blk)
    ensures OwnOk(Step(s, Lock(la)), t, l)
  {
    var s' := Step(s, Lock(la));
    assert FreeOk(s, l);
    forall u
      ensures !HasX(s, u, l.blk)
    {
      if HasX(s, u, l.blk) {
        Exclusion(s'.locks, Hold(u, l.blk), Hold(t, l.blk));
      }
    }
    NoRecordsUnlocked(s, t, l);
  }

  lemma LockKeepsValues(s: State, la: LockAction)
    requires Inv(s) && CanDo(s, Lock(la))
    ensures ValInv(Step(s, Lock(la)))
  {
    var s' := Step(s, Lock(la));
    StepKeepsInv(s.locks, la);
    assert forall t, b :: HasX(s, t, b) ==> HasX(s', t, b);
    forall i
      ensures LsnOk(s', i) && BusyOk(s', i)
    {
      assert LsnOk(s, i) && BusyOk(s, i);
      BusyStays(s, s', i);
    }
    forall l
      ensures FreeOk(s', l) && FrameOk(s', l)
    {
      FreeStays(s, s', l);
      FrameStays(s, s', l);
    }
    forall t, l
      ensures OwnOk(s', t, l)
    {
      if t in s.txs && HasX(s', t, l.blk) && !HasX(s, t, l.blk) {
        LockOwn(s, la, t, l);
      } else {
        OwnStays(s, s', t, l);
      }
    }
  }

  lemma LockKeeps(s: State, la: LockAction)
    requires Inv(s) && CanDo(s, Lock(la))
    ensures Inv(Step(s, Lock(la)))
  {
    var s' := Step(s, Lock(la));
    StepKeepsInv(s.locks, la);
    HistKept(s, s');
    LockKeepsLog(s, la);
    LockKeepsValues(s, la);
  }

  // ---------- operations ----------

  lemma EventAppend(s: State, s': State, e: Event, i: int)
    requires EventOk(s, i) && s'.hist == s.hist + [e] && s'.boot == s.boot && s'.mode == s.mode && s'.nextTx == s.nextTx
    requires s'.locks == s.locks && forall t :: Unsettled(s', t) == Unsettled(s, t)
    requires 0 <= i < |s.hist|
    ensures EventOk(s', i)
  {
    if s.hist[i].Did? {
      var u, o := s.hist[i].who, s.hist[i].op;
      if ReleasedAfter(s.hist, i, Crashed) {
        var k :| i < k < |s.hist| && s.hist[k] == Crashed;
        assert s'.hist[k] == Crashed;
      }
      if ReleasedAfter(s.hist, i, Released(u, o.loc.blk)) {
        var k :| i < k < |s.hist| && s.hist[k] == Released(u, o.loc.blk);
        assert s'.hist[k] == Released(u, o.loc.blk);
      }
    }
  }

  /** An operation under a lock comes after every conflicting transaction let go. */
  lemma NewOpSeparated(s: State, t: int, o: Op, i: int)
    requires Inv(s) && s.mode.Up? && Unsettled(s, t) && Covered(s, t, o)
    ensures Separated(s.hist + [Did(Me(s, t), o)], i, |s.hist|)
  {
    var hist' := s.hist + [Did(Me(s, t), o)];
    assert EventOk(s, i);
    if 0 <= i < |s.hist| && s.hist[i].Did? && s.hist[i].who != Me(s, t) && Conflict(s.hist[i].op, o) {
      var u, b := s.hist[i].who, o.loc.blk;
      if u.boot == s.boot && Covered(s, u.tx, s.hist[i].op) {
        if HasX(s, t, b) {
          Exclusion(s.locks, Hold(t, b), Hold(u.tx, b));
        } else {
          Exclusion(s.locks, Hold(u.tx, b), Hold(t, b));
        }
        assert false;
      }
      var e := if u.boot < s.boot then Crashed else Released(u, b);
      assert ReleasedAfter(s.hist, i, e);
      var k :| i < k < |s.hist| && s.hist[k] == e;
      assert hist'[k] == e;
    }
  }

  lemma SeparatedAppend(hist: seq<Event>, e: Event)
    requires forall i, j :: Separated(hist, i, j)
    requires forall i :: Separated(hist + [e], i, |hist|)
    ensures forall i, j :: Separated(hist + [e], i, j)
  {
    var hist' := hist + [e];
    forall i, j
      ensures Separated(hist', i, j)
    {
      assert Separated(hist, i, j);
      assert Separated(hist', i, |hist|);
      if && 0 <= i < j < |hist| && hist[i].Did? && hist[j].Did?
         && hist[i].who != hist[j].who && Conflict(hist[i].op, hist[j].op) {
        var k :| i < k < j && (hist[k] == Released(hist[i].who, hist[i].op.loc.blk) || hist[k] == Crashed);
        assert hist'[k] == hist[k];
      }
    }
  }

  /** An active transaction sees its own writes on top of what is committed. */
  lemma CurIsView(s: State, t: int, l: Loc)
    requires Inv(s) && s.mode.Up? && IsActive(s, t) && HasLock(s, t, l.blk)
    ensures Cur(s, l) == View(s, t, l)
  {
    assert OwnOk(s, t, l) && FreeOk(s, l);
    if !HasX(s, t, l.blk) {
      forall u
        ensures !HasX(s, u, l.blk)
      {
        if HasX(s, u, l.blk) {
          Exclusion(s.locks, Hold(u, l.blk), Hold(t, l.blk));
        }
      }
      NoRecordsUnlocked(s, t, l);
    }
  }

  lemma NotYetCommitted(s: State, t: int)
    requires Inv(s) && s.mode.Up? && Unsettled(s, t)
    ensures Me(s, t) !in s.order
  {
    assert TxOk(s, t);
  }

  lemma OpKeepsHistory(s: State, s': State, t: int, o: Op)
    requires Inv(s) && s.mode.Up? && Unsettled(s, t) && Covered(s, t, o)
    requires o.Read? ==> IsActive(s, t) && o.val == Cur(s, o.loc)
    requires s' == s.(cache := s'.cache, txs := s'.txs, hist := s.hist + [Did(Me(s, t), o)])
    requires forall u :: Unsettled(s', u) == Unsettled(s, u)
    ensures HistInv(s')
  {
    var e := Did(Me(s, t), o);
    assert TxOk(s, t);
    NotYetCommitted(s, t);
    forall i
      ensures EventOk(s', i) && Separated(s'.hist, i, |s.hist|)
    {
      assert EventOk(s, i);
      if 0 <= i < |s.hist| {
        EventAppend(s, s', e, i);
      }
      NewOpSeparated(s, t, o, i);
    }
    SeparatedAppend(s.hist, e);
    forall i, j
      ensures WriteLastOk(s', i, j)
    {
      assert WriteLastOk(s, i, j);
    }
    forall u
      ensures ReadsOk(s', u)
    {
      assert ReadsOk(s, u);
      OpsAppend(s.hist, e, Me(s, u));
      WritesAppend(Ops(s.hist, Me(s, u)), o, s.db);
      if o.Read? {
        CurIsView(s, t, o.loc);
      }
    }
    forall l
      ensures LastOk(s', l)
    {
      assert LastOk(s, l);
      LastCommittedFrame(s.hist, e, s.order, l);
    }
    SerialFrame(s.hist, e, s.order);
  }

  lemma ViewAppend(s: State, s': State, t: int, o: Op, u: int, l: Loc)
    requires s'.hist == s.hist + [Did(Me(s, t), o)] && s'.db == s.db && s'.boot == s.boot
    ensures View(s', u, l) == if u == t && o.Write? && o.loc == l then o.val else View(s, u, l)
  {
    OpsAppend(s.hist, Did(Me(s, t), o), Me(s, u));
    WritesAppend(Ops(s.hist, Me(s, u)), o, s.db);
  }

  lemma ReadKeeps(s: State, t: int, l: Loc)
    requires Inv(s) && CanDo(s, DoRead(t, l))
    ensures Inv(Step(s, DoRead(t, l)))
  {
    var s' := Step(s, DoRead(t, l));
    var o := Op.Read(l, Cur(s, l));
    assert s' == s.(hist := s.hist + [Did(Me(s, t), o)]);
    OpKeepsHistory(s, s', t, o);
    ReadKeepsLog(s, s');
    forall i
      ensures LsnOk(s', i) && BusyOk(s', i)
    {
      assert LsnOk(s, i) && BusyOk(s, i);
    }
    forall l
      ensures FreeOk(s', l) && FrameOk(s', l)
    {
      FreeStays(s, s', l);
      FrameStays(s, s', l);
    }
    forall u, l
      ensures OwnOk(s', u, l)
    {
      ViewAppend(s, s', t, o, u, l);
      OwnStays(s, s', u, l);
    }
  }

  lemma ReadKeepsLog(s: State, s': State)
    requires LogInv(s) && s.mode.Up? && s' == s.(hist := s'.hist)
    ensures LogInv(s')
  {
    forall i
      ensures SetOk(s', i) && FinOk(s', i) && TxOk(s', i)
    {
      assert SetOk(s, i) && FinOk(s, i) && TxOk(s, i);
    }
  }

  // ---------- a write ----------

  /** First the log record. */
  lemma LogWriteKeepsLog(s: State, t: int, l: Loc, v: Value)
    requires Inv(s) && CanDo(s, LogWrite(t, l, v))
    ensures LogInv(Step(s, LogWrite(t, l, v)))
  {
    var s' := Step(s, LogWrite(t, l, v));
    assert TxOk(s, t);
    forall i
      ensures SetOk(s', i) && FinOk(s', i) && TxOk(s', i)
    {
      assert SetOk(s, i) && FinOk(s, i) && TxOk(s, i);
      Logging(s, s', t, l, i);
      LoggingTx(s, s', t, l, i);
    }
  }

  /** t's record of a write at l is appended. */
  ghost predicate LogsSet(s: State, s': State, t: int, l: Loc) {
    && s.mode.Up? && IsActive(s, t) && HasX(s, t, l.blk) && TxOk(s, t) && t in s'.txs
    && s' == s.(log := s.log + [SetVal(t, l, Cur(s, l))], txs := s.txs[t := s'.txs[t]])
    && s'.txs[t].start == s.txs[t].start && s'.txs[t].phase.Logged?
  }

  lemma Logging(s: State, s': State, t: int, l: Loc, i: int)
    requires LogsSet(s, s', t, l) && SetOk(s, i) && FinOk(s, i)
    ensures SetOk(s', i) && FinOk(s', i)
  {
    DeadAppend(s.log, SetVal(t, l, Cur(s, l)), s.flushed, i);
  }

  lemma LoggingTx(s: State, s': State, t: int, l: Loc, u: int)
    requires LogsSet(s, s', t, l) && TxOk(s, u)
    ensures TxOk(s', u)
  {
  }

  lemma LogWriteOwn(s: State, s': State, t: int, l: Loc, u: int, m: Loc)
    requires LogsSet(s, s', t, l) && OwnOk(s, u, m) && TxOk(s, u)
    ensures OwnOk(s', u, m)
  {
    var r := SetVal(t, l, Cur(s, l));
    assert View(s', u, m) == View(s, u, m);
    if u in s.txs && HasX(s, u, m.blk) {
      OwnOldAppend(s.log, r, u, s.txs[u].start, m);
      if s.txs[u].phase.Undoing? {
        OwnOldAppend(s.log, r, u, s.txs[u].phase.pos, m);
      }
      if DurableOwn(s, u, m) {
        var i :| s.txs[u].start < i < s.flushed && OwnRec(s.log[i], u, m);
        assert OwnRec(s'.log[i], u, m);
      }
    }
  }

  lemma LogWriteBusy(s: State, t: int, l: Loc, v: Value, u: int)
    requires Inv(s) && CanDo(s, LogWrite(t, l, v))
    ensures BusyOk(Step(s, LogWrite(t, l, v)), u)
  {
    assert TxOk(s, t) && BusyOk(s, u);
    if u != t {
      BusyStays(s, Step(s, LogWrite(t, l, v)), u);
    }
  }

  lemma LogWriteKeeps(s: State, t: int, l: Loc, v: Value)
    requires Inv(s) && CanDo(s, LogWrite(t, l, v))
    ensures Inv(Step(s, LogWrite(t, l, v)))
  {
    var s' := Step(s, LogWrite(t, l, v));
    assert TxOk(s, t);
    HistKept(s, s');
    LogWriteKeepsLog(s, t, l, v);
    forall i
      ensures LsnOk(s', i)
    {
      assert LsnOk(s, i);
    }
    forall m: Loc
      ensures FreeOk(s', m) && FrameOk(s', m)
    {
      assert FreeOk(s, m) && FrameOk(s, m);
      assert forall u :: HasX(s', u, m.blk) == HasX(s, u, m.blk);
      assert forall u :: Changing(s', u, m.blk) == Changing(s, u, m.blk);
    }
    forall u, m
      ensures OwnOk(s', u, m)
    {
      assert OwnOk(s, u, m) && TxOk(s, u);
      LogWriteOwn(s, s', t, l, u, m);
    }
    forall u
      ensures BusyOk(s', u)
    {
      LogWriteBusy(s, t, l, v, u);
    }
  }

  /** Nobody else has the page of a write in hand. */
  lemma OnlyWriter(s: State, t: int, u: int, b: Block)
    requires Inv(s) && s.mode.Up? && HasX(s, t, b) && HasX(s, u, b)
    ensures u == t
  {
    if u != t {
      Exclusion(s.locks, Hold(t, b), Hold(u, b));
    }
  }

  /** A step that moves a writer on keeps what is said of the log. */
  lemma WriterKeepsLog(s: State, s': State, t: int)
    requires Inv(s) && s.mode.Up? && IsWriting(s, t) && t in s'.txs && s'.txs[t].start == s.txs[t].start
    requires s'.txs[t].phase.Changed? || s'.txs[t].phase.Active?
    requires s' == s.(cache := s'.cache, txs := s.txs[t := s'.txs[t]], hist := s'.hist)
    ensures LogInv(s')
  {
    forall i
      ensures SetOk(s', i) && FinOk(s', i) && TxOk(s', i)
    {
      assert SetOk(s, i) && FinOk(s, i) && TxOk(s, i);
    }
  }

  /** Then the page. */
  lemma ChangePageOwn(s: State, t: int, u: int, m: Loc)
    requires Inv(s) && CanDo(s, ChangePage(t))
    ensures OwnOk(Step(s, ChangePage(t)), u, m)
  {
    var s', l, v := Step(s, ChangePage(t)), s.txs[t].phase.loc, s.txs[t].phase.val;
    assert BusyOk(s, t) && OwnOk(s, u, m);
    ViewAppend(s, s', t, Op.Write(l, v), u, m);
    if u == t {
      ChangePageMine(s, s', t, m);
    } else if u in s.txs && HasX(s, u, m.blk) {
      if m.blk == l.blk {
        OnlyWriter(s, t, u, m.blk);
      }
      OwnStays(s, s', u, m);
    }
  }

  lemma ChangePageMine(s: State, s': State, t: int, m: Loc)
    requires t in s.txs && s.txs[t].phase.Logged? && BusyOk(s, t) && OwnOk(s, t, m) && t in s'.txs
    requires s'.txs[t] == Tx(s.txs[t].start, Changed(s.txs[t].phase.loc, s.txs[t].phase.lsn))
    requires s' == s.(cache := s'.cache, txs := s'.txs, hist := s'.hist)
    requires View(s', t, m) == if s.txs[t].phase.loc == m then s.txs[t].phase.val else View(s, t, m)
    requires Cur(s', m) == if s.txs[t].phase.loc == m then s.txs[t].phase.val else Cur(s, m)
    ensures OwnOk(s', t, m)
  {
    assert DurableOwn(s, t, m) ==> DurableOwn(s', t, m);
    if m == s.txs[t].phase.loc {
      OwnOldSome(s.log, t, s.txs[t].start, m, s.txs[t].phase.lsn - 1);
    }
  }

  lemma {:induction false} OwnOldSome(log: seq<Rec>, t: int, from: nat, l: Loc, i: nat)
    requires from <= i < |log| && OwnRec(log[i], t, l)
    ensures OwnOld(log, t, from, l).Some?
  {
    if OwnOld(log, t, from, l) == None {
      OwnOldLater(log, t, from, i, l);
    }
  }

  lemma ChangePageBusy(s: State, t: int, u: int)
    requires Inv(s) && CanDo(s, ChangePage(t))
    ensures BusyOk(Step(s, ChangePage(t)), u)
  {
    assert BusyOk(s, t) && BusyOk(s, u);
    if u != t && IsWriting(s, u) {
      if s.txs[u].phase.loc.blk == s.txs[t].phase.loc.blk {
        OnlyWriter(s, t, u, s.txs[t].phase.loc.blk);
      }
      BusyStays(s, Step(s, ChangePage(t)), u);
    }
  }

  lemma ChangePageKeeps(s: State, t: int)
    requires Inv(s) && CanDo(s, ChangePage(t))
    ensures Inv(Step(s, ChangePage(t)))
  {
    var s', l := Step(s, ChangePage(t)), s.txs[t].phase.loc;
    assert BusyOk(s, t);
    OpKeepsHistory(s, s', t, Op.Write(l, s.txs[t].phase.val));
    WriterKeepsLog(s, s', t);
    forall i
      ensures LsnOk(s', i)
    {
      assert LsnOk(s, i);
    }
    forall m: Loc
      ensures FreeOk(s', m) && FrameOk(s', m)
    {
      assert FreeOk(s, m) && FrameOk(s, m);
      assert HasX(s', t, l.blk) && Changing(s', t, l.blk);
      assert forall u :: HasX(s', u, m.blk) == HasX(s, u, m.blk);
      assert forall u :: u != t ==> Changing(s', u, m.blk) == Changing(s, u, m.blk);
    }
    forall u, m
      ensures OwnOk(s', u, m)
    {
      ChangePageOwn(s, t, u, m);
    }
    forall u
      ensures BusyOk(s', u)
    {
      ChangePageBusy(s, t, u);
    }
  }

  /** And at last the mark, with the number of the log record. */
  lemma MarkPageLsn(s: State, t: int, i: int)
    requires Inv(s) && CanDo(s, MarkPage(t))
    ensures LsnOk(Step(s, MarkPage(t)), i)
  {
    assert BusyOk(s, t) && LsnOk(s, i) && SetOk(s, i) && TxOk(s, t);
    if s.flushed <= i < |s.log| && s.log[i].SetVal? && s.log[i].loc.blk == s.txs[t].phase.loc.blk {
      OnlyWriter(s, t, s.log[i].tx, s.log[i].loc.blk);
    }
  }

  lemma MarkPageFrame(s: State, t: int, m: Loc)
    requires Inv(s) && CanDo(s, MarkPage(t))
    ensures FreeOk(Step(s, MarkPage(t)), m) && FrameOk(Step(s, MarkPage(t)), m)
  {
    var s', b := Step(s, MarkPage(t)), s.txs[t].phase.loc.blk;
    assert BusyOk(s, t) && FreeOk(s, m) && FrameOk(s, m) && TxOk(s, t);
    assert forall u :: HasX(s', u, m.blk) == HasX(s, u, m.blk);
    if m.blk == b {
      assert MarkedByOwner(s', b);
    } else {
      assert forall u :: Changing(s', u, m.blk) == Changing(s, u, m.blk);
    }
  }

  lemma MarkPageOwn(s: State, t: int, u: int, m: Loc)
    requires CanDo(s, MarkPage(t)) && OwnOk(s, u, m)
    ensures OwnOk(Step(s, MarkPage(t)), u, m)
  {
    var s' := Step(s, MarkPage(t));
    assert View(s', u, m) == View(s, u, m) && Cur(s', m) == Cur(s, m);
    if u == t {
      assert DurableOwn(s, u, m) ==> DurableOwn(s', u, m);
    } else {
      OwnStays(s, s', u, m);
    }
  }

  lemma MarkPageBusy(s: State, t: int, u: int)
    requires CanDo(s, MarkPage(t)) && BusyOk(s, u)
    ensures BusyOk(Step(s, MarkPage(t)), u)
  {
    if u != t {
      assert IsWriting(s, u) ==> Cur(Step(s, MarkPage(t)), s.txs[u].phase.loc) == Cur(s, s.txs[u].phase.loc);
      BusyStays(s, Step(s, MarkPage(t)), u);
    }
  }

  lemma MarkPageKeeps(s: State, t: int)
    requires Inv(s) && CanDo(s, MarkPage(t))
    ensures Inv(Step(s, MarkPage(t)))
  {
    var s' := Step(s, MarkPage(t));
    assert BusyOk(s, t);
    HistKept(s, s');
    WriterKeepsLog(s, s', t);
    forall i
      ensures LsnOk(s', i)
    {
      MarkPageLsn(s, t, i);
    }
    forall m: Loc
      ensures FreeOk(s', m) && FrameOk(s', m)
    {
      MarkPageFrame(s, t, m);
    }
    forall u, m
      ensures OwnOk(s', u, m)
    {
      MarkPageOwn(s, t, u, m);
    }
    forall u
      ensures BusyOk(s', u)
    {
      assert BusyOk(s, u);
      MarkPageBusy(s, t, u);
    }
  }

  // ---------- commit and rollback ----------

  ghost predicate Finishing(s: State, s': State, t: int, commit: bool) {
    && t in s.txs && s.txs[t].phase == Flushing({}, commit)
    && s' == s.(log := s.log + [if commit then Commit(t) else Rollback(t)],
                txs := s.txs[t := s.txs[t].(phase := Ending(|s.log| + 1, commit))])
  }

  lemma FinishRec(s: State, s': State, t: int, commit: bool, i: int)
    requires LogInv(s) && s.flushed <= |s.log| && Finishing(s, s', t, commit)
    ensures SetOk(s', i) && FinOk(s', i)
  {
    assert TxOk(s, t) && SetOk(s, i) && FinOk(s, i);
    DeadAppend(s.log, Last(s'.log), s.flushed, i);
  }

  lemma FinishTx(s: State, s': State, t: int, commit: bool, u: int)
    requires LogInv(s) && s.flushed <= |s.log| && Finishing(s, s', t, commit)
    requires u in s.txs ==> EndDurable(s', u) == EndDurable(s, u)
    ensures TxOk(s', u)
  {
    assert TxOk(s, u);
  }

  /** Appending a finish record: the pages of t are on disk already. */
  lemma FinishKeepsLog(s: State, s': State, t: int, commit: bool)
    requires Inv(s) && s.mode.Up? && t in s.txs && s.txs[t].phase == Flushing({}, commit)
    requires s' == s.(log := s.log + [if commit then Commit(t) else Rollback(t)],
                      txs := s.txs[t := s.txs[t].(phase := Ending(|s.log| + 1, commit))])
    ensures LogInv(s')
  {
    forall i
      ensures SetOk(s', i) && FinOk(s', i) && TxOk(s', i)
    {
      FinishRec(s, s', t, commit, i);
      FinishTx(s, s', t, commit, i);
    }
  }

  lemma FinishFree(s: State, s': State, t: int, commit: bool, l: Loc)
    requires Inv(s) && s.mode.Up? && Finishing(s, s', t, commit)
    ensures FreeOk(s', l) && FrameOk(s', l)
  {
    assert FreeOk(s, l) && FrameOk(s, l) && OwnOk(s, t, l);
    assert forall u :: HasX(s', u, l.blk) == HasX(s, u, l.blk);
    assert forall u :: Changing(s', u, l.blk) == Changing(s, u, l.blk);
  }

  lemma FinishOwn(s: State, s': State, t: int, commit: bool, u: int, l: Loc)
    requires Finishing(s, s', t, commit) && OwnOk(s, u, l) && TxOk(s, u)
    ensures OwnOk(s', u, l)
  {
    assert View(s', u, l) == View(s, u, l);
    if u in s.txs {
      OwnOldAppend(s.log, Last(s'.log), u, s.txs[u].start, l);
      if s.txs[u].phase.Undoing? {
        OwnOldAppend(s.log, Last(s'.log), u, s.txs[u].phase.pos, l);
      }
      if DurableOwn(s, u, l) {
        var i :| s.txs[u].start < i < s.flushed && OwnRec(s.log[i], u, l);
        assert OwnRec(s'.log[i], u, l);
      }
    }
  }

  lemma FinishKeepsValues(s: State, s': State, t: int, commit: bool)
    requires Inv(s) && s.mode.Up? && Finishing(s, s', t, commit)
    ensures ValInv(s')
  {
    forall i
      ensures LsnOk(s', i)
    {
      assert LsnOk(s, i);
    }
    forall l
      ensures FreeOk(s', l) && FrameOk(s', l)
    {
      FinishFree(s, s', t, commit, l);
    }
    forall u, l
      ensures OwnOk(s', u, l)
    {
      assert OwnOk(s, u, l) && TxOk(s, u);
      FinishOwn(s, s', t, commit, u, l);
    }
    FinishKeepsBusy(s, s', t, commit);
  }

  lemma FinishKeepsBusy(s: State, s': State, t: int, commit: bool)
    requires Inv(s) && s.mode.Up? && Finishing(s, s', t, commit)
    ensures forall u :: BusyOk(s', u)
  {
    forall u
      ensures BusyOk(s', u)
    {
      assert BusyOk(s, u);
      BusyStays(s, s', u);
    }
  }

  lemma AppendCommitKeeps(s: State, t: int)
    requires Inv(s) && CanDo(s, AppendCommit(t))
    ensures Inv(Step(s, AppendCommit(t)))
  {
    var s' := Step(s, AppendCommit(t));
    FinishKeepsLog(s, s', t, true);
    FinishKeepsValues(s, s', t, true);
    HistKept(s, s');
  }

  lemma AppendRollbackKeeps(s: State, t: int)
    requires Inv(s) && CanDo(s, AppendRollback(t))
    ensures Inv(Step(s, AppendRollback(t)))
  {
    var s' := Step(s, AppendRollback(t));
    FinishKeepsLog(s, s', t, false);
    FinishKeepsValues(s, s', t, false);
    HistKept(s, s');
  }

  /** Moving t to another phase before its end is logged. */
  lemma PhaseKeepsLog(s: State, s': State, t: int)
    requires Inv(s) && s.mode.Up? && t in s.txs && !s.txs[t].phase.Ending?
    requires t in s'.txs && !s'.txs[t].phase.Ending? && PhaseOk(s', t) && s'.txs[t].start == s.txs[t].start
    requires s' == s.(cache := s'.cache, txs := s.txs[t := s'.txs[t]])
    ensures LogInv(s')
  {
    forall i
      ensures SetOk(s', i) && FinOk(s', i)
    {
      assert SetOk(s, i) && FinOk(s, i);
    }
    forall u
      ensures TxOk(s', u)
    {
      assert TxOk(s, u) && TxOk(s, t);
    }
  }

  lemma PhaseOwn(s: State, s': State, t: int, u: int, l: Loc)
    requires t in s.txs && t in s'.txs && s' == s.(txs := s.txs[t := s'.txs[t]]) && s'.txs[t].start == s.txs[t].start
    requires !s.txs[t].phase.Ending? && !s'.txs[t].phase.Ending?
    requires OwnOk(s, u, l) && (HasX(s, t, l.blk) ==> CurOk(s', t, l))
    ensures OwnOk(s', u, l)
  {
    assert View(s', u, l) == View(s, u, l);
    assert u in s.txs && DurableOwn(s, u, l) ==> DurableOwn(s', u, l);
  }

  /** A step that only moves t to another phase. */
  lemma PhaseKeeps(s: State, s': State, t: int)
    requires Inv(s) && s.mode.Up? && t in s.txs && !s.txs[t].phase.Ending? && (forall h :: h in s.locks.halfway ==> h.tx != t)
    requires t in s'.txs && !s'.txs[t].phase.Ending? && PhaseOk(s', t) && s'.txs[t].start == s.txs[t].start
    requires s' == s.(txs := s.txs[t := s'.txs[t]]) && !IsWriting(s, t) && !IsWriting(s', t)
    requires forall l: Loc :: HasX(s, t, l.blk) ==> CurOk(s', t, l)
    ensures Inv(s')
  {
    PhaseKeepsLog(s, s', t);
    HistKept(s, s');
    forall i
      ensures LsnOk(s', i) && BusyOk(s', i)
    {
      assert LsnOk(s, i) && BusyOk(s, i);
      BusyStays(s, s', i);
    }
    forall l
      ensures FreeOk(s', l) && FrameOk(s', l)
    {
      FreeStays(s, s', l);
      FrameStays(s, s', l);
    }
    forall u, l
      ensures OwnOk(s', u, l)
    {
      PhaseOwn(s, s', t, u, l);
    }
  }

  lemma StartRollbackKeeps(s: State, t: int)
    requires Inv(s) && CanDo(s, StartRollback(t))
    ensures Inv(Step(s, StartRollback(t)))
  {
    var s' := Step(s, StartRollback(t));
    assert TxOk(s, t);
    forall l: Loc | HasX(s, t, l.blk)
      ensures CurOk(s', t, l)
    {
      assert OwnOk(s, t, l);
    }
    PhaseKeeps(s, s', t);
  }

  lemma StartFlushKeeps(s: State, t: int)
    requires Inv(s) && CanDo(s, StartFlush(t))
    ensures Inv(Step(s, StartFlush(t)))
  {
    var s' := Step(s, StartFlush(t));
    forall l: Loc | HasX(s, t, l.blk)
      ensures CurOk(s', t, l)
    {
      assert OwnOk(s, t, l);
    }
    PhaseKeeps(s, s', t);
  }

  /** A frame that differs from the disk is marked by whoever locks its block exclusively. */
  lemma DifferingIsMarked(s: State, t: int, l: Loc)
    requires Inv(s) && s.mode.Up? && t in s.txs && HasX(s, t, l.blk) && !Marked(s, t, l.blk) && !IsWriting(s, t)
    ensures Cur(s, l) == OnDisk(s.disk, l)
  {
    assert FrameOk(s, l);
    if l.blk in s.cache && Cur(s, l) != OnDisk(s.disk, l) {
      if MarkedByOwner(s, l.blk) {
        OnlyWriter(s, t, s.cache[l.blk].tx, l.blk);
      } else {
        var u :| Changing(s, u, l.blk);
        assert BusyOk(s, u);
        OnlyWriter(s, t, u, l.blk);
      }
    }
  }

  /** A record do_rollback undoes lies in a block its transaction still locks. */
  lemma UndoneIsLocked(s: State, t: int, i: int)
    requires Inv(s) && s.mode.Up? && Unsettled(s, t) && s.txs[t].start < i < |s.log|
    requires s.log[i].SetVal? && s.log[i].tx == t
    ensures HasX(s, t, s.log[i].loc.blk)
  {
    assert SetOk(s, i) && TxOk(s, t);
  }

  /** What one turn of do_rollback changes. */
  lemma UndoEffect(s: State, t: int, l: Loc) returns (tx': Tx)
    requires CanDo(s, UndoOne(t))
    ensures
      var s', r := Step(s, UndoOne(t)), NextRec(s, s.txs[t].phase.pos);
      && tx' == s.txs[t].(phase := if r == Start(t) then Undone else Undoing(s.txs[t].phase.pos - 1))
      && s' == s.(cache := s'.cache, txs := s.txs[t := tx'])
      && Cur(s', l) == if OwnRec(r, t, l) then r.was else Cur(s, l)
  {
    var r := NextRec(s, s.txs[t].phase.pos);
    tx' := s.txs[t].(phase := if r == Start(t) then Undone else Undoing(s.txs[t].phase.pos - 1));
  }

  lemma UndoOneOwn(s: State, s': State, t: int, l: Loc, r: Rec)
    requires t in s.txs && s.txs[t].phase.Undoing? && TxOk(s, t) && OwnOk(s, t, l)
    requires r == NextRec(s, s.txs[t].phase.pos)
    requires s' == s.(cache := s'.cache, txs := s.txs[t :=
                 s.txs[t].(phase := if r == Start(t) then Undone else Undoing(s.txs[t].phase.pos - 1))])
    requires Cur(s', l) == if OwnRec(r, t, l) then r.was else Cur(s, l)
    ensures OwnOk(s', t, l)
  {
    var pos := s.txs[t].phase.pos;
    if r == Start(t) {
      assert pos == s.txs[t].start + 1;
    }
    assert OwnOld(s.log, t, pos - 1, l) == if OwnRec(r, t, l) then Some(r.was) else OwnOld(s.log, t, pos, l);
    assert DurableOwn(s, t, l) ==> DurableOwn(s', t, l);
  }

  lemma UndoOneOther(s: State, t: int, u: int, l: Loc)
    requires Inv(s) && CanDo(s, UndoOne(t)) && u != t
    ensures OwnOk(Step(s, UndoOne(t)), u, l)
  {
    var s' := Step(s, UndoOne(t));
    var pos := s.txs[t].phase.pos;
    var tx' := UndoEffect(s, t, l);
    assert TxOk(s, t) && OwnOk(s, u, l);
    if HasX(s, u, l.blk) && OwnRec(NextRec(s, pos), t, l) {
      UndoneIsLocked(s, t, pos - 1);
      Exclusion(s.locks, Hold(u, l.blk), Hold(t, l.blk));
      assert false;
    }
    SameOwnOk(s, s', u, l);
  }

  lemma SameOwnOk(s: State, s': State, u: int, l: Loc)
    requires OwnOk(s, u, l)
    requires s' == s.(cache := s'.cache, txs := s'.txs)
    requires u in s.txs <==> u in s'.txs
    requires u in s.txs ==> s'.txs[u] == s.txs[u]
    requires HasX(s, u, l.blk) ==> Cur(s', l) == Cur(s, l)
    ensures OwnOk(s', u, l)
  {
    assert u in s.txs && DurableOwn(s, u, l) ==> DurableOwn(s', u, l);
  }

  lemma UndoOneFree(s: State, t: int, l: Loc)
    requires Inv(s) && CanDo(s, UndoOne(t))
    ensures FreeOk(Step(s, UndoOne(t)), l)
  {
    var r := NextRec(s, s.txs[t].phase.pos);
    assert TxOk(s, t) && FreeOk(s, l);
    if OwnRec(r, t, l) {
      UndoneIsLocked(s, t, s.txs[t].phase.pos - 1);
    }
    var tx' := UndoEffect(s, t, l);
    assert forall u :: HasX(Step(s, UndoOne(t)), u, l.blk) == HasX(s, u, l.blk);
  }

  /** The block of the record undone, if one of t's is. */
  lemma UndoneBlock(s: State, t: int)
    requires Inv(s) && CanDo(s, UndoOne(t))
    ensures
      var r := NextRec(s, s.txs[t].phase.pos);
      r.SetVal? && r.tx == t ==> HasX(s, t, r.loc.blk) && t >= 0
  {
    assert TxOk(s, t);
    if NextRec(s, s.txs[t].phase.pos).SetVal? && NextRec(s, s.txs[t].phase.pos).tx == t {
      UndoneIsLocked(s, t, s.txs[t].phase.pos - 1);
    }
  }

  lemma UndoOneFrame(s: State, t: int, l: Loc)
    requires Inv(s) && CanDo(s, UndoOne(t))
    ensures FrameOk(Step(s, UndoOne(t)), l)
  {
    assert FrameOk(s, l);
    UndoneBlock(s, t);
    UndoneFrame(s, t, l);
  }

  lemma UndoneFrame(s: State, t: int, l: Loc)
    requires CanDo(s, UndoOne(t)) && FrameOk(s, l)
    requires
      var r := NextRec(s, s.txs[t].phase.pos);
      r.SetVal? && r.tx == t ==> HasX(s, t, r.loc.blk) && t >= 0
    ensures FrameOk(Step(s, UndoOne(t)), l)
  {
    var s', r := Step(s, UndoOne(t)), NextRec(s, s.txs[t].phase.pos);
    var tx' := UndoEffect(s, t, l);
    if r.SetVal? && r.tx == t && r.loc.blk == l.blk {
      assert MarkedByOwner(s', l.blk);
    } else {
      FrameStays(s, s', l);
    }
  }

  lemma UndoOneBusy(s: State, t: int, u: int)
    requires Inv(s) && CanDo(s, UndoOne(t))
    ensures BusyOk(Step(s, UndoOne(t)), u)
  {
    assert BusyOk(s, u);
    UndoneBlock(s, t);
    var r := NextRec(s, s.txs[t].phase.pos);
    if u != t && IsWriting(s, u) {
      if r.SetVal? && r.tx == t && r.loc.blk == s.txs[u].phase.loc.blk {
        OnlyWriter(s, t, u, r.loc.blk);
      }
      UndoneBusy(s, t, u);
    }
  }

  lemma UndoneBusy(s: State, t: int, u: int)
    requires CanDo(s, UndoOne(t)) && BusyOk(s, u) && u != t && IsWriting(s, u)
    requires
      var r := NextRec(s, s.txs[t].phase.pos);
      r.SetVal? && r.tx == t ==> r.loc.blk != s.txs[u].phase.loc.blk
    ensures BusyOk(Step(s, UndoOne(t)), u)
  {
    var tx' := UndoEffect(s, t, s.txs[u].phase.loc);
    BusyStays(s, Step(s, UndoOne(t)), u);
  }

  lemma UndoOneLsn(s: State, t: int, i: int)
    requires CanDo(s, UndoOne(t)) && LsnOk(s, i) && TxOk(s, t)
    ensures LsnOk(Step(s, UndoOne(t)), i)
  {
  }

  lemma UndoOneKeepsValues(s: State, t: int)
    requires Inv(s) && CanDo(s, UndoOne(t))
    ensures ValInv(Step(s, UndoOne(t)))
  {
    var s' := Step(s, UndoOne(t));
    forall i
      ensures LsnOk(s', i) && BusyOk(s', i)
    {
      assert LsnOk(s, i) && TxOk(s, t);
      UndoOneLsn(s, t, i);
      UndoOneBusy(s, t, i);
    }
    forall l
      ensures FreeOk(s', l) && FrameOk(s', l)
    {
      UndoOneFree(s, t, l);
      UndoOneFrame(s, t, l);
    }
    forall u, l
      ensures OwnOk(s', u, l)
    {
      UndoOneOwns(s, t, u, l);
    }
  }

  lemma UndoOneOwns(s: State, t: int, u: int, l: Loc)
    requires Inv(s) && CanDo(s, UndoOne(t))
    ensures OwnOk(Step(s, UndoOne(t)), u, l)
  {
    if u == t {
      assert OwnOk(s, t, l) && TxOk(s, t);
      var _ := UndoEffect(s, t, l);
      UndoOneOwn(s, Step(s, UndoOne(t)), t, l, NextRec(s, s.txs[t].phase.pos));
    } else {
      UndoOneOther(s, t, u, l);
    }
  }

  lemma UndoOneKeeps(s: State, t: int)
    requires Inv(s) && CanDo(s, UndoOne(t))
    ensures Inv(Step(s, UndoOne(t)))
  {
    var s' := Step(s, UndoOne(t));
    UndoOneMoves(s, t);
    PhaseKeepsLog(s, s', t);
    UndoOneKeepsValues(s, t);
    HistKept(s, s');
  }

  lemma UndoOneMoves(s: State, t: int)
    requires Inv(s) && CanDo(s, UndoOne(t))
    ensures
      var s' := Step(s, UndoOne(t));
      && t in s'.txs && !s'.txs[t].phase.Ending? && s'.txs[t].start == s.txs[t].start && PhaseOk(s', t)
      && s' == s.(cache := s'.cache, txs := s.txs[t := s'.txs[t]])
  {
    assert TxOk(s, t) && PhaseOk(s, t);
    var tx' := UndoEffect(s, t, Loc(Block("", 0), 0));
  }

  // ---------- letting go of locks ----------

  /** Once its end is durable a transaction's blocks are as good as free. */
  lemma SettledIsClean(s: State, t: int, l: Loc)
    requires Inv(s) && s.mode.Up? && t in s.txs && !Unsettled(s, t) && HasX(s, t, l.blk)
    ensures Cur(s, l) == Committed(s, l) && OnDisk(s.disk, l) == Committed(s, l)
  {
    assert OwnOk(s, t, l) && FrameOk(s, l);
    if l.blk in s.cache && Cur(s, l) != OnDisk(s.disk, l) {
      if MarkedByOwner(s, l.blk) {
        OnlyWriter(s, t, s.cache[l.blk].tx, l.blk);
      } else {
        var u :| Changing(s, u, l.blk);
        assert BusyOk(s, u);
        OnlyWriter(s, t, u, l.blk);
      }
      assert false;
    }
  }

  lemma ReleaseKeepsHistory(s: State, t: int, b: Block)
    requires Inv(s) && CanDo(s, Release(t, b))
    ensures HistInv(Step(s, Release(t, b)))
  {
    var s' := Step(s, Release(t, b));
    var e := Released(Me(s, t), b);
    forall i
      ensures EventOk(s', i)
    {
      assert EventOk(s, i);
      if 0 <= i < |s.hist| {
        ReleaseEvent(s, t, b, i);
      }
    }
    forall i
      ensures Separated(s'.hist, i, |s.hist|)
    {
      assert !s'.hist[|s.hist|].Did?;
    }
    SeparatedAppend(s.hist, e);
    forall i, j
      ensures WriteLastOk(s', i, j)
    {
      assert WriteLastOk(s, i, j);
    }
    forall u
      ensures ReadsOk(s', u)
    {
      assert ReadsOk(s, u);
      OpsAppend(s.hist, e, Me(s, u));
    }
    forall l
      ensures LastOk(s', l)
    {
      assert LastOk(s, l);
      LastCommittedFrame(s.hist, e, s.order, l);
    }
    SerialFrame(s.hist, e, s.order);
  }

  lemma ReleaseEvent(s: State, t: int, b: Block, i: int)
    requires Inv(s) && CanDo(s, Release(t, b)) && 0 <= i < |s.hist|
    ensures EventOk(Step(s, Release(t, b)), i)
  {
    var s' := Step(s, Release(t, b));
    assert EventOk(s, i);
    if s.hist[i].Did? {
      var u, o := s.hist[i].who, s.hist[i].op;
      if ReleasedAfter(s.hist, i, Crashed) {
        var k :| i < k < |s.hist| && s.hist[k] == Crashed;
        assert s'.hist[k] == Crashed;
      }
      if ReleasedAfter(s.hist, i, Released(u, o.loc.blk)) {
        var k :| i < k < |s.hist| && s.hist[k] == Released(u, o.loc.blk);
        assert s'.hist[k] == Released(u, o.loc.blk);
      }
      if u == Me(s, t) && o.loc.blk == b {
        assert s'.hist[|s.hist|] == Released(u, b);
      }
    }
  }

  lemma ReleaseFree(s: State, t: int, b: Block, l: Loc)
    requires Inv(s) && CanDo(s, Release(t, b))
    ensures FreeOk(Step(s, Release(t, b)), l) && FrameOk(Step(s, Release(t, b)), l)
  {
    var s' := Step(s, Release(t, b));
    assert FreeOk(s, l) && FrameOk(s, l);
    if HasX(s, t, l.blk) {
      SettledIsClean(s, t, l);
    }
    assert forall u :: HasX(s', u, l.blk) <==> HasX(s, u, l.blk) && (u != t || l.blk != b);
    assert forall u :: Changing(s', u, l.blk) == Changing(s, u, l.blk);
  }

  lemma ReleaseOwn(s: State, t: int, b: Block, u: int, l: Loc)
    requires CanDo(s, Release(t, b)) && OwnOk(s, u, l)
    ensures OwnOk(Step(s, Release(t, b)), u, l)
  {
    OpsAppend(s.hist, Released(Me(s, t), b), Me(s, u));
    OwnStays(s, Step(s, Release(t, b)), u, l);
  }

  lemma ReleaseRest(s: State, t: int, b: Block, i: int)
    requires CanDo(s, Release(t, b)) && SetOk(s, i) && FinOk(s, i) && LsnOk(s, i) && TxOk(s, i) && BusyOk(s, i)
    ensures
      var s' := Step(s, Release(t, b));
      SetOk(s', i) && FinOk(s', i) && LsnOk(s', i) && TxOk(s', i) && BusyOk(s', i)
  {
  }

  lemma ReleaseKeeps(s: State, t: int, b: Block)
    requires Inv(s) && CanDo(s, Release(t, b))
    ensures Inv(Step(s, Release(t, b)))
  {
    var s' := Step(s, Release(t, b));
    StepKeepsInv(s.locks, Unlock(t, b));
    ReleaseKeepsHistory(s, t, b);
    forall i
      ensures SetOk(s', i) && FinOk(s', i) && LsnOk(s', i) && TxOk(s', i) && BusyOk(s', i)
    {
      assert SetOk(s, i) && FinOk(s, i) && LsnOk(s, i) && TxOk(s, i) && BusyOk(s, i);
      ReleaseRest(s, t, b, i);
    }
    forall l
      ensures FreeOk(s', l) && FrameOk(s', l)
    {
      ReleaseFree(s, t, b, l);
    }
    forall u, l
      ensures OwnOk(s', u, l)
    {
      assert OwnOk(s, u, l);
      ReleaseOwn(s, t, b, u, l);
    }
  }

  lemma EndKeepsLog(s: State, t: int, i: int)
    requires CanDo(s, End(t)) && SetOk(s, i) && FinOk(s, i) && LsnOk(s, i) && TxOk(s, i) && BusyOk(s, i)
    ensures
      var s' := Step(s, End(t));
      SetOk(s', i) && FinOk(s', i) && LsnOk(s', i) && TxOk(s', i) && BusyOk(s', i)
  {
  }

  lemma EndKeeps(s: State, t: int)
    requires Inv(s) && CanDo(s, End(t))
    ensures Inv(Step(s, End(t)))
  {
    var s' := Step(s, End(t));
    HistKept(s, s');
    forall i
      ensures SetOk(s', i) && FinOk(s', i) && LsnOk(s', i) && TxOk(s', i) && BusyOk(s', i)
    {
      assert SetOk(s, i) && FinOk(s, i) && LsnOk(s, i) && TxOk(s, i) && BusyOk(s, i);
      EndKeepsLog(s, t, i);
    }
    forall l
      ensures FreeOk(s', l) && FrameOk(s', l)
    {
      FreeStays(s, s', l);
      FrameStays(s, s', l);
    }
    forall u, l
      ensures OwnOk(s', u, l)
    {
      OwnStays(s, s', u, l);
    }
  }

  // ---------- pages ----------

  /** A frame is filled from the disk, or goes without having differed from it. */
  lemma CacheKeeps(s: State, s': State)
    requires Inv(s) && s.mode.Up? && s' == s.(cache := s'.cache)
    requires forall l :: Cur(s', l) == Cur(s, l)
    requires forall b :: b in s.cache && b in s'.cache ==> s'.cache[b] == s.cache[b]
    requires forall l: Loc :: l.blk in s'.cache && l.blk !in s.cache ==> Cur(s, l) == OnDisk(s.disk, l)
    requires forall t :: IsWriting(s, t) && s.txs[t].phase.loc.blk in s.cache ==> s.txs[t].phase.loc.blk in s'.cache
    requires forall i :: LsnOk(s', i)
    ensures Inv(s')
  {
    HistKept(s, s');
    LogKept(s, s');
    forall l
      ensures FreeOk(s', l) && FrameOk(s', l)
    {
      FreeStays(s, s', l);
      FrameStays(s, s', l);
    }
    forall u, l
      ensures OwnOk(s', u, l)
    {
      OwnStays(s, s', u, l);
    }
    forall u
      ensures BusyOk(s', u)
    {
      assert BusyOk(s, u);
      BusyStays(s, s', u);
    }
  }

  lemma LoadKeeps(s: State, b: Block, mark: int, lsn: int)
    requires Inv(s) && s.mode.Up? && CanDo(s, Load(b, mark, lsn))
    ensures Inv(Step(s, Load(b, mark, lsn)))
  {
    var s' := Step(s, Load(b, mark, lsn));
    assert forall l :: Cur(s', l) == Cur(s, l);
    forall i
      ensures LsnOk(s', i)
    {
      assert LsnOk(s, i);
    }
    CacheKeeps(s, s');
  }

  /** Write-ahead logging: where a page about to be written differs, the log already says so, or the page is not marked yet. */
  lemma WriteAhead(s: State, t: int, l: Loc)
    requires Inv(s) && s.mode.Up? && Unsettled(s, t) && HasX(s, t, l.blk)
    requires l.blk in s.cache && (s.cache[l.blk].tx >= 0 ==> s.cache[l.blk].lsn <= s.flushed)
    ensures || Cur(s, l) == Committed(s, l) || DurableOwn(s, t, l)
            || (s.txs[t].phase.Changed? && s.txs[t].phase.loc == l)
  {
    var start := s.txs[t].start;
    assert OwnOk(s, t, l) && TxOk(s, t) && BusyOk(s, t);
    if OwnOld(s.log, t, start, l).Some? {
      var i := OwnOldIndex(s.log, t, start, l);
      assert LsnOk(s, i);
      assert OwnRec(s.log[i], t, l);
      assert i != start;
    } else if s.txs[t].phase.Undoing? {
      OwnOldLater(s.log, t, start, s.txs[t].phase.pos, l);
    }
  }

  lemma {:induction false} OwnOldLater(log: seq<Rec>, t: int, from: nat, to: nat, l: Loc)
    requires from <= to && OwnOld(log, t, from, l) == None
    ensures OwnOld(log, t, to, l) == None
    decreases |log| - from
  {
    if from < to && from < |log| {
      OwnOldLater(log, t, from + 1, to, l);
    }
  }

  lemma NotExposed(s: State, t: int)
    requires t in s.txs && s.txs[t].phase.Changed? && !Exposed(s, t)
    ensures Cur(s, s.txs[t].phase.loc) == Committed(s, s.txs[t].phase.loc) || DurableOwn(s, t, s.txs[t].phase.loc)
  {
    var l := s.txs[t].phase.loc;
    if i :| s.txs[t].start < i < s.flushed && IsSet(s.log[i], l) && s.log[i].tx == t {
      assert OwnRec(s.log[i], t, l);
    }
  }

  lemma FlushPageOwn(s: State, b: Block, u: int, l: Loc)
    requires Inv(s) && s.mode.Up? && MayDo(s, FlushPage(b))
    ensures OwnOk(Step(s, FlushPage(b)), u, l)
  {
    assert OwnOk(s, u, l);
    if l.blk == b && Unsettled(s, u) && HasX(s, u, b) {
      WriteAhead(s, u, l);
      if Changing(s, u, b) && s.txs[u].phase.loc == l {
        NotExposed(s, u);
      }
    }
    PageOutOwn(s, b, u, l);
  }

  lemma PageOutOwn(s: State, b: Block, u: int, l: Loc)
    requires CanDo(s, FlushPage(b)) && OwnOk(s, u, l)
    requires l.blk == b && Unsettled(s, u) && HasX(s, u, b) ==> Cur(s, l) == Committed(s, l) || DurableOwn(s, u, l)
    ensures OwnOk(Step(s, FlushPage(b)), u, l)
  {
    var s' := Step(s, FlushPage(b));
    assert Cur(s', l) == Cur(s, l) && OnDisk(s'.disk, l) == if l.blk == b then Cur(s, l) else OnDisk(s.disk, l);
    assert View(s', u, l) == View(s, u, l);
    assert u in s.txs && DurableOwn(s, u, l) ==> DurableOwn(s', u, l);
  }

  lemma FlushPageFree(s: State, b: Block, l: Loc)
    requires CanDo(s, FlushPage(b)) && FreeOk(s, l) && FrameOk(s, l)
    ensures FreeOk(Step(s, FlushPage(b)), l) && FrameOk(Step(s, FlushPage(b)), l)
  {
    var s' := Step(s, FlushPage(b));
    assert Cur(s', l) == Cur(s, l) && OnDisk(s'.disk, l) == if l.blk == b then Cur(s, l) else OnDisk(s.disk, l);
    assert forall u :: HasX(s', u, l.blk) == HasX(s, u, l.blk);
    if l.blk != b {
      FrameStays(s, s', l);
    }
  }

  lemma FlushPageKeepsValues(s: State, b: Block)
    requires Inv(s) && s.mode.Up? && MayDo(s, FlushPage(b))
    ensures ValInv(Step(s, FlushPage(b)))
  {
    var s' := Step(s, FlushPage(b));
    assert forall l :: Cur(s', l) == Cur(s, l);
    forall i
      ensures LsnOk(s', i) && BusyOk(s', i)
    {
      assert LsnOk(s, i) && BusyOk(s, i);
      BusyStays(s, s', i);
    }
    forall l
      ensures FreeOk(s', l) && FrameOk(s', l)
    {
      assert FreeOk(s, l) && FrameOk(s, l);
      FlushPageFree(s, b, l);
    }
    forall u, l
      ensures OwnOk(s', u, l)
    {
      FlushPageOwn(s, b, u, l);
    }
  }

  lemma FlushPageKeeps(s: State, b: Block)
    requires Inv(s) && s.mode.Up? && MayDo(s, FlushPage(b))
    ensures Inv(Step(s, FlushPage(b)))
  {
    var s' := Step(s, FlushPage(b));
    HistKept(s, s');
    LogKept(s, s');
    FlushPageKeepsValues(s, b);
  }

  lemma FlushMarkedKeeps(s: State, t: int, b: Block)
    requires Inv(s) && MayDo(s, FlushNext(t, b))
    ensures Inv(FlushMarked(s, t, b)) && FlushMarked(s, t, b).mode.Up?
    ensures FlushMarked(s, t, b).txs == s.txs && FlushMarked(s, t, b).locks == s.locks
    ensures PhaseOk(FlushMarked(s, t, b), t)
  {
    assert TxOk(s, t) && TxShape(s, t);
    if Marked(s, t, b) {
      FlushPageKeeps(s, b);
    }
  }

  /** What flush_all leaves behind it agrees with the disk. */
  lemma FlushMarkedCur(s: State, t: int, b: Block, l: Loc)
    requires Inv(s) && CanDo(s, FlushNext(t, b)) && HasX(s, t, l.blk) && l.blk == b
    ensures OnDisk(FlushMarked(s, t, b).disk, l) == Cur(FlushMarked(s, t, b), l)
  {
    assert TxOk(s, t);
    if !Marked(s, t, b) {
      DifferingIsMarked(s, t, l);
    }
  }

  /** One turn of flush_all's loop. */
  lemma FlushNextKeeps(s: State, t: int, b: Block)
    requires Inv(s) && MayDo(s, FlushNext(t, b))
    ensures Inv(Step(s, FlushNext(t, b)))
  {
    var s1, s' := FlushMarked(s, t, b), Step(s, FlushNext(t, b));
    FlushMarkedKeeps(s, t, b);
    forall l: Loc | HasX(s1, t, l.blk)
      ensures CurOk(s', t, l)
    {
      assert OwnOk(s1, t, l) && View(s', t, l) == View(s1, t, l);
      if l.blk == b {
        FlushMarkedCur(s, t, b, l);
      }
    }
    PhaseKeeps(s1, s', t);
  }

  /** Dropping a frame that nobody has marked since it was last written. */
  lemma DropKeeps(s: State, s': State, b: Block)
    requires Inv(s) && s.mode.Up? && b in s.cache && s' == s.(cache := s.cache - {b})
    requires forall l: Loc :: l.blk == b ==> Cur(s, l) == OnDisk(s.disk, l)
    requires (s.cache[b].tx < 0 || s.cache[b].lsn <= s.flushed) && forall t :: !Busy(s, t, b)
    ensures Inv(s')
  {
    assert forall l :: Cur(s', l) == Cur(s, l);
    forall i
      ensures LsnOk(s', i)
    {
      assert LsnOk(s, i);
      if s.flushed <= i < |s.log| && s.log[i].SetVal? {
        assert BusyOk(s, s.log[i].tx) && !Busy(s, s.log[i].tx, b);
      }
    }
    forall t | IsWriting(s, t) && s.txs[t].phase.loc.blk in s.cache
      ensures s.txs[t].phase.loc.blk in s'.cache
    {
      assert !Busy(s, t, b);
    }
    CacheKeeps(s, s');
  }

  lemma EvictKeeps(s: State, b: Block)
    requires Inv(s) && s.mode.Up? && CanDo(s, Evict(b))
    ensures Inv(Step(s, Evict(b)))
  {
    if s.cache[b].tx >= 0 {
      assert forall t :: Changing(s, t, b) ==> Busy(s, t, b);
      FlushPageKeeps(s, b);
      assert forall t :: Busy(Step(s, FlushPage(b)), t, b) == Busy(s, t, b);
      DropKeeps(Step(s, FlushPage(b)), Step(s, Evict(b)), b);
    } else {
      forall l: Loc | l.blk == b
        ensures Cur(s, l) == OnDisk(s.disk, l)
      {
        assert FrameOk(s, l);
        assert forall t :: Changing(s, t, b) ==> Busy(s, t, b);
      }
      DropKeeps(s, Step(s, Evict(b)), b);
    }
  }

  // ---------- the log reaches the disk ----------

  lemma DeadGrows(log: seq<Rec>, n: int, i: int)
    requires n < |log|
    ensures 0 <= i < |log| && log[i].SetVal? && Dead(log, n, i) ==> Dead(log, n + 1, i)
    ensures 0 <= i < n && log[i].SetVal? && Kills(log[n], log[i].tx) ==> Dead(log, n + 1, i)
  {
  }

  /** One more record is durable. */
  ghost predicate Flushed(s: State, s': State) {
    s.mode.Up? && s.flushed < |s.log| && s' == s.(flushed := s.flushed + 1, order := s'.order, db := s'.db)
  }

  lemma FlushLogIs(s: State)
    requires s.mode.Up? && CanDo(s, FlushLog)
    ensures Flushed(s, Step(s, FlushLog))
    ensures
      var s', r := Step(s, FlushLog), s.log[s.flushed];
      && s'.order == (if r.Commit? then s.order + [Me(s, r.tx)] else s.order)
      && s'.db == if r.Commit? then ApplyWrites(Ops(s.hist, Me(s, r.tx)), s.db) else s.db
  {
  }

  lemma FlushLogSet(s: State, s': State, i: int)
    requires Flushed(s, s') && SetOk(s, i) && FinOk(s, s.flushed)
    requires 0 <= i < |s.log| && s.log[i].SetVal? ==> TxOk(s, s.log[i].tx)
    ensures SetOk(s', i)
  {
    DeadGrows(s.log, s.flushed, i);
    if 0 <= i < |s.log| && s.log[i].SetVal? && !Dead(s.log, s.flushed, i) && !Unsettled(s', s.log[i].tx) {
      assert Kills(s.log[s.flushed], s.log[i].tx);
    }
  }

  lemma FlushLogOrder(s: State, t: int)
    requires s.mode.Up? && CanDo(s, FlushLog) && t in s.txs && TxOk(s, t) && FinOk(s, s.flushed)
    ensures Me(s, t) in Step(s, FlushLog).order <==> EndDurable(Step(s, FlushLog), t) && s.txs[t].phase.commit
  {
    FlushLogIs(s);
    assert PhaseOk(s, t);
  }

  lemma SameShape(s: State, s': State, t: int)
    requires t in s.txs && TxShape(s, t) && s'.txs == s.txs && s'.log == s.log && s'.nextTx == s.nextTx
    ensures TxShape(s', t)
  {
  }

  lemma FlushLogFinish(s: State, s': State, t: int)
    requires Flushed(s, s') && t in s.txs && TxOk(s, t) && FinOk(s, s.flushed) && Unsettled(s', t)
    ensures NotFinished(s', t)
  {
    assert Unsettled(s, t) && NotFinished(s, t);
  }

  lemma FlushLogTx(s: State, t: int)
    requires s.mode.Up? && CanDo(s, FlushLog) && TxOk(s, t) && FinOk(s, s.flushed)
    ensures TxOk(Step(s, FlushLog), t)
  {
    var s' := Step(s, FlushLog);
    FlushLogIs(s);
    if t in s.txs {
      FlushLogOrder(s, t);
      SameShape(s, s', t);
      if Unsettled(s', t) {
        FlushLogFinish(s, s', t);
      }
    }
  }

  lemma FlushLogKeepsLog(s: State)
    requires Inv(s) && s.mode.Up? && CanDo(s, FlushLog)
    ensures LogInv(Step(s, FlushLog))
  {
    var s' := Step(s, FlushLog);
    forall i
      ensures SetOk(s', i) && FinOk(s', i) && TxOk(s', i)
    {
      assert FinOk(s, i) && FinOk(s, s.flushed) && SetOk(s, i) && TxOk(s, i);
      assert 0 <= i < |s.log| && s.log[i].SetVal? ==> TxOk(s, s.log[i].tx);
      FlushLogIs(s);
      FlushLogSet(s, s', i);
      FlushLogTx(s, i);
    }
  }

  /** A transaction whose commit becomes durable changes what is committed only where it locks. */
  lemma CommitChanges(s: State, t: int, l: Loc)
    requires Inv(s) && s.mode.Up? && CanDo(s, FlushLog) && s.log[s.flushed] == Commit(t)
    ensures Committed(Step(s, FlushLog), l) == View(s, t, l)
    ensures Unsettled(s, t) && s.txs[t].phase == Ending(s.flushed + 1, true)
    ensures !HasX(s, t, l.blk) ==> View(s, t, l) == Committed(s, l)
  {
    assert FinOk(s, s.flushed);
    if !HasX(s, t, l.blk) {
      NoRecordsUnlocked(s, t, l);
    }
  }

  lemma FlushCommitOwn(s: State, t: int, u: int, l: Loc)
    requires Inv(s) && s.mode.Up? && CanDo(s, FlushLog) && s.log[s.flushed] == Commit(t)
    ensures OwnOk(Step(s, FlushLog), u, l)
  {
    var s' := Step(s, FlushLog);
    assert OwnOk(s, u, l) && TxOk(s, u);
    CommitChanges(s, t, l);
    if u != t && u in s.txs && HasX(s, u, l.blk) {
      FlushCommitOther(s, t, u, l);
    }
  }

  lemma FlushCommitOther(s: State, t: int, u: int, l: Loc)
    requires Inv(s) && s.mode.Up? && CanDo(s, FlushLog) && s.log[s.flushed] == Commit(t)
    requires u != t && u in s.txs && HasX(s, u, l.blk)
    ensures OwnOk(Step(s, FlushLog), u, l)
  {
    assert OwnOk(s, u, l) && TxOk(s, u);
    CommitChanges(s, t, l);
    if HasX(s, t, l.blk) {
      Exclusion(s.locks, Hold(u, l.blk), Hold(t, l.blk));
      assert false;
    }
    FlushLogIs(s);
    SameAt(Ops(s.hist, Me(s, u)), s.db, Step(s, FlushLog).db, l);
    FlushedOwn(s, Step(s, FlushLog), u, l);
  }

  /** What a transaction sees and what is committed at l stay as they were. */
  lemma FlushedOwn(s: State, s': State, u: int, l: Loc)
    requires Flushed(s, s') && OwnOk(s, u, l) && View(s', u, l) == View(s, u, l) && Committed(s', l) == Committed(s, l)
    requires u in s.txs && s.txs[u].phase.Ending? && s.txs[u].phase.commit && s.txs[u].phase.lsn == s.flushed + 1 ==>
               View(s, u, l) == Committed(s, l)
    ensures OwnOk(s', u, l)
  {
    assert u in s.txs && DurableOwn(s, u, l) ==> DurableOwn(s', u, l);
  }

  lemma FlushOtherOwn(s: State, u: int, l: Loc)
    requires Inv(s) && s.mode.Up? && CanDo(s, FlushLog) && !s.log[s.flushed].Commit?
    ensures OwnOk(Step(s, FlushLog), u, l)
  {
    var s' := Step(s, FlushLog);
    assert OwnOk(s, u, l) && TxOk(s, u) && (u in s.txs ==> PhaseOk(s, u));
    FlushLogIs(s);
    assert View(s', u, l) == View(s, u, l);
    FlushedOwn(s, s', u, l);
  }

  lemma FlushLogFree(s: State, l: Loc)
    requires Inv(s) && s.mode.Up? && CanDo(s, FlushLog)
    ensures FreeOk(Step(s, FlushLog), l) && FrameOk(Step(s, FlushLog), l)
  {
    var s', r := Step(s, FlushLog), s.log[s.flushed];
    assert FreeOk(s, l) && FrameOk(s, l);
    FlushLogIs(s);
    assert forall u :: HasX(s', u, l.blk) == HasX(s, u, l.blk);
    assert forall u :: Changing(s', u, l.blk) == Changing(s, u, l.blk);
    if r.Commit? {
      CommitChanges(s, r.tx, l);
    }
  }

  lemma FlushLogKeepsValues(s: State)
    requires Inv(s) && s.mode.Up? && CanDo(s, FlushLog)
    ensures ValInv(Step(s, FlushLog))
  {
    var s' := Step(s, FlushLog);
    FlushLogIs(s);
    forall i
      ensures LsnOk(s', i) && BusyOk(s', i)
    {
      assert LsnOk(s, i) && BusyOk(s, i);
      BusyStays(s, s', i);
    }
    forall l
      ensures FreeOk(s', l) && FrameOk(s', l)
    {
      FlushLogFree(s, l);
    }
    forall u, l
      ensures OwnOk(s', u, l)
    {
      if s.log[s.flushed].Commit? {
        FlushCommitOwn(s, s.log[s.flushed].tx, u, l);
      } else {
        FlushOtherOwn(s, u, l);
      }
    }
  }

  lemma FlushCommitReads(s: State, t: int, u: int)
    requires Inv(s) && s.mode.Up? && CanDo(s, FlushLog) && s.log[s.flushed] == Commit(t)
    ensures ReadsOk(Step(s, FlushLog), u)
  {
    var s' := Step(s, FlushLog);
    assert ReadsOk(s, u);
    if Unsettled(s', u) {
      forall k | 0 <= k < |s.hist| && s.hist[k].Did? && s.hist[k].who == Me(s, u)
        ensures Get(s.db, s.hist[k].op.loc) == Get(s'.db, s.hist[k].op.loc)
      {
        var l := s.hist[k].op.loc;
        assert EventOk(s, k);
        CommitChanges(s, t, l);
        if HasX(s, t, l.blk) {
          Exclusion(s.locks, Hold(t, l.blk), Hold(u, l.blk));
        }
      }
      SameReads(s.hist, Me(s, u), s.db, s'.db);
    }
  }

  lemma FlushCommitLast(s: State, t: int, l: Loc)
    requires Inv(s) && s.mode.Up? && CanDo(s, FlushLog) && s.log[s.flushed] == Commit(t)
    ensures LastOk(Step(s, FlushLog), l)
  {
    CommitChanges(s, t, l);
    NotYetCommitted(s, t);
    assert LastOk(s, l);
    forall i, j, w | i < j && Writes(s.hist, i, Me(s, t), l) && Writes(s.hist, j, w, l)
      ensures w !in s.order
    {
      assert WriteLastOk(s, i, j);
    }
    LastCommittedAdd(s.hist, s.order, Me(s, t), s.db, l);
  }

  lemma FlushCommitKeepsHistory(s: State, t: int)
    requires Inv(s) && s.mode.Up? && CanDo(s, FlushLog) && s.log[s.flushed] == Commit(t)
    ensures HistInv(Step(s, FlushLog))
  {
    var s' := Step(s, FlushLog);
    assert FinOk(s, s.flushed);
    forall i
      ensures EventOk(s', i)
    {
      assert EventOk(s, i);
    }
    forall i, j
      ensures WriteLastOk(s', i, j)
    {
      assert WriteLastOk(s, i, j) && EventOk(s, i) && EventOk(s, j);
      if && 0 <= i < j < |s.hist| && s.hist[i].Did? && s.hist[i].op.Write? && WroteAt(s.hist[j], s.hist[i].op.loc)
         && s.hist[i].who.boot == s.boot && Unsettled(s', s.hist[i].who.tx) && s.hist[j].who == Me(s, t) {
        var b := s.hist[i].op.loc.blk;
        Exclusion(s.locks, Hold(t, b), Hold(s.hist[i].who.tx, b));
        assert false;
      }
    }
    forall u
      ensures ReadsOk(s', u)
    {
      FlushCommitReads(s, t, u);
    }
    forall l
      ensures LastOk(s', l)
    {
      FlushCommitLast(s, t, l);
    }
    assert ReadsOk(s, t);
    SerialAppend(s.hist, s.order, Me(s, t));
  }

  lemma FlushLogKeeps(s: State)
    requires Inv(s) && s.mode.Up? && CanDo(s, FlushLog)
    ensures Inv(Step(s, FlushLog))
  {
    var s' := Step(s, FlushLog);
    assert FinOk(s, s.flushed);
    FlushLogKeepsLog(s);
    FlushLogKeepsValues(s);
    if s.log[s.flushed].Commit? {
      assert TxOk(s, s.log[s.flushed].tx);
      FlushCommitKeepsHistory(s, s.log[s.flushed].tx);
    } else {
      HistKept(s, s');
    }
  }

  // ---------- what a step leaves alone ----------

  predicate IsPageStep(a: Action) {
    a.Load? || a.FlushPage? || a.Evict? || a.FlushLog?
  }

  predicate IsLockStep(a: Action) {
    a.Lock? || a.Release?
  }

  lemma PageStepIs(s: State, a: Action)
    requires s.mode.Up? && CanDo(s, a) && IsPageStep(a)
    ensures
      var s' := Step(s, a);
      && s' == s.(cache := s'.cache, disk := s'.disk, flushed := s'.flushed, order := s'.order, db := s'.db)
      && (!a.FlushLog? ==> s'.flushed == s.flushed && s'.order == s.order && s'.db == s.db)
  {
  }

  lemma LockStepIs(s: State, a: Action)
    requires s.mode.Up? && CanDo(s, a) && IsLockStep(a)
    ensures
      var s' := Step(s, a);
      s' == s.(locks := s'.locks, hist := s'.hist) && (a.Lock? ==> s'.hist == s.hist)
  {
  }

  /** A transaction's own steps. */
  lemma TxStepIs(s: State, a: Action)
    requires s.mode.Up? && CanDo(s, a) && !IsPageStep(a) && !IsLockStep(a) && !a.Crash?
    ensures
      var s' := Step(s, a);
      && s'.mode == s.mode && s'.boot == s.boot && s'.locks == s.locks && s'.flushed == s.flushed && s'.order == s.order
      && s'.nextTx == (if a.Begin? then s.nextTx + 1 else s.nextTx)
      && (!a.DoRead? && !a.ChangePage? ==> s'.hist == s.hist)
  {
    if a.UndoOne? {
      var tx' := UndoEffect(s, a.tx, Loc(Block("", 0), 0));
    }
  }

  /** They settle nobody: only a flush of the log does. */
  lemma TxStepOne(s: State, a: Action, t: int)
    requires s.mode.Up? && CanDo(s, a) && !IsPageStep(a) && !IsLockStep(a) && !a.Crash? && s.nextTx + 1 !in s.txs
    ensures
      var s' := Step(s, a);
      && (t in s'.txs && t in s.txs ==> (EndDurable(s', t) <==> EndDurable(s, t)))
      && (t in s'.txs && t !in s.txs ==> a.Begin? && t == s.nextTx + 1 && !EndDurable(s', t))
      && (t in s.txs && t !in s'.txs ==> a.End? && a.tx == t)
  {
    if a.UndoOne? {
      var tx' := UndoEffect(s, a.tx, Loc(Block("", 0), 0));
    }
  }

  /** Other steps leave a transaction as settled as it was. */
  lemma SettlesNobody(s: State, a: Action, t: int)
    requires Inv(s) && s.mode.Up? && CanDo(s, a) && !a.Crash? && !a.FlushLog?
    ensures
      var s' := Step(s, a);
      && (t in s'.txs && t in s.txs ==> (EndDurable(s', t) <==> EndDurable(s, t)))
      && (t in s'.txs && t !in s.txs ==> a.Begin? && t == s.nextTx + 1 && !EndDurable(s', t))
      && (t in s.txs && t !in s'.txs ==> a.End? && a.tx == t)
  {
    if IsPageStep(a) {
      PageStepIs(s, a);
    } else if IsLockStep(a) {
      LockStepIs(s, a);
    } else {
      assert TxOk(s, s.nextTx + 1);
      TxStepOne(s, a, t);
    }
  }

  lemma StaysUp(s: State, a: Action)
    requires s.mode.Up? && CanDo(s, a) && !a.Crash?
    ensures Step(s, a).boot == s.boot && Step(s, a).mode.Up? && s.nextTx <= Step(s, a).nextTx
    ensures !a.FlushLog? ==> Step(s, a).order == s.order
    ensures !IsLockStep(a) ==> Step(s, a).locks == s.locks
    ensures !a.DoRead? && !a.ChangePage? && !a.Release? ==> Step(s, a).hist == s.hist
  {
    if IsPageStep(a) {
      PageStepIs(s, a);
    } else if IsLockStep(a) {
      LockStepIs(s, a);
    } else {
      TxStepIs(s, a);
    }
  }
}
