/**
 Commit, rollback and recovery as the transaction and its recovery manager run them: loops over
 buffers, over the log and over the lock map, each of whose turns is a step of the machine.
 Other transactions stand still meanwhile; the machine itself lets them run in between.
 */
module TxEngine {
  import opened DbTypes
  import opened Locks
  import opened Recovery
  import opened TxMachine
  import opened TxInvariant
  import opened TxSteps
  import TxRestart
  import opened Concurrency
  import opened TxTheorems
  import opened TxEndings

  /** A buffer never carries a sequence number the log has not handed out. */
  ghost predicate LsnsKnown(s: State) {
    forall b :: b in s.cache ==> s.cache[b].lsn <= |s.log|
  }

  lemma {:induction false} ExecuteSnoc(s: State, run: seq<Action>, a: Action)
    requires Execute(s, run).Some? && MayDo(Execute(s, run).value, a)
    ensures Execute(s, run + [a]) == Some(Step(Execute(s, run).value, a))
    decreases |run|
  {
    if run == [] {
      assert (run + [a])[1..] == [];
      assert Execute(Step(s, a), []) == Some(Step(s, a));
    } else {
      ExecuteSnoc(Step(s, run[0]), run[1..], a);
      assert (run + [a])[1..] == run[1..] + [a];
    }
  }

  lemma ReachableStep(s: State, a: Action)
    requires Reachable(s) && MayDo(s, a)
    ensures Reachable(Step(s, a))
  {
    var run :| Execute(NewDatabase, run) == Some(s);
    ExecuteSnoc(NewDatabase, run, a);
  }

  lemma UndoStepLsns(s: State, t: int)
    requires LsnsKnown(s) && CanDo(s, UndoOne(t))
    ensures LsnsKnown(Step(s, UndoOne(t)))
  {
  }

  lemma RecoverOneLsns(s: State)
    requires LsnsKnown(s) && CanDo(s, RecoverOne)
    ensures LsnsKnown(Step(s, RecoverOne))
  {
  }

  lemma LsnsKept(s: State, a: Action)
    requires LsnsKnown(s) && CanDo(s, a) && !a.Crash? && (a.MarkPage? ==> s.txs[a.tx].phase.lsn <= |s.log|)
    ensures LsnsKnown(Step(s, a))
  {
    var s' := Step(s, a);
    match a {
      case UndoOne(t) => UndoStepLsns(s, t);
      case RecoverOne => RecoverOneLsns(s);
      case _ => assert |s'.log| >= |s.log|;
    }
  }

  /** No transaction stands between the change of a page and its mark. */
  ghost predicate NoneChanging(s: State) {
    forall t :: t in s.txs ==> !s.txs[t].phase.Changed?
  }

  lemma NoneEarly(s: State, a: Action)
    requires NoneChanging(s) && CanDo(s, a)
    ensures MayDo(s, a)
    ensures !a.ChangePage? ==> NoneChanging(Step(s, a))
  {
    match a
    case ChangePage(_) =>
    case UndoOne(t) => UndoStepNone(s, t);
    case RecoverOne => RecoverStepNone(s);
    case _ => OtherStepNone(s, a);
  }

  lemma UndoStepNone(s: State, t: int)
    requires NoneChanging(s) && CanDo(s, UndoOne(t))
    ensures NoneChanging(Step(s, UndoOne(t)))
  {
  }

  lemma RecoverStepNone(s: State)
    requires NoneChanging(s) && CanDo(s, RecoverOne)
    ensures NoneChanging(Step(s, RecoverOne))
  {
  }

  lemma OtherStepNone(s: State, a: Action)
    requires NoneChanging(s) && CanDo(s, a) && !a.ChangePage? && !a.UndoOne? && !a.RecoverOne?
    ensures NoneChanging(Step(s, a))
  {
  }

  lemma MarkLsn(s: State, a: Action)
    requires Reachable(s) && CanDo(s, a)
    ensures a.MarkPage? ==> s.txs[a.tx].phase.lsn <= |s.log|
  {
    match a
    case MarkPage(t) =>
      ReachableInv(s);
      assert BusyOk(s, t);
    case _ =>
  }

  /** The second half of a write. */
  lemma HalfWrite(s: State, t: int)
    requires s.mode.Up? && t in s.txs && s.txs[t].phase.Logged? && s.txs[t].phase.loc.blk in s.cache
    ensures CanDo(s, ChangePage(t)) && CanDo(Step(s, ChangePage(t)), MarkPage(t))
    ensures
      var ph := s.txs[t].phase;
      var f := s.cache[ph.loc.blk];
      Step(Step(s, ChangePage(t)), MarkPage(t)) ==
      s.(cache := s.cache[ph.loc.blk := Frame(PutPage(f, ph.loc.off, ph.val), t, ph.lsn)],
         txs := s.txs[t := s.txs[t].(phase := Active)],
         hist := s.hist + [Did(Me(s, t), Op.Write(ph.loc, ph.val))])
  {
    var s1 := Step(s, ChangePage(t));
    var ph, cache', txs' := s.txs[t].phase, Step(s1, MarkPage(t)).cache, Step(s1, MarkPage(t)).txs;
    assert cache' == s.cache[ph.loc.blk := Frame(PutPage(s.cache[ph.loc.blk], ph.loc.off, ph.val), t, ph.lsn)];
    assert txs' == s.txs[t := s.txs[t].(phase := Active)];
  }

  lemma HalfWriteNone(s: State, t: int)
    requires NoneChanging(s) && CanDo(s, ChangePage(t)) && CanDo(Step(s, ChangePage(t)), MarkPage(t))
    ensures NoneChanging(Step(Step(s, ChangePage(t)), MarkPage(t)))
    ensures MayDo(Step(s, ChangePage(t)), MarkPage(t))
  {
  }

  lemma HalfWriteLsns(s: State, t: int)
    requires LsnsKnown(s) && BusyOk(s, t) && CanDo(s, ChangePage(t)) && CanDo(Step(s, ChangePage(t)), MarkPage(t))
    ensures LsnsKnown(Step(Step(s, ChangePage(t)), MarkPage(t)))
  {
  }

  lemma UndoPos(s: State, t: int)
    requires Reachable(s) && s.mode.Up? && t in s.txs && s.txs[t].phase.Undoing?
    ensures 0 < s.txs[t].phase.pos <= |s.log|
  {
    ReachableInv(s);
    assert TxOk(s, t) && TxShape(s, t) && PhaseOk(s, t);
  }

  predicate UndoesLocked(s: State, t: int)
    requires t in s.txs && s.txs[t].phase.Undoing? && 0 < s.txs[t].phase.pos <= |s.log|
  {
    var r := NextRec(s, s.txs[t].phase.pos);
    r.SetVal? && r.tx == t ==> HasX(s, t, r.loc.blk)
  }

  lemma UndoLocked(s: State, t: int)
    requires Reachable(s) && s.mode.Up? && t in s.txs && s.txs[t].phase.Undoing? && 0 < s.txs[t].phase.pos <= |s.log|
    ensures UndoesLocked(s, t)
  {
    ReachableInv(s);
    var i := s.txs[t].phase.pos - 1;
    assert TxOk(s, t) && TxShape(s, t) && PhaseOk(s, t);
    if s.log[i].SetVal? && s.log[i].tx == t {
      UndoneIsLocked(s, t, i);
    }
  }

  lemma UndoOneValues(s: State, t: int)
    requires CanDo(s, UndoOne(t)) && UndoesLocked(s, t)
    ensures ValuesBut(s, Step(s, UndoOne(t)), t)
  {
  }

  lemma UndoOneDoes(s: State, t: int)
    requires CanDo(s, UndoOne(t))
    ensures
      var s' := Step(s, UndoOne(t));
      && t in s'.txs && s' == s.(cache := s'.cache, txs := s'.txs) && s'.txs == s.txs[t := s'.txs[t]]
      && (s'.txs[t].phase.Undone? || (s'.txs[t].phase.Undoing? && s'.txs[t].phase.pos < s.txs[t].phase.pos))
  {
  }

  class Engine {
    var st: State

    ghost predicate Valid()
      reads this
    {
      Reachable(st) && LsnsKnown(st) && NoneChanging(st)
    }

    constructor ()
      ensures Valid() && st == NewDatabase
    {
      st := NewDatabase;
      assert Execute(NewDatabase, []) == Some(NewDatabase);
    }

    method Take(a: Action)
      requires Valid() && CanDo(st, a) && !a.Crash? && !a.ChangePage?
      modifies this
      ensures Valid() && st == Step(old(st), a)
    {
      NoneEarly(st, a);
      ReachableStep(st, a);
      MarkLsn(st, a);
      LsnsKept(st, a);
      st := Step(st, a);
    }

    /** log_mgr::flush: nothing to do when the record is durable already. */
    method FlushLogTo(lsn: int)
      requires Valid() && lsn <= |st.log|
      modifies this
      ensures Valid() && lsn <= st.flushed
      ensures st == old(st).(flushed := st.flushed, order := st.order, db := st.db)
      ensures LogGoesOut(old(st), st) && (old(st).flushed < st.flushed ==> NewestCommits(st))
    {
      if lsn >= st.flushed {
        while st.flushed < |st.log|
          invariant Valid()
          invariant st == old(st).(flushed := st.flushed, order := st.order, db := st.db)
          invariant LogGoesOut(old(st), st) && (old(st).flushed < st.flushed ==> NewestCommits(st))
          decreases |st.log| - st.flushed
        {
          ghost var s := st;
          FlushOne();
          GoesOutMore(old(st), s, st, 0);
        }
      }
    }

    /** While the machine is not up yet, no commit record is waiting. */
    method FlushLogDown(lsn: int)
      requires Valid() && !st.mode.Up? && lsn <= |st.log|
      modifies this
      ensures Valid() && lsn <= st.flushed && st == old(st).(flushed := st.flushed)
    {
      ReachableInv(st);
      ghost var s := st;
      FlushLogTo(lsn);
      assert |s.order| < |st.order| ==> CommitLogged(s, st.order[|s.order|]);
    }

    method FlushOne()
      requires Valid() && st.flushed < |st.log|
      modifies this
      ensures Valid() && st == old(st).(flushed := old(st).flushed + 1, order := st.order, db := st.db)
      ensures LogGoesOut(old(st), st) && NewestCommits(st)
    {
      NewestOut(st);
      GoesOut(st);
      Take(FlushLog);
    }

    method StartFlushing(t: int)
      requires Valid() && st.mode.Up? && t in st.txs && BetweenCalls(st, t)
      requires st.txs[t].phase.Active? || st.txs[t].phase.Undone?
      modifies this
      ensures Valid() && t in st.txs && st == old(st).(txs := old(st).txs[t := st.txs[t]])
      ensures SameValues(old(st), st) && LogGoesOut(old(st), st)
      ensures st.txs[t].phase == Flushing(st.cache.Keys, old(st).txs[t].phase.Active?)
    {
      PhaseStep(st, StartFlush(t), t);
      Take(StartFlush(t));
    }

    method StartUndoing(t: int)
      requires Valid() && st.mode.Up? && IsActive(st, t) && BetweenCalls(st, t)
      modifies this
      ensures Valid() && t in st.txs && st == old(st).(txs := old(st).txs[t := st.txs[t]]) && SameValues(old(st), st)
      ensures st.txs[t].phase.Undoing?
    {
      PhaseStep(st, StartRollback(t), t);
      Take(StartRollback(t));
    }

    /** The commit or rollback record. */
    method AppendFinish(t: int, commit: bool)
      requires Valid() && st.mode.Up? && t in st.txs && st.txs[t].phase == Flushing({}, commit)
      modifies this
      ensures Valid() && t in st.txs && SameValues(old(st), st)
      ensures st == old(st).(log := old(st).log + [if commit then Rec.Commit(t) else Rec.Rollback(t)],
                             txs := old(st).txs[t := st.txs[t]])
      ensures st.txs[t].phase == Ending(|st.log|, commit)
    {
      ghost var a := if commit then AppendCommit(t) else AppendRollback(t);
      AppendStep(st, a, t);
      if commit {
        Take(AppendCommit(t));
      } else {
        Take(AppendRollback(t));
      }
    }

    /** buffer_mgr::flush_all by a transaction at its end: the log goes first. */
    method FlushAll(t: int)
      requires Valid() && st.mode.Up? && t in st.txs && BetweenCalls(st, t)
      requires (st.txs[t].phase.Active? || st.txs[t].phase.Undone?)
      modifies this
      ensures Valid() && Sweeping(old(st), st, t, old(st).txs[t].phase.Active?) && st.txs[t].phase.todo == {}
    {
      ghost var commit := st.txs[t].phase.Active?;
      StartFlushing(t);
      while st.txs[t].phase.todo != {}
        invariant Valid() && Sweeping(old(st), st, t, commit)
        decreases st.txs[t].phase.todo
      {
        var b :| b in st.txs[t].phase.todo;
        ghost var s := st;
        FlushFrameOf(t, b);
        SweepOn(old(st), s, st, t, commit);
      }
    }

    /** One turn of the loop: the log goes first. */
    method FlushFrameOf(t: int, b: Block)
      requires Valid() && st.mode.Up? && t in st.txs && st.txs[t].phase.Flushing? && b in st.txs[t].phase.todo
      modifies this
      ensures Valid() && Sweeping(old(st), st, t, old(st).txs[t].phase.commit)
      ensures st.txs[t].phase.todo == old(st).txs[t].phase.todo - {b}
    {
      if Marked(st, t, b) {
        FlushLogTo(st.cache[b].lsn);
      }
      FlushNextValues(st, t, b);
      Take(FlushNext(t, b));
    }

    /** buffer_mgr::flush_all at the end of recovery. */
    method RecFlushAll()
      requires Valid() && st.mode.Recovered?
      modifies this
      ensures Valid() && st.mode.RecFlushing? && st.mode.todo == {}
      ensures st == old(st).(flushed := st.flushed, disk := st.disk, cache := st.cache, mode := st.mode)
    {
      Take(StartRecFlush);
      while st.mode.todo != {}
        invariant Valid() && st.mode.RecFlushing?
        invariant st == old(st).(flushed := st.flushed, disk := st.disk, cache := st.cache, mode := st.mode)
        decreases st.mode.todo
      {
        var b :| b in st.mode.todo;
        if Marked(st, 1, b) {
          FlushLogDown(st.cache[b].lsn);
        }
        Take(RecFlushNext(b));
      }
    }

    method Pin(b: Block)
      requires Valid() && !st.mode.Down?
      modifies this
      ensures Valid() && b in st.cache
      ensures st == old(st).(cache := st.cache)
      ensures forall l :: Cur(st, l) == Cur(old(st), l)
      ensures forall c :: c in old(st).cache ==> c in st.cache && st.cache[c] == old(st).cache[c]
    {
      if b !in st.cache {
        Take(Load(b, -1, -1));
      }
    }

    /** A new transaction: the next number, and a start record. */
    method Start() returns (t: int)
      requires Valid() && st.mode.Up?
      modifies this
      ensures Valid() && t == old(st).nextTx + 1 && t !in old(st).txs && IsActive(st, t)
      ensures st == old(st).(nextTx := t, log := old(st).log + [Rec.Start(t)], txs := old(st).txs[t := st.txs[t]])
    {
      NextIsNew(st);
      t := st.nextTx + 1;
      Take(Begin);
    }

    /** concurrency_mgr::s_lock: granted exactly if no other transaction holds the block exclusively. */
    method SLock(t: int, b: Block) returns (ok: bool)
      requires Valid() && st.mode.Up? && IsActive(st, t) && BetweenCalls(st, t)
      modifies this
      ensures Valid() && BetweenCalls(st, t) && st == old(st).(locks := st.locks)
      ensures ok <==> forall u :: u != t ==> !HasX(old(st), u, b)
      ensures st.locks.held ==
              if ok && !HasLock(old(st), t, b) then old(st).locks.held[Hold(t, b) := S] else old(st).locks.held
      ensures st.locks.halfway == old(st).locks.halfway && st.locks.stranded == old(st).locks.stranded
    {
      SharedFree(st, t, b);
      ok := true;
      if !HasLock(st, t, b) {
        ok := Enabled(st.locks, Share(t, b));
        if ok {
          Take(Lock(Share(t, b)));
        }
      }
    }

    /** concurrency_mgr::x_lock: granted exactly if there is nobody else on the block. */
    method XLock(t: int, b: Block) returns (ok: bool)
      requires Valid() && st.mode.Up? && IsActive(st, t) && BetweenCalls(st, t)
      modifies this
      ensures Valid() && BetweenCalls(st, t) && st == old(st).(locks := st.locks)
      ensures ok <==> NobodyElse(old(st).locks, t, b)
      ensures st.locks.held == if ok then old(st).locks.held[Hold(t, b) := X] else old(st).locks.held
      ensures st.locks.halfway == old(st).locks.halfway
    {
      LocksLawful(st);
      if HasX(st, t, b) {
        OwnsAlone(st.locks, Hold(t, b));
        return true;
      }
      if !HasLock(st, t, b) {
        if !Enabled(st.locks, Reserve(t, b)) {
          RefusedToReserve(st.locks, t, b);
          return false;
        }
        Take(Lock(Reserve(t, b)));
      }
      ok := Upgrade(t, b);
    }

    /** The second half of x_lock. */
    method Upgrade(t: int, b: Block) returns (ok: bool)
      requires Valid() && st.mode.Up? && IsActive(st, t) && CanUpgrade(st.locks, Hold(t, b))
      modifies this
      ensures Valid() && st == old(st).(locks := st.locks)
      ensures ok <==> NobodyElse(old(st).locks, t, b)
      ensures st.locks.held == if ok then old(st).locks.held[Hold(t, b) := X] else old(st).locks.held
      ensures st.locks.halfway == old(st).locks.halfway - {Hold(t, b)}
    {
      LocksLawful(st);
      OneIsNobodyElse(st.locks, Hold(t, b));
      SharedIsValue(st.locks, Hold(t, b));
      ok := Enabled(st.locks, LockAction.Upgrade(t, b));
      if ok {
        Take(Lock(LockAction.Upgrade(t, b)));
      } else {
        Take(Lock(AbortUpgrade(t, b)));
      }
    }

    /** The buffer manager takes the frame of a page away that nobody is writing to; if marked, it is written first. */
    method Replace(b: Block)
      requires Valid() && st.mode.Up? && b in st.cache && forall t :: !Busy(st, t, b)
      modifies this
      ensures Valid() && st.cache == old(st).cache - {b} && SameValues(old(st), st) && LogGoesOut(old(st), st)
      ensures st == old(st).(flushed := st.flushed, order := st.order, db := st.db, disk := st.disk, cache := st.cache)
      ensures forall l: Loc :: l.blk == b ==> OnDisk(st.disk, l) == Cur(old(st), l)
    {
      if st.cache[b].tx >= 0 {
        FlushLogTo(st.cache[b].lsn);
      }
      assert forall t :: Busy(st, t, b) == Busy(old(st), t, b);
      EvictedValues(st, b);
      Take(Evict(b));
    }

    /** transaction::get_int and get_str under a lock: its own last write, or else the last committed value. */
    method Get(t: int, l: Loc) returns (v: Value)
      requires Valid() && st.mode.Up? && IsActive(st, t) && HasLock(st, t, l.blk)
      modifies this
      ensures Valid() && v == Cur(old(st), l) == LastCommitted(old(st).hist, old(st).order + [Me(old(st), t)], l)
      ensures st == old(st).(cache := st.cache, hist := old(st).hist + [Did(Me(old(st), t), Op.Read(l, v))])
      ensures forall m :: Cur(st, m) == Cur(old(st), m)
    {
      Pin(l.blk);
      v := Cur(st, l);
      ReadsAreClean(st, t, l);
      Take(DoRead(t, l));
    }

    /** transaction::set_int and set_str under the block's exclusive lock: the record, the page and the mark in turn. */
    method Set(t: int, l: Loc, v: Value)
      requires Valid() && st.mode.Up? && IsActive(st, t) && BetweenCalls(st, t) && HasX(st, t, l.blk)
      modifies this
      ensures Valid() && IsActive(st, t) && Cur(st, l) == v && forall m :: m != l ==> Cur(st, m) == Cur(old(st), m)
      ensures st == old(st).(log := old(st).log + [SetVal(t, l, Cur(old(st), l))], cache := st.cache, hist := st.hist)
      ensures st.hist == old(st).hist + [Did(Me(old(st), t), Op.Write(l, v))]
    {
      Pin(l.blk);
      SetPinned(t, l, v);
    }

    method SetPinned(t: int, l: Loc, v: Value)
      requires Valid() && st.mode.Up? && IsActive(st, t) && BetweenCalls(st, t) && HasX(st, t, l.blk) && l.blk in st.cache
      modifies this
      ensures Valid() && Cur(st, l) == v && forall m :: m != l ==> Cur(st, m) == Cur(old(st), m)
      ensures st == old(st).(log := old(st).log + [SetVal(t, l, Cur(old(st), l))], cache := st.cache,
                             hist := old(st).hist + [Did(Me(old(st), t), Op.Write(l, v))])
    {
      Take(LogWrite(t, l, v));
      ChangeAndMark(t);
      assert st.txs == old(st).txs;
    }

    method ChangeAndMark(t: int)
      requires Valid() && st.mode.Up? && t in st.txs && st.txs[t].phase.Logged? && st.txs[t].phase.loc.blk in st.cache
      modifies this
      ensures Valid()
      ensures
        var s0, ph := old(st), old(st).txs[t].phase;
        var f := s0.cache[ph.loc.blk];
        st == s0.(cache := s0.cache[ph.loc.blk := Frame(PutPage(f, ph.loc.off, ph.val), t, ph.lsn)],
                  txs := s0.txs[t := s0.txs[t].(phase := Active)],
                  hist := s0.hist + [Did(Me(s0, t), Op.Write(ph.loc, ph.val))])
    {
      ReachableInv(st);
      assert BusyOk(st, t);
      HalfWrite(st, t);
      NoneEarly(st, ChangePage(t));
      ReachableStep(st, ChangePage(t));
      HalfWriteNone(st, t);
      ReachableStep(Step(st, ChangePage(t)), MarkPage(t));
      HalfWriteLsns(st, t);
      st := Step(Step(st, ChangePage(t)), MarkPage(t));
    }

    /** concurrency_mgr::release, then the transaction is gone. */
    method ReleaseAndEnd(t: int)
      requires Valid() && st.mode.Up? && t in st.txs && EndDurable(st, t)
      modifies this
      ensures Valid() && st == old(st).(locks := st.locks, hist := st.hist, txs := old(st).txs - {t})
      ensures WithoutLocks(old(st).locks, st.locks, t, {}) && LetsGo(old(st), st.hist, t)
    {
      var rest := set h | h in st.locks.held && h.tx == t :: h.blk;
      while rest != {}
        invariant Valid()
        invariant st == old(st).(locks := st.locks, hist := st.hist)
        invariant forall c :: c in rest ==> HasLock(old(st), t, c)
        invariant WithoutLocks(old(st).locks, st.locks, t, rest) && LetsGoUpTo(old(st), st.hist, t, rest)
        decreases rest
      {
        var b :| b in rest;
        LetsGoOne(old(st), st.hist, t, rest, b);
        ReleaseOne(t, b);
        rest := rest - {b};
      }
      EndReleased(t);
    }

    method ReleaseOne(t: int, b: Block)
      requires Valid() && st.mode.Up? && t in st.txs && EndDurable(st, t) && HasLock(st, t, b)
      modifies this
      ensures Valid() && st == old(st).(locks := st.locks, hist := old(st).hist + [Released(Me(old(st), t), b)])
      ensures st.locks.held == old(st).locks.held - {Hold(t, b)}
      ensures st.locks.halfway == old(st).locks.halfway && st.locks.stranded == old(st).locks.stranded
    {
      Take(Release(t, b));
    }

    method EndReleased(t: int)
      requires Valid() && st.mode.Up? && t in st.txs && EndDurable(st, t) && forall b :: !HasLock(st, t, b)
      modifies this
      ensures Valid() && st == old(st).(txs := old(st).txs - {t})
    {
      ReachableInv(st);
      forall h | h in st.locks.held || h in st.locks.halfway
        ensures h.tx != t
      {
        assert h == Hold(h.tx, h.blk);
        assert h.tx == t ==> h !in st.locks.held by {
          assert !HasLock(st, t, h.blk);
        }
      }
      Take(End(t));
    }

    /**
     transaction::commit over recovery_mgr::commit: t's values stay, are on the disk and are the committed
     ones; others commit only if their commit records were waiting in the log, and before t.
     */
    method Commit(t: int)
      requires Valid() && st.mode.Up? && IsActive(st, t) && BetweenCalls(st, t)
      modifies this
      ensures Valid() && Ended(old(st), st, t, Rec.Commit(t)) && CommitsLast(old(st), st, t)
      ensures forall l :: Cur(st, l) == Cur(old(st), l)
      ensures forall l: Loc :: HasX(old(st), t, l.blk) ==>
                OnDisk(st.disk, l) == Cur(old(st), l) == LastCommitted(st.hist, st.order, l)
    {
      FlushAll(t);
      ghost var s1 := st;
      NotInOrder(st, t);
      AppendFinish(t, true);
      ghost var s2 := st;
      FlushLogTo(|st.log|);
      CommitIsLast(old(st), s1, s2, st, t);
      Settle(t);
    }

    /** Once t's finish record is durable, its blocks hold what is committed. */
    method Settle(t: int)
      requires Valid() && st.mode.Up? && t in st.txs && EndDurable(st, t)
      modifies this
      ensures Valid() && st == old(st).(locks := st.locks, hist := st.hist, txs := old(st).txs - {t})
      ensures WithoutLocks(old(st).locks, st.locks, t, {}) && LetsGo(old(st), st.hist, t)
      ensures forall l: Loc :: HasX(old(st), t, l.blk) ==>
                OnDisk(st.disk, l) == Cur(st, l) == Committed(st, l) == LastCommitted(st.hist, st.order, l)
    {
      ghost var s1 := st;
      ReleaseAndEnd(t);
      forall l: Loc | HasX(s1, t, l.blk)
        ensures OnDisk(st.disk, l) == Cur(st, l) == Committed(st, l) == LastCommitted(st.hist, st.order, l)
      {
        SettledValue(s1, st, t, l);
      }
    }

    /** recovery_mgr::do_rollback */
    method DoRollback(t: int)
      requires Valid() && st.mode.Up? && t in st.txs && st.txs[t].phase.Undoing?
      modifies this
      ensures Valid() && t in st.txs && st.txs[t].phase.Undone?
      ensures st == old(st).(cache := st.cache, txs := st.txs) && st.txs == old(st).txs[t := st.txs[t]]
      ensures ValuesBut(old(st), st, t)
    {
      while st.txs[t].phase.Undoing?
        invariant Valid() && st.mode.Up? && t in st.txs
        invariant st.txs[t].phase.Undoing? || st.txs[t].phase.Undone?
        invariant st == old(st).(cache := st.cache, txs := st.txs) && st.txs == old(st).txs[t := st.txs[t]]
        invariant ValuesBut(old(st), st, t)
        decreases if st.txs[t].phase.Undoing? then st.txs[t].phase.pos + 1 else 0
      {
        UndoNext(t);
      }
    }

    method UndoNext(t: int)
      requires Valid() && st.mode.Up? && t in st.txs && st.txs[t].phase.Undoing?
      modifies this
      ensures Valid() && t in st.txs
      ensures st.txs[t].phase.Undone? || (st.txs[t].phase.Undoing? && st.txs[t].phase.pos < old(st).txs[t].phase.pos)
      ensures st == old(st).(cache := st.cache, txs := st.txs) && st.txs == old(st).txs[t := st.txs[t]]
      ensures ValuesBut(old(st), st, t)
    {
      UndoPos(st, t);
      var r := NextRec(st, st.txs[t].phase.pos);
      if r.SetVal? && r.tx == t {
        Pin(r.loc.blk);
      }
      UndoOneDoes(st, t);
      UndoLocked(st, t);
      UndoOneValues(st, t);
      Take(UndoOne(t));
    }

    /**
     transaction::rollback over recovery_mgr::rollback: t's blocks get the values back that were committed,
     which no one has changed meanwhile, and no other value changes.
     */
    method RollBack(t: int)
      requires Valid() && st.mode.Up? && IsActive(st, t) && BetweenCalls(st, t)
      modifies this
      ensures Valid() && Ended(old(st), st, t, Rec.Rollback(t))
      ensures CommitsOnlyWaiting(old(st), st) && Me(old(st), t) !in st.order
      ensures forall l: Loc :: !HasX(old(st), t, l.blk) ==> Cur(st, l) == Cur(old(st), l)
      ensures forall l: Loc :: HasX(old(st), t, l.blk) ==>
                OnDisk(st.disk, l) == Cur(st, l) == LastCommitted(old(st).hist, old(st).order, l)
    {
      StartUndoing(t);
      DoRollback(t);
      ghost var s1 := st;
      FinishRollback(t);
      EndedBefore(old(st), s1, st, t, Rec.Rollback(t));
      CommittedValues(old(st));
    }

    method FinishRollback(t: int)
      requires Valid() && st.mode.Up? && t in st.txs && st.txs[t].phase.Undone?
      modifies this
      ensures Valid() && Ended(old(st), st, t, Rec.Rollback(t))
      ensures CommitsOnlyWaiting(old(st), st) && Me(old(st), t) !in st.order
      ensures forall l: Loc :: !HasX(old(st), t, l.blk) ==> Cur(st, l) == Cur(old(st), l)
      ensures forall l: Loc :: HasX(old(st), t, l.blk) ==> OnDisk(st.disk, l) == Cur(st, l) == Committed(old(st), l)
    {
      EndingIsIdle(st, t);
      FlushAll(t);
      ghost var s1 := st;
      AppendFinish(t, false);
      ghost var s2 := st;
      FlushLogTo(|st.log|);
      RollbackOut(old(st), s1, s2, st, t);
      NotInOrder(st, t);
      Settle(t);
    }

    /** recovery_mgr::do_recover */
    method DoRecover()
      requires Valid() && st.mode.Recovering?
      modifies this
      ensures Valid() && st.mode.Recovered?
      ensures st == old(st).(mode := st.mode, cache := st.cache)
    {
      while st.mode.Recovering?
        invariant Valid() && (st.mode.Recovering? || st.mode.Recovered?)
        invariant st == old(st).(mode := st.mode, cache := st.cache)
        decreases if st.mode.Recovering? then st.mode.pos + 1 else 0
      {
        RecoverNext();
      }
    }

    method RecoverNext()
      requires Valid() && st.mode.Recovering?
      modifies this
      ensures Valid()
      ensures st.mode.Recovered? || (st.mode.Recovering? && st.mode.pos < old(st).mode.pos)
      ensures st == old(st).(mode := st.mode, cache := st.cache)
    {
      ReachableInv(st);
      assert ProgressOk(st, Loc(Block("", 0), 0));
      if st.mode.pos > 0 {
        var r := NextRec(st, st.mode.pos);
        if r.SetVal? && r.tx !in st.mode.finished {
          Pin(r.loc.blk);
        }
      }
      TxRestart.RecoverEffect(st, Loc(Block("", 0), 0));
      Take(RecoverOne);
    }

    /**
     A boot: transaction::recover over recovery_mgr::recover. What was committed before is in the pages and
     on the disk, nobody is committed by it, and the new transaction 1 is all there is.
     */
    method Recover()
      requires Valid() && st.mode.Down?
      modifies this
      ensures Valid() && st.mode.Up? && st.txs.Keys == {1} && IsActive(st, 1) && st.locks == NoLocks
      ensures st.boot == old(st).boot && st.hist == old(st).hist && st.order == old(st).order
      ensures st.log == old(st).log + [Rec.Start(1), Checkpoint] && st.flushed == |st.log|
      ensures forall l :: OnDisk(st.disk, l) == Cur(st, l) == LastCommitted(old(st).hist, old(st).order, l)
    {
      ReachableInv(st);
      Take(Boot);
      DoRecover();
      RecFlushAll();
      Take(AppendCheckpoint);
      FlushLogDown(|st.log|);
      forall l
        ensures OnDisk(st.disk, l) == Cur(st, l) == LastCommitted(st.hist, st.order, l)
      {
        RecoveredDisk(st, l);
      }
      ghost var s1 := st;
      Take(OpenUp);
      assert forall l :: Cur(st, l) == Cur(s1, l);
    }

    /** The machine stops: pages in buffers, the log behind its durable part, locks and transactions are lost. */
    method Crash()
      requires Valid()
      modifies this
      ensures Valid() && st == CrashStep(old(st))
    {
      NoneEarly(st, Action.Crash);
      ReachableStep(st, Action.Crash);
      st := Step(st, Action.Crash);
    }

    /** A crash at any time and the next boot: every location has the value committed last before the crash. */
    method CrashAndBoot()
      requires Valid()
      modifies this
      ensures Valid() && st.mode.Up? && st.boot == old(st).boot + 1 && st.txs.Keys == {1} && IsActive(st, 1)
      ensures st.order == old(st).order && st.hist == old(st).hist + [Crashed]
      ensures forall l :: OnDisk(st.disk, l) == Cur(st, l) == LastCommitted(old(st).hist, old(st).order, l)
    {
      Crash();
      assert Init(st.hist) == old(st).hist;
      Recover();
    }
  }
}
