/** What the end of a transaction changes: values, the log that goes out, the locks, and nothing of others. */
module TxEndings {
  import opened DbTypes
  import opened Locks
  import opened Recovery
  import opened TxMachine
  import opened TxInvariant
  import opened TxSteps
  import opened TxTheorems
  import opened Concurrency

  // ---------- what a step of an ending transaction changes ----------

  /** u's commit record has been appended; it need not be durable yet. */
  predicate CommitLogged(s: State, u: Uid) {
    u.boot == s.boot && u.tx in s.txs && s.txs[u.tx].phase.Ending? && s.txs[u.tx].phase.commit
  }

  /**
   More of s's log has become durable: it commits transactions whose commit records were waiting, and
   nobody else, and changes nothing that is committed where one that is not among them locks exclusively.
   */
  ghost predicate LogGoesOut(s: State, s': State) {
    && s.flushed <= s'.flushed && s.order <= s'.order
    && (forall k :: |s.order| <= k < |s'.order| ==> CommitLogged(s, s'.order[k]))
    && (s'.order == s.order ==> s'.db == s.db)
    && (forall t, l :: CommitsNothing(s, t, l) ==> Committed(s', l) == Committed(s, l))
  }

  /** If the newest durable record commits somebody, that is the last one committed. */
  ghost predicate NewestCommits(s: State) {
    s.flushed > 0 && s.log[s.flushed - 1].Commit? ==> s.order != [] && Last(s.order) == Me(s, s.log[s.flushed - 1].tx)
  }

  predicate CommitsNothing(s: State, t: int, l: Loc) {
    t in s.txs && HasX(s, t, l.blk) && !CommitLogged(s, Me(s, t))
  }

  lemma CommitGoesOut(s: State, t: int)
    requires Inv(s) && s.mode.Up? && CanDo(s, FlushLog) && s.log[s.flushed] == Commit(t)
    ensures LogGoesOut(s, Step(s, FlushLog))
  {
    FlushLogIs(s);
    assert FinOk(s, s.flushed);
    forall u, l | CommitsNothing(s, u, l)
      ensures Committed(Step(s, FlushLog), l) == Committed(s, l)
    {
      CommitChanges(s, t, l);
      if HasX(s, t, l.blk) {
        Exclusion(s.locks, Hold(u, l.blk), Hold(t, l.blk));
      }
    }
  }

  lemma RecordGoesOut(s: State)
    requires Inv(s) && CanDo(s, FlushLog)
    ensures LogGoesOut(s, Step(s, FlushLog))
  {
    if !s.mode.Up? {
      StaysDownOne(s, FlushLog);
    } else if s.log[s.flushed].Commit? {
      CommitGoesOut(s, s.log[s.flushed].tx);
    } else {
      FlushLogIs(s);
    }
  }

  /** Only the phase of t differs between a and b, and no commit record of t is in the log. */
  ghost predicate OnlyPhase(a: State, b: State, t: int) {
    && b.boot == a.boot && b.locks == a.locks && b.txs.Keys == a.txs.Keys
    && (forall u :: u in a.txs && u != t ==> b.txs[u] == a.txs[u])
    && !CommitLogged(a, Me(a, t)) && !CommitLogged(b, Me(b, t))
  }

  lemma GoesOutMore(a: State, b: State, c: State, t: int)
    requires LogGoesOut(a, b) && LogGoesOut(b, c) && (OnlyPhase(a, b, t) || (b.boot == a.boot && b.locks == a.locks && b.txs == a.txs))
    ensures LogGoesOut(a, c)
  {
    forall k | |a.order| <= k < |c.order|
      ensures CommitLogged(a, c.order[k])
    {
      assert CommitLogged(a, c.order[k]) || CommitLogged(b, c.order[k]);
    }
    forall u, l | CommitsNothing(a, u, l)
      ensures Committed(c, l) == Committed(a, l)
    {
      assert CommitsNothing(b, u, l);
    }
  }

  ghost predicate SameValues(s: State, s': State) {
    forall l :: Cur(s', l) == Cur(s, l)
  }

  lemma FlushNextValues(s: State, t: int, b: Block)
    requires CanDo(s, FlushNext(t, b))
    ensures SameValues(s, Step(s, FlushNext(t, b)))
  {
  }

  /** flush_all of t is under way: pages and log go out, and nothing changes but marks and t's own phase. */
  ghost predicate Sweeping(s: State, s': State, t: int, commit: bool) {
    && t in s.txs && t in s'.txs && s'.txs[t].phase.Flushing? && s'.txs[t].phase.commit == commit
    && s' == s.(flushed := s'.flushed, order := s'.order, db := s'.db, disk := s'.disk, cache := s'.cache,
                txs := s.txs[t := s'.txs[t]])
    && SameValues(s, s') && LogGoesOut(s, s')
  }

  lemma SweepOn(s: State, s1: State, s2: State, t: int, commit: bool)
    requires Sweeping(s, s1, t, commit) && Sweeping(s1, s2, t, commit) && !CommitLogged(s, Me(s, t))
    ensures Sweeping(s, s2, t, commit)
  {
    assert s.txs[t := s1.txs[t]][t := s2.txs[t]] == s.txs[t := s2.txs[t]];
    GoesOutMore(s, s1, s2, t);
  }

  // ---------- what a transaction leaves behind ----------

  ghost predicate ReleasedIn(s: State, hist: seq<Event>, t: int, b: Block) {
    exists k :: |s.hist| <= k < |hist| && hist[k] == Released(Me(s, t), b)
  }

  /** The run goes on with t's letting go of the blocks it locks, all of them, and with nothing else. */
  ghost predicate LetsGo(s: State, hist: seq<Event>, t: int) {
    LetsGoUpTo(s, hist, t, {})
  }

  ghost predicate LetsGoUpTo(s: State, hist: seq<Event>, t: int, rest: set<Block>) {
    && s.hist <= hist
    && (forall k :: |s.hist| <= k < |hist| ==>
          hist[k].Released? && hist[k].who == Me(s, t) && HasLock(s, t, hist[k].blk))
    && (forall b :: HasLock(s, t, b) && b !in rest ==> ReleasedIn(s, hist, t, b))
  }

  lemma LetsGoOne(s: State, hist: seq<Event>, t: int, rest: set<Block>, b: Block)
    requires LetsGoUpTo(s, hist, t, rest) && HasLock(s, t, b)
    ensures LetsGoUpTo(s, hist + [Released(Me(s, t), b)], t, rest - {b})
  {
    var hist' := hist + [Released(Me(s, t), b)];
    assert hist'[|hist|] == Released(Me(s, t), b);
    forall c | HasLock(s, t, c) && c !in rest - {b}
      ensures ReleasedIn(s, hist', t, c)
    {
      if c != b {
        var k :| |s.hist| <= k < |hist| && hist[k] == Released(Me(s, t), c);
        assert hist'[k] == hist[k];
      }
    }
  }

  /** ls' has the locks of ls but t's, except those on the blocks in rest. */
  ghost predicate WithoutLocks(ls: LockState, ls': LockState, t: int, rest: set<Block>) {
    && ls'.held == (map h | h in ls.held && (h.tx != t || h.blk in rest) :: ls.held[h])
    && ls'.halfway == ls.halfway && ls'.stranded == ls.stranded
  }

  /** t has ended with the record r: its locks are gone, and all other transactions are where they were. */
  ghost predicate Ended(s: State, s': State, t: int, r: Rec) {
    && s'.mode == s.mode && s'.boot == s.boot && s'.nextTx == s.nextTx && s'.txs == s.txs - {t}
    && s'.log == s.log + [r] && s'.flushed == |s'.log|
    && WithoutLocks(s.locks, s'.locks, t, {}) && LetsGo(s, s'.hist, t)
  }

  /** t commits after all who committed before, and after all whose commit records were waiting. */
  ghost predicate CommitsLast(s: State, s': State, t: int) {
    && s'.order != [] && Last(s'.order) == Me(s, t) && s.order <= Init(s'.order)
    && (forall k :: |s.order| <= k < |s'.order| - 1 ==> CommitLogged(s, s'.order[k]))
  }

  lemma CommitIsLast(s: State, s1: State, s2: State, s': State, t: int)
    requires Reachable(s') && OnlyPhase(s, s1, t) && LogGoesOut(s, s1) && LogGoesOut(s2, s')
    requires s2.boot == s1.boot && s2.order == s1.order && s2.txs.Keys == s1.txs.Keys
    requires forall u :: u in s1.txs && u != t ==> s2.txs[u] == s1.txs[u]
    requires s'.order != [] && Last(s'.order) == Me(s, t) && Me(s, t) !in s1.order
    ensures CommitsLast(s, s', t)
  {
    var n := |s'.order| - 1;
    Serializable(s');
    assert s1.order <= s'.order && |s1.order| <= n by {
      assert |s1.order| == |s'.order| ==> s'.order == s1.order;
    }
    assert s1.order <= Init(s'.order);
    forall k | |s.order| <= k < n
      ensures CommitLogged(s, s'.order[k])
    {
      assert s'.order[k] != s'.order[n];
      if k < |s1.order| {
        assert CommitLogged(s, s1.order[k]);
      } else {
        assert CommitLogged(s2, s'.order[k]);
      }
    }
  }

  /** Nobody else has become committed. */
  ghost predicate CommitsOnlyWaiting(s: State, s': State) {
    s.order <= s'.order && forall k :: |s.order| <= k < |s'.order| ==> CommitLogged(s, s'.order[k])
  }

  lemma RollbackOut(s: State, s1: State, s2: State, s': State, t: int)
    requires OnlyPhase(s, s1, t) && LogGoesOut(s, s1) && OnlyPhase(s1, s2, t) && LogGoesOut(s2, s') && t in s.txs
    requires s2.flushed == s1.flushed && s2.order == s1.order && s2.db == s1.db
    ensures CommitsOnlyWaiting(s, s')
    ensures forall l: Loc :: HasX(s, t, l.blk) ==> Committed(s', l) == Committed(s, l)
  {
    assert LogGoesOut(s1, s2);
    GoesOutMore(s1, s2, s', t);
    GoesOutMore(s, s1, s', t);
    forall l: Loc | HasX(s, t, l.blk)
      ensures Committed(s', l) == Committed(s, l)
    {
      assert CommitsNothing(s, t, l);
    }
  }

  /** What t did to its own phase and to pages before it ended makes no difference to others. */
  lemma EndedBefore(s: State, s1: State, s': State, t: int, r: Rec)
    requires t in s.txs && t in s1.txs && s1 == s.(cache := s1.cache, txs := s.txs[t := s1.txs[t]])
    requires Ended(s1, s', t, r) && CommitsOnlyWaiting(s1, s') && !CommitLogged(s1, Me(s1, t))
    ensures Ended(s, s', t, r) && CommitsOnlyWaiting(s, s')
  {
    forall b | HasLock(s, t, b)
      ensures ReleasedIn(s, s'.hist, t, b)
    {
      assert HasLock(s1, t, b) && ReleasedIn(s1, s'.hist, t, b);
    }
    forall k | |s.order| <= k < |s'.order|
      ensures CommitLogged(s, s'.order[k])
    {
      assert CommitLogged(s1, s'.order[k]);
    }
  }

  /** No value changes outside the blocks that t locks exclusively. */
  ghost predicate ValuesBut(s: State, s': State, t: int) {
    forall l: Loc :: !HasX(s, t, l.blk) ==> Cur(s', l) == Cur(s, l)
  }

  // ---------- facts about reachable states ----------

  lemma NewestOut(s: State)
    requires CanDo(s, FlushLog)
    ensures
      var s' := Step(s, FlushLog);
      s' == s.(flushed := s.flushed + 1, order := s'.order, db := s'.db) && NewestCommits(s')
  {
  }

  lemma GoesOut(s: State)
    requires Reachable(s) && CanDo(s, FlushLog)
    ensures LogGoesOut(s, Step(s, FlushLog))
  {
    ReachableInv(s);
    RecordGoesOut(s);
  }

  /** Only an active transaction can be in the middle of a lock call. */
  lemma EndingIsIdle(s: State, t: int)
    requires Reachable(s) && s.mode.Up? && t in s.txs && !s.txs[t].phase.Active?
    ensures BetweenCalls(s, t)
  {
    ReachableInv(s);
  }

  lemma NotInOrder(s: State, t: int)
    requires Reachable(s) && s.mode.Up? && t in s.txs
    ensures Me(s, t) in s.order <==> EndDurable(s, t) && s.txs[t].phase.commit
  {
    ReachableInv(s);
    assert TxOk(s, t);
  }

  lemma SettledValue(s: State, s': State, t: int, l: Loc)
    requires Reachable(s) && Reachable(s') && s.mode.Up? && t in s.txs && EndDurable(s, t) && HasX(s, t, l.blk)
    requires s'.db == s.db && s'.disk == s.disk && s'.cache == s.cache
    ensures OnDisk(s'.disk, l) == Cur(s', l) == Committed(s, l) == LastCommitted(s'.hist, s'.order, l)
  {
    ReachableInv(s);
    ReachableInv(s');
    SettledIsClean(s, t, l);
    assert LastOk(s', l);
  }

  lemma CommittedValues(s: State)
    requires Reachable(s)
    ensures forall l :: Committed(s, l) == LastCommitted(s.hist, s.order, l)
  {
    ReachableInv(s);
    forall l
      ensures Committed(s, l) == LastCommitted(s.hist, s.order, l)
    {
      assert LastOk(s, l);
    }
  }

  lemma NextIsNew(s: State)
    requires Reachable(s) && s.mode.Up?
    ensures s.nextTx + 1 !in s.txs
  {
    ReachableInv(s);
    assert TxOk(s, s.nextTx + 1);
  }

  lemma LocksLawful(s: State)
    requires Reachable(s)
    ensures LockInv(s.locks)
  {
    ReachableInv(s);
  }

  lemma SharedFree(s: State, t: int, b: Block)
    requires Reachable(s) && BetweenCalls(s, t)
    ensures !HasLock(s, t, b) ==> (Enabled(s.locks, Share(t, b)) <==> forall u :: u != t ==> !HasX(s, u, b))
    ensures HasLock(s, t, b) ==> forall u :: u != t ==> !HasX(s, u, b)
  {
    LocksLawful(s);
    ExclusiveIffNegative(s.locks, b);
    assert Hold(t, b) !in s.locks.halfway;
    if ValueOf(s.locks.table, b) < 0 {
      var u :| Hold(u, b) in s.locks.held && s.locks.held[Hold(u, b)] == X;
      assert HasX(s, u, b);
    }
    if HasLock(s, t, b) {
      forall u | HasX(s, u, b)
        ensures u == t
      {
        Exclusion(s.locks, Hold(u, b), Hold(t, b));
      }
    }
  }

  lemma RefusedToReserve(ls: LockState, t: int, b: Block)
    requires LockInv(ls) && Hold(t, b) !in ls.held && Hold(t, b) !in ls.halfway && !Enabled(ls, Reserve(t, b))
    ensures !NobodyElse(ls, t, b)
  {
    ExclusiveIffNegative(ls, b);
    var u :| Hold(u, b) in ls.held && ls.held[Hold(u, b)] == X;
    assert u != t;
  }

  /** An unmarked page nobody is writing to agrees with the disk; a marked one is written when it goes. */
  lemma EvictedValues(s: State, b: Block)
    requires Reachable(s) && s.mode.Up? && CanDo(s, Evict(b))
    ensures
      var s' := Step(s, Evict(b));
      && s'.cache == s.cache - {b} && SameValues(s, s') && s' == s.(disk := s'.disk, cache := s'.cache)
      && forall l: Loc :: l.blk == b ==> OnDisk(s'.disk, l) == Cur(s, l)
  {
    ReachableInv(s);
    forall l: Loc | l.blk == b && s.cache[b].tx < 0
      ensures OnDisk(s.disk, l) == Cur(s, l)
    {
      assert FrameOk(s, l);
      assert forall t :: Changing(s, t, b) ==> Busy(s, t, b);
    }
  }

  lemma PhaseStep(s: State, a: Action, t: int)
    requires CanDo(s, a) && (a == StartFlush(t) || a == StartRollback(t))
    ensures
      var s' := Step(s, a);
      && t in s.txs && s' == s.(txs := s.txs[t := s'.txs[t]]) && SameValues(s, s') && OnlyPhase(s, s', t) && LogGoesOut(s, s')
      && s'.txs[t].phase == if a.StartFlush? then Flushing(s.cache.Keys, s.txs[t].phase.Active?) else Undoing(|s.log|)
  {
  }

  lemma AppendStep(s: State, a: Action, t: int)
    requires CanDo(s, a) && (a == AppendCommit(t) || a == AppendRollback(t))
    ensures
      var s' := Step(s, a);
      var r := if a.AppendCommit? then Rec.Commit(t) else Rec.Rollback(t);
      && t in s.txs && s' == s.(log := s.log + [r], txs := s.txs[t := s'.txs[t]]) && SameValues(s, s')
      && s'.txs[t].phase == Ending(|s'.log|, a.AppendCommit?)
  {
  }
}
