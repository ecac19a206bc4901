/** What every state of the transaction machine satisfies. */
module TxInvariant {
  import opened DbTypes
  import opened Locks
  import opened Recovery
  import opened TxMachine

  function Me(s: State, t: int): Uid {
    Uid(s.boot, t)
  }

  /** A crash would still undo t. */
  predicate Unsettled(s: State, t: int) {
    t in s.txs && !EndDurable(s, t)
  }

  /** The value t's own operations would leave at l on top of what is committed. */
  function View(s: State, t: int, l: Loc): Value {
    Get(ApplyWrites(Ops(s.hist, Me(s, t)), s.db), l)
  }

  function Committed(s: State, l: Loc): Value {
    Get(s.db, l)
  }

  predicate OwnRec(r: Rec, t: int, l: Loc) {
    IsSet(r, l) && r.tx == t
  }

  // ---------- identities and locks ----------

  ghost predicate IdInv(s: State) {
    && LockInv(s.locks)
    && (forall h :: h in s.locks.held || h in s.locks.halfway ==> h.tx in s.txs)
    && (forall h :: h in s.locks.halfway ==> s.txs[h.tx].phase.Active?)
    && (forall u :: u in s.order ==> u.boot < s.boot || (u.boot == s.boot && s.mode.Up? && u.tx <= s.nextTx))
    && s.nextTx >= 0
  }

  // ---------- the log ----------

  /** A logged write is either never undone any more or its writer still locks the block. */
  ghost predicate SetOk(s: State, i: int) {
    0 <= i < |s.log| && s.log[i].SetVal? ==>
      || Dead(s.log, s.flushed, i)
      || (&& Unsettled(s, s.log[i].tx)
          && s.txs[s.log[i].tx].start < i
          && HasX(s, s.log[i].tx, s.log[i].loc.blk))
  }

  /** A finish record that is not durable belongs to a transaction about to end. */
  ghost predicate FinOk(s: State, j: int) {
    s.flushed <= j < |s.log| ==>
      && !s.log[j].Checkpoint?
      && (s.log[j].Commit? || s.log[j].Rollback? ==>
            && s.log[j].tx in s.txs
            && s.txs[s.log[j].tx].phase == Ending(j + 1, s.log[j].Commit?))
  }

  ghost predicate PhaseOk(s: State, t: int)
    requires t in s.txs
  {
    match s.txs[t].phase
    case Undoing(pos) => s.txs[t].start < pos <= |s.log|
    case Ending(lsn, commit) =>
      && s.txs[t].start + 1 < lsn <= |s.log|
      && s.log[lsn - 1] == (if commit then Commit(t) else Rollback(t))
      && (forall i :: lsn <= i < |s.log| && s.log[i].SetVal? ==> s.log[i].tx != t)
    case _ => true
  }

  /** Where t's records lie in the log. */
  ghost predicate TxShape(s: State, t: int)
    requires t in s.txs
  {
    var start := s.txs[t].start;
    && 1 <= t <= s.nextTx
    && start < |s.log| && s.log[start] == Start(t)
    && (forall i :: start < i < |s.log| ==> s.log[i] != Start(t))
    && PhaseOk(s, t)
    && (forall i, j :: start < i < j < |s.log| && s.log[i].SetVal? && s.log[i].tx == t ==> !s.log[j].Checkpoint?)
  }

  ghost predicate NotFinished(s: State, t: int)
    requires t in s.txs
  {
    forall j :: s.txs[t].start < j < s.flushed ==> !Finishes(s.log[j], t)
  }

  ghost predicate TxOk(s: State, t: int) {
    t in s.txs ==>
      && TxShape(s, t)
      && (Unsettled(s, t) ==> NotFinished(s, t))
      && (Me(s, t) in s.order <==> EndDurable(s, t) && s.txs[t].phase.commit)
  }

  ghost predicate LogInv(s: State) {
    && (forall i :: SetOk(s, i))
    && (forall j :: FinOk(s, j))
    && (forall t :: TxOk(s, t))
  }

  // ---------- values ----------

  ghost predicate DurableOwn(s: State, t: int, l: Loc)
    requires t in s.txs
  {
    exists i :: s.txs[t].start < i < s.flushed && OwnRec(s.log[i], t, l)
  }

  /** Nobody may change l: the page, the disk and what is committed agree. */
  ghost predicate FreeOk(s: State, l: Loc) {
    (forall t :: !HasX(s, t, l.blk)) ==> Cur(s, l) == Committed(s, l) && OnDisk(s.disk, l) == Committed(s, l)
  }

  /** What the cached page holds at l in each phase of the transaction that locks it. */
  ghost predicate CurOk(s: State, t: int, l: Loc)
    requires t in s.txs
  {
    match s.txs[t].phase
    case Active => Cur(s, l) == View(s, t, l)
    case Logged(_, _, _) => Cur(s, l) == View(s, t, l)
    case Changed(_, _) => Cur(s, l) == View(s, t, l)
    case Undoing(pos) => Cur(s, l) == OwnOld(s.log, t, pos, l).GetOr(View(s, t, l))
    case Undone => Cur(s, l) == Committed(s, l)
    case Flushing(todo, commit) =>
      && Cur(s, l) == (if commit then View(s, t, l) else Committed(s, l))
      && (l.blk !in todo ==> OnDisk(s.disk, l) == Cur(s, l))
    case Ending(_, commit) =>
      Cur(s, l) == if commit && Unsettled(s, t) then View(s, t, l) else Committed(s, l)
  }

  ghost predicate OwnOk(s: State, t: int, l: Loc) {
    t in s.txs && HasX(s, t, l.blk) ==>
      && CurOk(s, t, l)
      && (Unsettled(s, t) ==>
            // t's oldest record at l holds the committed value; without one t has not written l
            && OwnOld(s.log, t, s.txs[t].start, l).GetOr(View(s, t, l)) == Committed(s, l)
            // write-ahead: the disk may differ only where a durable record says how to undo it
            && (OnDisk(s.disk, l) == Committed(s, l) || DurableOwn(s, t, l)))
  }

  predicate IsWriting(s: State, t: int) {
    t in s.txs && (s.txs[t].phase.Logged? || s.txs[t].phase.Changed?)
  }

  /** The frame of the record's page is still to be marked with it. */
  predicate InFlight(s: State, i: int)
    requires 0 <= i < |s.log| && s.log[i].SetVal?
  {
    IsWriting(s, s.log[i].tx) && s.txs[s.log[i].tx].phase.lsn == i + 1
  }

  /** A record that is not durable is kept from being overtaken by its page, from the mark on. */
  ghost predicate LsnOk(s: State, i: int) {
    s.flushed <= i < |s.log| && s.log[i].SetVal? ==>
      && s.log[i].loc.blk in s.cache
      && (InFlight(s, i) || (s.cache[s.log[i].loc.blk].lsn > i && s.cache[s.log[i].loc.blk].tx >= 0))
  }

  /** What a transaction in the middle of a write has locked, pinned and logged. */
  ghost predicate BusyOk(s: State, t: int) {
    IsWriting(s, t) ==>
      var l, n := s.txs[t].phase.loc, s.txs[t].phase.lsn;
      && HasX(s, t, l.blk) && l.blk in s.cache
      && s.txs[t].start + 1 < n <= |s.log| && OwnRec(s.log[n - 1], t, l)
      && (s.txs[t].phase.Logged? ==> s.log[n - 1].was == Cur(s, l))
      && (forall i :: n <= i < |s.log| && s.log[i].SetVal? ==> s.log[i].tx != t)
  }

  ghost predicate MarkedByOwner(s: State, b: Block)
    requires b in s.cache
  {
    var t := s.cache[b].tx;
    t >= 0 && t in s.txs && HasX(s, t, b) && !s.txs[t].phase.Ending?
  }

  /** A page that differs from the disk is marked by a live transaction that locks it, or about to be. */
  ghost predicate FrameOk(s: State, l: Loc) {
    l.blk in s.cache && Cur(s, l) != OnDisk(s.disk, l) ==>
      MarkedByOwner(s, l.blk) || exists t :: Changing(s, t, l.blk)
  }

  ghost predicate ValInv(s: State) {
    && (forall l :: FreeOk(s, l))
    && (forall t, l :: OwnOk(s, t, l))
    && (forall i :: LsnOk(s, i))
    && (forall l :: FrameOk(s, l))
    && (forall t :: BusyOk(s, t))
  }

  // ---------- history ----------

  predicate Covered(s: State, t: int, o: Op) {
    HasLock(s, t, o.loc.blk) && (o.Write? ==> HasX(s, t, o.loc.blk))
  }

  ghost predicate ReleasedAfter(hist: seq<Event>, i: int, e: Event) {
    exists k :: 0 <= i < k < |hist| && hist[k] == e
  }

  ghost predicate EventOk(s: State, i: int) {
    0 <= i < |s.hist| && s.hist[i].Did? ==>
      var u, o := s.hist[i].who, s.hist[i].op;
      && u.boot <= s.boot
      && (u.boot < s.boot ==> ReleasedAfter(s.hist, i, Crashed))
      && (u.boot == s.boot ==>
            && s.mode.Up?
            && u.tx <= s.nextTx
            && (Covered(s, u.tx, o) || (!Unsettled(s, u.tx) && ReleasedAfter(s.hist, i, Released(u, o.loc.blk)))))
  }

  ghost predicate WroteAt(e: Event, l: Loc) {
    e.Did? && e.op.Write? && e.op.loc == l
  }

  /** No committed write at l follows a write at l of an unsettled transaction. */
  ghost predicate WriteLastOk(s: State, i: int, j: int) {
    && 0 <= i < j < |s.hist| && s.hist[i].Did? && s.hist[i].op.Write? && WroteAt(s.hist[j], s.hist[i].op.loc)
    && s.hist[i].who.boot == s.boot && Unsettled(s, s.hist[i].who.tx)
    ==> s.hist[j].who !in s.order
  }

  ghost predicate ReadsOk(s: State, t: int) {
    Unsettled(s, t) ==> ReadsFit(Ops(s.hist, Me(s, t)), s.db)
  }

  ghost predicate LastOk(s: State, l: Loc) {
    LastCommitted(s.hist, s.order, l) == Committed(s, l)
  }

  predicate Conflict(a: Op, b: Op) {
    a.loc.blk == b.loc.blk && (a.Write? || b.Write?)
  }

  /** Between two conflicting operations of different transactions the first one let go of the block. */
  ghost predicate Separated(hist: seq<Event>, i: int, j: int) {
    && 0 <= i < j < |hist| && hist[i].Did? && hist[j].Did?
    && hist[i].who != hist[j].who && Conflict(hist[i].op, hist[j].op)
    ==> exists k :: i < k < j && (hist[k] == Released(hist[i].who, hist[i].op.loc.blk) || hist[k] == Crashed)
  }

  ghost predicate HistInv(s: State) {
    && (forall i :: EventOk(s, i))
    && (forall i, j :: WriteLastOk(s, i, j))
    && (forall t :: ReadsOk(s, t))
    && (forall l :: LastOk(s, l))
    && (forall i, j :: Separated(s.hist, i, j))
    && Serial(s.hist, s.order) == Some(s.db)
  }

  // ---------- while the machine is down or recovering ----------

  /** Recovering from the durable log and the disk would yield the committed value. */
  ghost predicate Recoverable(s: State, l: Loc) {
    FirstOld(s.log[..s.flushed], {}, l).GetOr(OnDisk(s.disk, l)) == Committed(s, l)
  }

  /** How far recovery has come at l. */
  ghost predicate ProgressOk(s: State, l: Loc) {
    match s.mode
    case Up => true
    case Down => true
    case Recovering(pos, finished, _) =>
      && pos <= |s.log|
      && FirstOld(s.log[..pos], finished, l).GetOr(Cur(s, l)) == Committed(s, l)
      && (FirstOld(s.log[..pos], finished, l).Some? ==> FirstOld(s.log[..s.flushed], {}, l).Some?)
    case Recovered(_) => Cur(s, l) == Committed(s, l)
    case RecFlushing(todo, _) =>
      Cur(s, l) == Committed(s, l) && (l.blk !in todo ==> OnDisk(s.disk, l) == Committed(s, l))
    case Checkpointing(_, _) => Cur(s, l) == Committed(s, l) && OnDisk(s.disk, l) == Committed(s, l)
  }

  ghost predicate RecFrameOk(s: State, l: Loc) {
    l.blk in s.cache && Cur(s, l) != OnDisk(s.disk, l) ==> s.cache[l.blk].tx == 1
  }

  ghost predicate RestartOk(s: State) {
    match s.mode
    case Up => true
    case Down => s.cache == map[] && s.flushed == |s.log|
    case Recovering(pos, _, start) =>
      && start + 1 == |s.log| && s.log[start] == Start(1) && s.flushed >= start
      && s.nextTx == 1
    case Recovered(start) =>
      && start + 1 == |s.log| && s.log[start] == Start(1) && s.flushed >= start
      && s.nextTx == 1
    case RecFlushing(_, start) =>
      && start + 1 == |s.log| && s.log[start] == Start(1) && s.flushed >= start
      && s.nextTx == 1
    case Checkpointing(lsn, start) =>
      && lsn == |s.log| && start + 2 == |s.log| && s.log[start] == Start(1) && s.log[start + 1] == Checkpoint
      && s.flushed >= start
      && s.nextTx == 1
  }

  ghost predicate DownInv(s: State) {
    && s.txs == map[] && s.locks == NoLocks
    && RestartOk(s)
    && (forall l :: Recoverable(s, l))
    && (forall l :: ProgressOk(s, l))
    && (forall l :: RecFrameOk(s, l))
  }

  ghost predicate Inv(s: State) {
    && IdInv(s)
    && HistInv(s)
    && (s.mode.Up? ==> LogInv(s) && ValInv(s))
    && (!s.mode.Up? ==> DownInv(s))
  }
}
