/**
 What holds of every run of the transaction machine: any interleaving, any timing of page and
 log writes, any number of crashes at any step, recovery included.
 */
module TxTheorems {
  import opened DbTypes
  import opened Locks
  import opened Recovery
  import opened TxMachine
  import TxReplay
  import opened TxInvariant
  import opened TxSteps
  import opened TxRestart
  import opened TxConflicts

  lemma NewDatabaseInv()
    ensures Inv(NewDatabase) && ConflictInv(NewDatabase)
  {
    NoLocksInv();
  }

  lemma PageStepKeeps(s: State, a: Action)
    requires Inv(s) && s.mode.Up? && MayDo(s, a) && IsPageStep(a)
    ensures Inv(Step(s, a))
  {
    match a
    case Load(b, mark, lsn) => LoadKeeps(s, b, mark, lsn);
    case FlushPage(b) => FlushPageKeeps(s, b);
    case Evict(b) => EvictKeeps(s, b);
    case FlushLog => FlushLogKeeps(s);
  }

  lemma OperationKeeps(s: State, a: Action)
    requires Inv(s) && s.mode.Up? && CanDo(s, a)
    requires a.Begin? || IsLockStep(a) || a.DoRead? || a.LogWrite? || a.ChangePage? || a.MarkPage?
    ensures Inv(Step(s, a))
  {
    match a
    case Begin => BeginKeeps(s);
    case Lock(la) => LockKeeps(s, la);
    case DoRead(t, l) => ReadKeeps(s, t, l);
    case LogWrite(t, l, v) => LogWriteKeeps(s, t, l, v);
    case ChangePage(t) => ChangePageKeeps(s, t);
    case MarkPage(t) => MarkPageKeeps(s, t);
    case Release(t, b) => ReleaseKeeps(s, t, b);
  }

  lemma EndingKeeps(s: State, a: Action)
    requires Inv(s) && s.mode.Up? && CanDo(s, a)
    requires a.StartFlush? || a.AppendCommit? || a.StartRollback? || a.UndoOne? || a.AppendRollback? || a.End?
    ensures Inv(Step(s, a))
  {
    match a
    case StartFlush(t) => StartFlushKeeps(s, t);
    case AppendCommit(t) => AppendCommitKeeps(s, t);
    case StartRollback(t) => StartRollbackKeeps(s, t);
    case UndoOne(t) => UndoOneKeeps(s, t);
    case AppendRollback(t) => AppendRollbackKeeps(s, t);
    case End(t) => EndKeeps(s, t);
  }

  lemma UpStepKeeps(s: State, a: Action)
    requires Inv(s) && s.mode.Up? && MayDo(s, a) && !a.Crash?
    ensures Inv(Step(s, a))
  {
    if IsPageStep(a) {
      PageStepKeeps(s, a);
    } else if a.FlushNext? {
      FlushNextKeeps(s, a.tx, a.blk);
    } else if a.Begin? || IsLockStep(a) || a.DoRead? || a.LogWrite? || a.ChangePage? || a.MarkPage? {
      OperationKeeps(s, a);
    } else {
      EndingKeeps(s, a);
    }
  }

  lemma DownStepKeeps(s: State, a: Action)
    requires Inv(s) && !s.mode.Up? && CanDo(s, a) && !a.Crash?
    ensures Inv(Step(s, a))
  {
    match a {
      case Load(b, mark, lsn) => DownLoadKeeps(s, b, mark, lsn);
      case FlushPage(b) => DownFlushPageKeeps(s, b);
      case Evict(b) => DownEvictKeeps(s, b);
      case FlushLog => DownFlushLogKeeps(s);
      case Boot => BootKeeps(s);
      case RecoverOne => RecoverOneKeeps(s);
      case StartRecFlush => StartRecFlushKeeps(s);
      case RecFlushNext(b) => RecFlushNextKeeps(s, b);
      case AppendCheckpoint => AppendCheckpointKeeps(s);
      case OpenUp => OpenUpKeeps(s);
    }
  }

  /** Steps that record nothing unsettle nobody. */
  lemma UpQuiet(s: State, a: Action)
    requires Inv(s) && s.mode.Up? && CanDo(s, a) && !a.Crash? && !a.DoRead? && !a.ChangePage? && !a.Release?
    requires !a.FlushLog?
    ensures
      var s' := Step(s, a);
      && s'.hist == s.hist && s'.order == s.order && s'.boot == s.boot && s'.mode.Up? && s'.nextTx >= s.nextTx
      && forall t :: t <= s.nextTx && Unsettled(s', t) ==> Unsettled(s, t)
  {
    StaysUp(s, a);
    forall t | t <= s.nextTx && Unsettled(Step(s, a), t)
      ensures Unsettled(s, t)
    {
      SettlesNobody(s, a, t);
    }
  }

  lemma QuietStepKeepsOrder(s: State, a: Action)
    requires Inv(s) && ConflictInv(s) && s.mode.Up? && CanDo(s, a)
    requires !a.Crash? && !a.DoRead? && !a.ChangePage? && !a.Release? && !a.FlushLog?
    ensures ConflictInv(Step(s, a))
  {
    UpQuiet(s, a);
    QuietKeepsOrder(s, Step(s, a));
  }

  lemma ReadKeepsOrder(s: State, t: int, l: Loc)
    requires Inv(s) && ConflictInv(s) && CanDo(s, DoRead(t, l))
    ensures ConflictInv(Step(s, DoRead(t, l)))
  {
    RecordKeepsOrder(s, Step(s, DoRead(t, l)), Did(Me(s, t), Op.Read(l, Cur(s, l))));
  }

  lemma ChangeKeepsOrder(s: State, t: int)
    requires Inv(s) && ConflictInv(s) && CanDo(s, ChangePage(t))
    ensures ConflictInv(Step(s, ChangePage(t)))
  {
    RecordKeepsOrder(s, Step(s, ChangePage(t)), Did(Me(s, t), Op.Write(s.txs[t].phase.loc, s.txs[t].phase.val)));
  }

  lemma ReleaseKeepsOrder(s: State, t: int, b: Block)
    requires Inv(s) && ConflictInv(s) && CanDo(s, Release(t, b))
    ensures ConflictInv(Step(s, Release(t, b)))
  {
    RecordKeepsOrder(s, Step(s, Release(t, b)), Released(Me(s, t), b));
  }

  lemma FlushLogKeepsOrder(s: State)
    requires Inv(s) && ConflictInv(s) && s.mode.Up? && CanDo(s, FlushLog)
    ensures ConflictInv(Step(s, FlushLog))
  {
    if s.log[s.flushed].Commit? {
      CommitKeepsOrder(s, s.log[s.flushed].tx);
    } else {
      QuietKeepsOrder(s, Step(s, FlushLog));
    }
  }

  lemma UpStepKeepsOrder(s: State, a: Action)
    requires Inv(s) && ConflictInv(s) && s.mode.Up? && CanDo(s, a) && !a.Crash?
    ensures ConflictInv(Step(s, a))
  {
    if a.DoRead? {
      ReadKeepsOrder(s, a.tx, a.loc);
    } else if a.ChangePage? {
      ChangeKeepsOrder(s, a.tx);
    } else if a.Release? {
      ReleaseKeepsOrder(s, a.tx, a.blk);
    } else if a.FlushLog? {
      FlushLogKeepsOrder(s);
    } else {
      QuietStepKeepsOrder(s, a);
    }
  }

  lemma DownStepKeepsOrder(s: State, a: Action)
    requires Inv(s) && ConflictInv(s) && !s.mode.Up? && CanDo(s, a) && !a.Crash?
    ensures ConflictInv(Step(s, a))
  {
    DownQuiet(s, a);
    QuietKeepsOrder(s, Step(s, a));
  }

  lemma DownQuiet(s: State, a: Action)
    requires Inv(s) && !s.mode.Up? && CanDo(s, a) && !a.Crash?
    ensures Step(s, a).hist == s.hist && Step(s, a).order == s.order && Step(s, a).boot == s.boot
  {
    if a.FlushLog? {
      assert s.log[s.flushed] == Start(1) || s.log[s.flushed] == Checkpoint;
    }
  }

  lemma StepKeeps(s: State, a: Action)
    requires Inv(s) && ConflictInv(s) && MayDo(s, a)
    ensures Inv(Step(s, a)) && ConflictInv(Step(s, a))
  {
    if a.Crash? {
      CrashKeeps(s);
      RecordKeepsOrder(s, Step(s, a), Crashed);
    } else if s.mode.Up? {
      UpStepKeeps(s, a);
      UpStepKeepsOrder(s, a);
    } else {
      DownStepKeeps(s, a);
      DownStepKeepsOrder(s, a);
    }
  }

  lemma {:induction false} RunKeeps(s: State, run: seq<Action>)
    requires Inv(s) && ConflictInv(s) && Execute(s, run).Some?
    ensures Inv(Execute(s, run).value) && ConflictInv(Execute(s, run).value)
    decreases |run|
  {
    if run != [] {
      StepKeeps(s, run[0]);
      RunKeeps(Step(s, run[0]), run[1..]);
    }
  }

  ghost predicate Reachable(s: State) {
    exists run :: Execute(NewDatabase, run) == Some(s)
  }

  lemma ReachableInv(s: State)
    requires Reachable(s)
    ensures Inv(s) && ConflictInv(s)
  {
    var run :| Execute(NewDatabase, run) == Some(s);
    NewDatabaseInv();
    RunKeeps(NewDatabase, run);
  }

  // ---------- crash recovery ----------

  /** What l would hold if the machine crashed now and do_recover then ran to its end. */
  function AfterRecovery(s: State, l: Loc): Value {
    Get(RecoverWalk(s.log[..s.flushed], {}, map[l := OnDisk(s.disk, l)]), l)
  }

  /**
   From every state that a run without a page written too early can reach: crash, recover, and each
   location has its last committed value.
   */
  lemma CrashRecovery(s: State, l: Loc)
    requires Reachable(s)
    ensures AfterRecovery(s, l) == LastCommitted(s.hist, s.order, l)
  {
    ReachableInv(s);
    RecoveryIsRight(s, l);
  }

  lemma RecoveryIsRight(s: State, l: Loc)
    requires Inv(s)
    ensures AfterRecovery(s, l) == LastCommitted(s.hist, s.order, l)
  {
    assert LastOk(s, l);
    RecoverWalkAt(s.log[..s.flushed], {}, map[l := OnDisk(s.disk, l)], l);
    if s.mode.Up? {
      CrashRecoverable(s, l);
    }
    assert Recoverable(s, l);
  }

  // ---------- pages written too early ----------

  lemma PageIsOut(s: State, a: Action, b: Block)
    requires Inv(s) && s.mode.Up? && CanDo(s, a) && PageOut(s, a) == Some(b)
    ensures
      var s' := Step(s, a);
      && s'.log == s.log && s'.flushed == s.flushed && s'.hist == s.hist && s'.order == s.order
      && b in s.cache && PageOf(s'.disk, b) == s.cache[b].page
  {
    if a.FlushNext? {
      assert TxOk(s, a.tx);
    }
  }

  /** No durable record says how to undo what t is writing. */
  lemma NothingSaid(s: State, t: int, i: int)
    requires Inv(s) && s.mode.Up? && t in s.txs && s.txs[t].phase.Changed? && Exposed(s, t)
    requires 0 <= i < s.flushed && IsSet(s.log[i], s.txs[t].phase.loc)
    ensures Spent(s.log[..s.flushed], {}, i)
  {
    DeadPrefix(s.log, s.flushed, i);
    assert BusyOk(s, t) && SetOk(s, i);
    if !Dead(s.log, s.flushed, i) {
      OnlyWriter(s, t, s.log[i].tx, s.log[i].loc.blk);
    }
  }

  /** An exposed change that reaches the disk stays there: recovery takes it for what is committed. */
  lemma EarlyIsWrong(s: State, a: Action, t: int)
    requires Inv(s) && s.mode.Up? && CanDo(s, a) && PageOut(s, a).Some?
    requires Changing(s, t, PageOut(s, a).value) && Exposed(s, t)
    ensures AfterRecovery(Step(s, a), s.txs[t].phase.loc) == Cur(s, s.txs[t].phase.loc)
    ensures Cur(s, s.txs[t].phase.loc) != LastCommitted(s.hist, s.order, s.txs[t].phase.loc)
  {
    var l, recs := s.txs[t].phase.loc, s.log[..s.flushed];
    PageIsOut(s, a, l.blk);
    forall i | 0 <= i < |recs| && IsSet(recs[i], l)
      ensures Spent(recs, {}, i)
    {
      NothingSaid(s, t, i);
    }
    NothingToUndo(recs, {}, l);
    RecoverWalkAt(recs, {}, map[l := OnDisk(Step(s, a).disk, l)], l);
    assert LastOk(s, l);
  }

  /**
   A crash right after a page has been written is recovered from rightly, at every location, if and only
   if the page was not written too early.
   */
  lemma RightUnlessEarly(s: State, a: Action)
    requires Reachable(s) && s.mode.Up? && CanDo(s, a) && PageOut(s, a).Some?
    ensures (forall l :: AfterRecovery(Step(s, a), l) == LastCommitted(Step(s, a).hist, Step(s, a).order, l)) <==>
            !TooEarly(s, a)
  {
    ReachableInv(s);
    PageIsOut(s, a, PageOut(s, a).value);
    if TooEarly(s, a) {
      var t :| Changing(s, t, PageOut(s, a).value) && Exposed(s, t);
      EarlyIsWrong(s, a, t);
    } else {
      StepKeeps(s, a);
      forall l
        ensures AfterRecovery(Step(s, a), l) == LastCommitted(Step(s, a).hist, Step(s, a).order, l)
      {
        RecoveryIsRight(Step(s, a), l);
      }
    }
  }

  // ---------- recovery ----------

  /** When recovery has written its checkpoint, the disk itself holds the committed values. */
  lemma RecoveredDisk(s: State, l: Loc)
    requires Reachable(s) && s.mode.Checkpointing?
    ensures OnDisk(s.disk, l) == LastCommitted(s.hist, s.order, l)
    ensures Cur(s, l) == LastCommitted(s.hist, s.order, l)
  {
    ReachableInv(s);
    assert LastOk(s, l) && ProgressOk(s, l);
  }

  /**
   Recovery that is interrupted any number of times, by crashes at any of its steps, yields
   what one uninterrupted recovery would have yielded, and commits nobody.
   */
  lemma {:induction false} InterruptedRecovery(s: State, run: seq<Action>, l: Loc)
    requires Reachable(s) && !s.mode.Up? && OpenUp !in run && Execute(s, run).Some?
    ensures AfterRecovery(Execute(s, run).value, l) == AfterRecovery(s, l)
    ensures Execute(s, run).value.order == s.order
  {
    ReachableInv(s);
    StaysDown(s, run);
    var s' := Execute(s, run).value;
    RunKeeps(s, run);
    assert Recoverable(s, l) && Recoverable(s', l);
    RecoverWalkAt(s.log[..s.flushed], {}, map[l := OnDisk(s.disk, l)], l);
    RecoverWalkAt(s'.log[..s'.flushed], {}, map[l := OnDisk(s'.disk, l)], l);
  }

  lemma StaysDownOne(s: State, a: Action)
    requires Inv(s) && !s.mode.Up? && CanDo(s, a) && a != OpenUp
    ensures !Step(s, a).mode.Up? && Step(s, a).db == s.db && Step(s, a).order == s.order
  {
    if a.FlushLog? {
      assert s.log[s.flushed] == Start(1) || s.log[s.flushed] == Checkpoint;
    } else {
      OthersCommitNobody(s, a);
    }
  }

  lemma OthersCommitNobody(s: State, a: Action)
    requires !s.mode.Up? && CanDo(s, a) && a != OpenUp && a != FlushLog
    ensures !Step(s, a).mode.Up? && Step(s, a).db == s.db && Step(s, a).order == s.order
  {
    if a.Load? || a.FlushPage? || a.Evict? || a.Crash? {
      PagesCommitNobody(s, a);
    } else if a.RecFlushNext? {
      RecFlushCommitsNobody(s, a);
    } else if a.RecoverOne? {
      RecoverCommitsNobody(s);
    } else {
      RestartCommitsNobody(s, a);
    }
  }

  lemma PagesCommitNobody(s: State, a: Action)
    requires !s.mode.Up? && CanDo(s, a) && (a.Load? || a.FlushPage? || a.Evict? || a.Crash?)
    ensures !Step(s, a).mode.Up? && Step(s, a).db == s.db && Step(s, a).order == s.order
  {
  }

  lemma RecFlushCommitsNobody(s: State, a: Action)
    requires a.RecFlushNext? && CanDo(s, a)
    ensures !Step(s, a).mode.Up? && Step(s, a).db == s.db && Step(s, a).order == s.order
  {
  }

  lemma RecoverCommitsNobody(s: State)
    requires CanDo(s, RecoverOne)
    ensures
      var s' := Step(s, RecoverOne);
      !s'.mode.Up? && s'.db == s.db && s'.order == s.order
  {
  }

  lemma RestartCommitsNobody(s: State, a: Action)
    requires !s.mode.Up? && CanDo(s, a)
    requires a.Boot? || a.StartRecFlush? || a.AppendCheckpoint?
    ensures !Step(s, a).mode.Up? && Step(s, a).db == s.db && Step(s, a).order == s.order
  {
  }

  lemma {:induction false} StaysDown(s: State, run: seq<Action>)
    requires Inv(s) && ConflictInv(s) && !s.mode.Up? && OpenUp !in run && Execute(s, run).Some?
    ensures !Execute(s, run).value.mode.Up?
    ensures Execute(s, run).value.db == s.db && Execute(s, run).value.order == s.order
    decreases |run|
  {
    if run != [] {
      StepKeeps(s, run[0]);
      StaysDownOne(s, run[0]);
      StaysDown(Step(s, run[0]), run[1..]);
    }
  }

  // ---------- rollback ----------

  /** Rolling an active transaction back now would give its blocks their committed values. */
  lemma RollbackRestores(s: State, t: int, l: Loc)
    requires Reachable(s) && s.mode.Up? && IsActive(s, t) && HasX(s, t, l.blk)
    ensures Get(RollbackWalk(s.log, t, map[l := Cur(s, l)]), l) == LastCommitted(s.hist, s.order, l)
  {
    ReachableInv(s);
    assert LastOk(s, l) && OwnOk(s, t, l) && TxOk(s, t) && TxShape(s, t);
    RollbackWalkAt(s.log, t, s.txs[t].start, map[l := Cur(s, l)], l);
  }

  /** A rollback that ran step by step among other transactions' steps has done so. */
  lemma RolledBackLeavesNoTrace(s: State, t: int, l: Loc)
    requires Reachable(s) && s.mode.Up? && t in s.txs && HasX(s, t, l.blk)
    requires s.txs[t].phase.Undone? || ((s.txs[t].phase.Flushing? || s.txs[t].phase.Ending?) && !s.txs[t].phase.commit)
    ensures Cur(s, l) == LastCommitted(s.hist, s.order, l)
  {
    ReachableInv(s);
    assert LastOk(s, l) && OwnOk(s, t, l);
  }

  /**
   Writing out a frame that another transaction has marked may leave a mark of t behind (buffer.h:113
   lowers marks by one). A commit or rollback of t whose flush_all is over goes on all the same.
   */
  lemma MarksDoNotBlock(s: State, t: int, b: Block)
    requires CanDo(s, FlushPage(b)) && s.cache[b].tx == t + 1
    requires CanDo(s, AppendCommit(t)) || CanDo(s, AppendRollback(t))
    ensures Marked(Step(s, FlushPage(b)), t, b)
    ensures CanDo(s, AppendCommit(t)) ==> CanDo(Step(s, FlushPage(b)), AppendCommit(t))
    ensures CanDo(s, AppendRollback(t)) ==> CanDo(Step(s, FlushPage(b)), AppendRollback(t))
  {
  }

  // ---------- serializability ----------

  /**
   Executing the committed transactions one after another, in the order in which their
   commits became durable, returns the same value for every read of theirs and leaves the
   last committed value everywhere. Transactions that did not commit take no part.
   */
  lemma Serializable(s: State)
    requires Reachable(s)
    ensures Serial(s.hist, s.order).Some?
    ensures forall l :: Get(Serial(s.hist, s.order).value, l) == LastCommitted(s.hist, s.order, l)
    ensures forall a, b :: 0 <= a < b < |s.order| ==> s.order[a] != s.order[b]
  {
    ReachableInv(s);
    forall l
      ensures Get(Serial(s.hist, s.order).value, l) == LastCommitted(s.hist, s.order, l)
    {
      assert LastOk(s, l);
    }
  }

  /** Conflicting operations follow lock-release order, and the commit order agrees with them. */
  lemma ConflictSerializable(s: State, i: int, j: int)
    requires Reachable(s)
    requires 0 <= i < j < |s.hist| && s.hist[i].Did? && s.hist[j].Did?
    requires s.hist[i].who != s.hist[j].who && Conflict(s.hist[i].op, s.hist[j].op)
    ensures exists k :: i < k < j && (s.hist[k] == Released(s.hist[i].who, s.hist[i].op.loc.blk) || s.hist[k] == Crashed)
    ensures s.hist[i].who in s.order && s.hist[j].who in s.order ==>
              Precedes(s.order, s.hist[i].who, s.hist[j].who)
  {
    ReachableInv(s);
    assert Separated(s.hist, i, j) && OrderOk(s, i, j);
  }

  /** A transaction that reads sees its own last write, or else the last committed one. */
  lemma ReadsAreClean(s: State, t: int, l: Loc)
    requires Reachable(s) && CanDo(s, DoRead(t, l))
    ensures Cur(s, l) == LastCommitted(s.hist, s.order + [Me(s, t)], l)
  {
    ReachableInv(s);
    CurIsView(s, t, l);
    NotYetCommitted(s, t);
    assert LastOk(s, l);
    forall i, j, w | i < j && TxReplay.Writes(s.hist, i, Me(s, t), l) && TxReplay.Writes(s.hist, j, w, l)
      ensures w !in s.order
    {
      assert WriteLastOk(s, i, j);
    }
    TxReplay.LastCommittedAdd(s.hist, s.order, Me(s, t), s.db, l);
  }
}
