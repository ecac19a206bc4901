/**
 A run in which a rolled-back append is seen: file lengths are not serializable over the committed
 transactions alone.
 */
module TxLengthRun {
  import opened DbTypes
  import opened Locks
  import opened Recovery
  import opened TxMachine
  import opened TxLengths

  lemma {:induction false} LenExecuteSnoc(s: LenState, run: seq<LenAction>, a: LenAction)
    requires LenExecute(s, run).Some? && LenMayDo(LenExecute(s, run).value, a)
    ensures LenExecute(s, run + [a]) == Some(LenStep(LenExecute(s, run).value, a))
    decreases |run|
  {
    if run == [] {
      assert (run + [a])[1..] == [];
      assert LenExecute(LenStep(s, a), []) == Some(LenStep(s, a));
    } else {
      LenExecuteSnoc(LenStep(s, run[0]), run[1..], a);
      assert (run + [a])[1..] == run[1..] + [a];
    }
  }

  ghost predicate Leads(s: LenState, a: LenAction, s': LenState) {
    LenMayDo(s, a) && LenStep(s, a) == s'
  }

  /** The first boot, before it is over. */
  function Booting(mode: Mode, log: seq<Rec>, flushed: nat): LenState
    requires flushed <= |log|
  {
    LenState(State(mode, 0, 1, log, flushed, map[], map[], map[], NoLocks, [], [], map[]), map[], [], [])
  }

  /** The machine up in its first boot, with no pages cached. */
  function Running(nextTx: int, log: seq<Rec>, flushed: nat, txs: map<int, Tx>, locks: LockState, hist: seq<Event>,
                   order: seq<Uid>): State
    requires flushed <= |log|
  {
    State(Up, 0, nextTx, log, flushed, map[], map[], txs, locks, hist, order, map[])
  }

  const FILE := "f"
  const ONE := Uid(0, 1)
  const TWO := Uid(0, 2)
  const LOG1 := [Start(1), Checkpoint]
  const LOG2 := [Start(1), Checkpoint, Rollback(1)]
  const LOG3 := [Start(1), Checkpoint, Rollback(1), Start(2)]
  const LOG4 := [Start(1), Checkpoint, Rollback(1), Start(2), Commit(2)]
  const ENDED := Tx(0, Ending(3, false))
  const BOTH := map[1 := ENDED, 2 := Tx(3, Active)]
  const HALFWAY := LockState(map[Dummy(FILE) := 1], map[], {Hold(1, Dummy(FILE))}, multiset{})
  const EXCLUSIVE := LockState(map[Dummy(FILE) := -1], map[Hold(1, Dummy(FILE)) := X], {}, multiset{})
  const SHARED := LockState(map[Dummy(FILE) := 1], map[Hold(2, Dummy(FILE)) := S], {}, multiset{})

  function Opened(locks: LockState): LenState {
    LenState(Running(1, LOG1, 2, map[1 := Tx(0, Active)], locks, [], []), map[], [], [])
  }

  /** Transaction 1 has appended a block to the file; its end is still to come. */
  function Extended(phase: Phase, log: seq<Rec>): LenState
    requires |log| >= 2
  {
    LenState(Running(1, log, 2, map[1 := Tx(0, phase)], EXCLUSIVE, [], []), map[FILE := 1], [Append(ONE, FILE)], [])
  }

  function GivenUp(): LenState {
    LenState(Running(1, LOG2, 3, map[1 := ENDED], EXCLUSIVE, [], []), map[FILE := 1], [Append(ONE, FILE)], [Turn({ONE}, false)])
  }

  /** Transaction 1 has rolled back and let go. */
  function RolledBack(nextTx: int, log: seq<Rec>, flushed: nat, txs: map<int, Tx>, locks: LockState, order: seq<Uid>,
                      hist: seq<LenEvent>, turns: seq<Turn>): LenState
    requires flushed <= |log|
  {
    LenState(Running(nextTx, log, flushed, txs, locks, [Released(ONE, Dummy(FILE))], order), map[FILE := 1],
             [Append(ONE, FILE), LetGo(ONE, FILE)] + hist, [Turn({ONE}, false)] + turns)
  }

  function Begun(nextTx: int, log: seq<Rec>, txs: map<int, Tx>, locks: LockState): LenState
    requires |log| >= 3
  {
    RolledBack(nextTx, log, 3, txs, locks, [], [], [])
  }

  /** Transaction 2 has read the length. */
  function Measured(log: seq<Rec>, flushed: nat, phase: Phase, order: seq<Uid>, turns: seq<Turn>): LenState
    requires flushed <= |log|
  {
    RolledBack(2, log, flushed, map[1 := ENDED, 2 := Tx(3, phase)], SHARED, order, [Size(TWO, FILE, 1)], turns)
  }

  // ---------- the steps of that run ----------

  lemma FirstBoot()
    ensures Leads(NoFiles, Base(Boot),
                  Booting(Recovering(1, {}, 0), [Start(1)], 0))
  {
  }

  lemma Walk()
    ensures Leads(Booting(Recovering(1, {}, 0), [Start(1)], 0), Base(RecoverOne),
                  Booting(Recovering(0, {}, 0), [Start(1)], 0))
  {
  }

  lemma Walked()
    ensures Leads(Booting(Recovering(0, {}, 0), [Start(1)], 0), Base(RecoverOne),
                  Booting(Recovered(0), [Start(1)], 0))
  {
  }

  lemma FlushNone()
    ensures Leads(Booting(Recovered(0), [Start(1)], 0), Base(StartRecFlush),
                  Booting(RecFlushing({}, 0), [Start(1)], 0))
  {
    assert NoFiles.base.cache.Keys == {};
  }

  lemma Checkpointed()
    ensures Leads(Booting(RecFlushing({}, 0), [Start(1)], 0), Base(AppendCheckpoint),
                  Booting(Checkpointing(2, 0), LOG1, 0))
  {
  }

  lemma StartFlushed()
    ensures Leads(Booting(Checkpointing(2, 0), LOG1, 0), Base(FlushLog),
                  Booting(Checkpointing(2, 0), LOG1, 1))
  {
  }

  lemma CheckpointFlushed()
    ensures Leads(Booting(Checkpointing(2, 0), LOG1, 1), Base(FlushLog),
                  Booting(Checkpointing(2, 0), LOG1, 2))
  {
  }

  lemma Open()
    ensures Leads(Booting(Checkpointing(2, 0), LOG1, 2), Base(OpenUp),
                  Opened(NoLocks))
  {
  }

  lemma Reserved()
    ensures Leads(Opened(NoLocks), Base(Lock(Reserve(1, Dummy(FILE)))),
                  Opened(HALFWAY))
  {
  }

  lemma Upgraded()
    ensures Leads(Opened(HALFWAY), Base(Lock(Upgrade(1, Dummy(FILE)))),
                  Opened(EXCLUSIVE))
  {
  }

  lemma Grown()
    ensures Leads(Opened(EXCLUSIVE), Extend(1, FILE),
                  Extended(Active, LOG1))
  {
  }

  lemma RollingBack()
    ensures Leads(Extended(Active, LOG1), Base(StartRollback(1)),
                  Extended(Undoing(2), LOG1))
  {
  }

  lemma UndidOne()
    ensures Leads(Extended(Undoing(2), LOG1), Base(UndoOne(1)),
                  Extended(Undoing(1), LOG1))
  {
  }

  lemma UndidAll()
    ensures Leads(Extended(Undoing(1), LOG1), Base(UndoOne(1)),
                  Extended(Undone, LOG1))
  {
  }

  lemma FlushNoneAgain()
    ensures Leads(Extended(Undone, LOG1), Base(StartFlush(1)),
                  Extended(Flushing({}, false), LOG1))
  {
    assert NoFiles.base.cache.Keys == {};
  }

  lemma RollbackLogged()
    ensures Leads(Extended(Flushing({}, false), LOG1), Base(AppendRollback(1)),
                  Extended(Ending(3, false), LOG2))
  {
  }

  lemma RollbackFlushed()
    ensures Leads(Extended(Ending(3, false), LOG2), Base(FlushLog),
                  GivenUp())
  {
  }

  lemma LockGone()
    ensures Leads(GivenUp(), Base(Release(1, Dummy(FILE))),
                  Begun(1, LOG2, map[1 := ENDED], NoLocks))
  {
  }

  lemma SecondBegun()
    ensures Leads(Begun(1, LOG2, map[1 := ENDED], NoLocks), Base(Begin),
                  Begun(2, LOG3, BOTH, NoLocks))
  {
  }

  lemma SecondLocked()
    ensures Leads(Begun(2, LOG3, BOTH, NoLocks), Base(Lock(Share(2, Dummy(FILE)))),
                  Begun(2, LOG3, BOTH, SHARED))
  {
  }

  lemma SecondMeasured()
    ensures Leads(Begun(2, LOG3, BOTH, SHARED), GetSize(2, FILE),
                  Measured(LOG3, 3, Active, [], []))
  {
  }

  lemma SecondFlushes()
    ensures Leads(Measured(LOG3, 3, Active, [], []), Base(StartFlush(2)),
                  Measured(LOG3, 3, Flushing({}, true), [], []))
  {
    assert NoFiles.base.cache.Keys == {};
  }

  lemma CommitLogged()
    ensures Leads(Measured(LOG3, 3, Flushing({}, true), [], []), Base(AppendCommit(2)),
                  Measured(LOG4, 3, Ending(5, true), [], []))
  {
  }

  lemma StartFlushedToo()
    ensures Leads(Measured(LOG4, 3, Ending(5, true), [], []), Base(FlushLog),
                  Measured(LOG4, 4, Ending(5, true), [], []))
  {
  }

  lemma CommitFlushed()
    ensures Leads(Measured(LOG4, 4, Ending(5, true), [], []), Base(FlushLog),
                  Measured(LOG4, 5, Ending(5, true), [TWO], [Turn({TWO}, true)]))
  {
    OneRelease();
  }

  lemma OneRelease()
    ensures Ops([Released(ONE, Dummy(FILE))], TWO) == []
  {
    assert Init([Released(ONE, Dummy(FILE))]) == [];
  }

  /** A run that goes on by one step. */
  lemma GoesOn(run: seq<LenAction>, s: LenState, a: LenAction, s': LenState) returns (run': seq<LenAction>)
    requires LenExecute(NoFiles, run) == Some(s) && Leads(s, a, s')
    ensures LenExecute(NoFiles, run') == Some(s')
  {
    LenExecuteSnoc(NoFiles, run, a);
    run' := run + [a];
  }

  lemma Part1() returns (run: seq<LenAction>)
    ensures LenExecute(NoFiles, run) == Some(Booting(RecFlushing({}, 0), [Start(1)], 0))
  {
    run := [];
    FirstBoot();
    run := GoesOn(run, NoFiles, Base(Boot), Booting(Recovering(1, {}, 0), [Start(1)], 0));
    Walk();
    run := GoesOn(run, Booting(Recovering(1, {}, 0), [Start(1)], 0), Base(RecoverOne), Booting(Recovering(0, {}, 0), [Start(1)], 0));
    Walked();
    run := GoesOn(run, Booting(Recovering(0, {}, 0), [Start(1)], 0), Base(RecoverOne), Booting(Recovered(0), [Start(1)], 0));
    FlushNone();
    run := GoesOn(run, Booting(Recovered(0), [Start(1)], 0), Base(StartRecFlush), Booting(RecFlushing({}, 0), [Start(1)], 0));
  }

  lemma Part2() returns (run: seq<LenAction>)
    ensures LenExecute(NoFiles, run) == Some(Opened(NoLocks))
  {
    run := Part1();
    Checkpointed();
    run := GoesOn(run, Booting(RecFlushing({}, 0), [Start(1)], 0), Base(AppendCheckpoint), Booting(Checkpointing(2, 0), LOG1, 0));
    StartFlushed();
    run := GoesOn(run, Booting(Checkpointing(2, 0), LOG1, 0), Base(FlushLog), Booting(Checkpointing(2, 0), LOG1, 1));
    CheckpointFlushed();
    run := GoesOn(run, Booting(Checkpointing(2, 0), LOG1, 1), Base(FlushLog), Booting(Checkpointing(2, 0), LOG1, 2));
    Open();
    run := GoesOn(run, Booting(Checkpointing(2, 0), LOG1, 2), Base(OpenUp), Opened(NoLocks));
  }

  lemma Part3() returns (run: seq<LenAction>)
    ensures LenExecute(NoFiles, run) == Some(Extended(Active, LOG1))
  {
    run := Part2();
    Reserved();
    run := GoesOn(run, Opened(NoLocks), Base(Lock(Reserve(1, Dummy(FILE)))), Opened(HALFWAY));
    Upgraded();
    run := GoesOn(run, Opened(HALFWAY), Base(Lock(Upgrade(1, Dummy(FILE)))), Opened(EXCLUSIVE));
    Grown();
    run := GoesOn(run, Opened(EXCLUSIVE), Extend(1, FILE), Extended(Active, LOG1));
  }

  lemma Part4() returns (run: seq<LenAction>)
    ensures LenExecute(NoFiles, run) == Some(Extended(Undone, LOG1))
  {
    run := Part3();
    RollingBack();
    run := GoesOn(run, Extended(Active, LOG1), Base(StartRollback(1)), Extended(Undoing(2), LOG1));
    UndidOne();
    run := GoesOn(run, Extended(Undoing(2), LOG1), Base(UndoOne(1)), Extended(Undoing(1), LOG1));
    UndidAll();
    run := GoesOn(run, Extended(Undoing(1), LOG1), Base(UndoOne(1)), Extended(Undone, LOG1));
  }

  lemma Part5() returns (run: seq<LenAction>)
    ensures LenExecute(NoFiles, run) == Some(Begun(1, LOG2, map[1 := ENDED], NoLocks))
  {
    run := Part4();
    FlushNoneAgain();
    run := GoesOn(run, Extended(Undone, LOG1), Base(StartFlush(1)), Extended(Flushing({}, false), LOG1));
    RollbackLogged();
    run := GoesOn(run, Extended(Flushing({}, false), LOG1), Base(AppendRollback(1)), Extended(Ending(3, false), LOG2));
    RollbackFlushed();
    run := GoesOn(run, Extended(Ending(3, false), LOG2), Base(FlushLog), GivenUp());
    LockGone();
    run := GoesOn(run, GivenUp(), Base(Release(1, Dummy(FILE))), Begun(1, LOG2, map[1 := ENDED], NoLocks));
  }

  lemma Part6() returns (run: seq<LenAction>)
    ensures LenExecute(NoFiles, run) == Some(Measured(LOG3, 3, Active, [], []))
  {
    run := Part5();
    SecondBegun();
    run := GoesOn(run, Begun(1, LOG2, map[1 := ENDED], NoLocks), Base(Begin), Begun(2, LOG3, BOTH, NoLocks));
    SecondLocked();
    run := GoesOn(run, Begun(2, LOG3, BOTH, NoLocks), Base(Lock(Share(2, Dummy(FILE)))), Begun(2, LOG3, BOTH, SHARED));
    SecondMeasured();
    run := GoesOn(run, Begun(2, LOG3, BOTH, SHARED), GetSize(2, FILE), Measured(LOG3, 3, Active, [], []));
  }

  lemma Part7() returns (run: seq<LenAction>)
    ensures LenExecute(NoFiles, run) == Some(Measured(LOG4, 5, Ending(5, true), [TWO], [Turn({TWO}, true)]))
  {
    run := Part6();
    SecondFlushes();
    run := GoesOn(run, Measured(LOG3, 3, Active, [], []), Base(StartFlush(2)), Measured(LOG3, 3, Flushing({}, true), [], []));
    CommitLogged();
    run := GoesOn(run, Measured(LOG3, 3, Flushing({}, true), [], []), Base(AppendCommit(2)), Measured(LOG4, 3, Ending(5, true), [], []));
    StartFlushedToo();
    run := GoesOn(run, Measured(LOG4, 3, Ending(5, true), [], []), Base(FlushLog), Measured(LOG4, 4, Ending(5, true), [], []));
    CommitFlushed();
    run := GoesOn(run, Measured(LOG4, 4, Ending(5, true), [], []), Base(FlushLog), Measured(LOG4, 5, Ending(5, true), [TWO], [Turn({TWO}, true)]));
  }

  /**
   Transaction 1 appends a block and rolls back; transaction 2 then reads the length and commits. It
   has seen the rolled-back append: replaying the committed transactions alone it would have read 0, not 1.
   */
  lemma RolledBackAppendSeen()
    ensures
      var s := Measured(LOG4, 5, Ending(5, true), [TWO], [Turn({TWO}, true)]);
      && LenReachable(s) && s.base.order == [TWO]
      && s.hist == [Append(ONE, FILE), LetGo(ONE, FILE), Size(TWO, FILE, 1)]
      && InTurn(s.turns, 1, TWO) && s.turns[1].commit
      && AppendsBy(s.hist, Committers(s.turns, 1), FILE) + AppendsBy(s.hist[..2], {TWO}, FILE) == 0
  {
    var s := Measured(LOG4, 5, Ending(5, true), [TWO], [Turn({TWO}, true)]);
    var run := Part7();
    assert Committers(s.turns, 1) == {};
    NoneCounted(s.hist, {}, FILE);
    NoneCounted(s.hist[..2], {TWO}, FILE);
  }

  lemma {:induction false} NoneCounted(hist: seq<LenEvent>, us: set<Uid>, f: string)
    requires forall j :: 0 <= j < |hist| && Grows(hist[j], f) ==> hist[j].who !in us
    ensures AppendsBy(hist, us, f) == 0
    decreases |hist|
  {
    if hist != [] {
      NoneCounted(Init(hist), us, f);
    }
  }
}
