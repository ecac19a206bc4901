/**
 A run that comes to a page written too early: transaction 1 has changed a page and not marked it yet
 when transaction 2 commits, and the frame still carries a mark of transaction 2. A crash then leaves
 a value on the disk that nobody has committed and that recovery does not undo.
 */
module TxEarlyRun {
  import opened DbTypes
  import opened Locks
  import opened Recovery
  import opened TxMachine
  import opened TxTheorems
  import opened TxLengths
  import opened TxLengthRun
  import TxEngine

  const BLK := Block(FILE, 0)
  const PLACE := Loc(BLK, 0)
  const NEW := IntVal(7)
  const RESERVED := LockState(map[BLK := 1], map[], {Hold(1, BLK)}, multiset{})
  const MINE := LockState(map[BLK := -1], map[Hold(1, BLK) := X], {}, multiset{})
  const LOGGED := [Start(1), Checkpoint, SetVal(1, PLACE, Zero)]
  const LOGGED2 := [Start(1), Checkpoint, SetVal(1, PLACE, Zero), Start(2)]
  const WROTE := [Did(ONE, Op.Write(PLACE, NEW))]
  const PAGE := map[BLK := Frame(map[0 := NEW], 2, 0)]

  /** The machine up, with two records durable and nothing on the disk. */
  function Now(nextTx: int, log: seq<Rec>, txs: map<int, Tx>, locks: LockState, cache: map<Block, Frame>,
               hist: seq<Event>): State
    requires |log| >= 2
  {
    State(Up, 0, nextTx, log, 2, map[], cache, txs, locks, hist, [], map[])
  }

  function One(phase: Phase): map<int, Tx> {
    map[1 := Tx(0, phase)]
  }

  function Both(phase: Phase): map<int, Tx> {
    map[1 := Tx(0, Changed(PLACE, 3)), 2 := Tx(3, phase)]
  }

  ghost predicate Goes(s: State, a: Action, s': State) {
    MayDo(s, a) && Step(s, a) == s'
  }

  lemma Reserves()
    ensures Goes(Now(1, LOG1, One(Active), NoLocks, map[], []), Lock(Reserve(1, BLK)),
                 Now(1, LOG1, One(Active), RESERVED, map[], []))
  {
  }

  lemma Upgrades()
    ensures Goes(Now(1, LOG1, One(Active), RESERVED, map[], []), Lock(Upgrade(1, BLK)),
                 Now(1, LOG1, One(Active), MINE, map[], []))
  {
  }

  /** The frame still carries a mark of transaction 2. */
  lemma Loads()
    ensures Goes(Now(1, LOG1, One(Active), MINE, map[], []), Load(BLK, 2, 0),
                 Now(1, LOG1, One(Active), MINE, map[BLK := Frame(map[], 2, 0)], []))
  {
  }

  lemma Logs()
    ensures Goes(Now(1, LOG1, One(Active), MINE, map[BLK := Frame(map[], 2, 0)], []), LogWrite(1, PLACE, NEW),
                 Now(1, LOGGED, One(Logged(PLACE, NEW, 3)), MINE, map[BLK := Frame(map[], 2, 0)], []))
  {
  }

  lemma Changes()
    ensures Goes(Now(1, LOGGED, One(Logged(PLACE, NEW, 3)), MINE, map[BLK := Frame(map[], 2, 0)], []), ChangePage(1),
                 Now(1, LOGGED, One(Changed(PLACE, 3)), MINE, PAGE, WROTE))
  {
  }

  lemma Begins()
    ensures Goes(Now(1, LOGGED, One(Changed(PLACE, 3)), MINE, PAGE, WROTE), Begin,
                 Now(2, LOGGED2, Both(Active), MINE, PAGE, WROTE))
  {
  }

  lemma Commits()
    ensures Goes(Now(2, LOGGED2, Both(Active), MINE, PAGE, WROTE), StartFlush(2),
                 Now(2, LOGGED2, Both(Flushing({BLK}, true)), MINE, PAGE, WROTE))
  {
    assert PAGE.Keys == {BLK};
  }

  lemma GoesOn(s: State, a: Action, s': State)
    requires Reachable(s) && Goes(s, a, s')
    ensures Reachable(s')
  {
    TxEngine.ReachableStep(s, a);
  }

  lemma Opens()
    ensures Reachable(Now(1, LOG1, One(Active), NoLocks, map[], []))
  {
    var run := Part2();
    var base := BaseRuns(NoFiles, run);
  }

  lemma Locked()
    ensures Reachable(Now(1, LOG1, One(Active), MINE, map[BLK := Frame(map[], 2, 0)], []))
  {
    Opens();
    Reserves();
    GoesOn(Now(1, LOG1, One(Active), NoLocks, map[], []), Lock(Reserve(1, BLK)), Now(1, LOG1, One(Active), RESERVED, map[], []));
    Upgrades();
    GoesOn(Now(1, LOG1, One(Active), RESERVED, map[], []), Lock(Upgrade(1, BLK)), Now(1, LOG1, One(Active), MINE, map[], []));
    Loads();
    GoesOn(Now(1, LOG1, One(Active), MINE, map[], []), Load(BLK, 2, 0),
           Now(1, LOG1, One(Active), MINE, map[BLK := Frame(map[], 2, 0)], []));
  }

  lemma Written()
    ensures Reachable(Now(1, LOGGED, One(Changed(PLACE, 3)), MINE, PAGE, WROTE))
  {
    Locked();
    Logs();
    GoesOn(Now(1, LOG1, One(Active), MINE, map[BLK := Frame(map[], 2, 0)], []), LogWrite(1, PLACE, NEW),
           Now(1, LOGGED, One(Logged(PLACE, NEW, 3)), MINE, map[BLK := Frame(map[], 2, 0)], []));
    Changes();
    GoesOn(Now(1, LOGGED, One(Logged(PLACE, NEW, 3)), MINE, map[BLK := Frame(map[], 2, 0)], []), ChangePage(1),
           Now(1, LOGGED, One(Changed(PLACE, 3)), MINE, PAGE, WROTE));
  }

  function AboutToFlush(): State {
    Now(2, LOGGED2, Both(Flushing({BLK}, true)), MINE, PAGE, WROTE)
  }

  lemma Committing()
    ensures Reachable(AboutToFlush())
  {
    Written();
    Begins();
    GoesOn(Now(1, LOGGED, One(Changed(PLACE, 3)), MINE, PAGE, WROTE), Begin, Now(2, LOGGED2, Both(Active), MINE, PAGE, WROTE));
    Commits();
    GoesOn(Now(2, LOGGED2, Both(Active), MINE, PAGE, WROTE), StartFlush(2), AboutToFlush());
  }

  lemma FlushIsEarly()
    ensures CanDo(AboutToFlush(), FlushNext(2, BLK)) && PageOut(AboutToFlush(), FlushNext(2, BLK)) == Some(BLK)
    ensures Changing(AboutToFlush(), 1, BLK) && Exposed(AboutToFlush(), 1)
    ensures Cur(AboutToFlush(), PLACE) == NEW && AboutToFlush().txs[1].phase.loc == PLACE
  {
  }

  lemma NothingCommitted()
    ensures LastCommitted(WROTE, [], PLACE) == Zero
  {
    assert Init(WROTE) == [];
  }

  /** Transaction 2's flush_all then writes the page, and a crash right after it loses the value committed. */
  lemma UncommittedSurvives()
    ensures
      var s := AboutToFlush();
      && Reachable(s) && CanDo(s, FlushNext(2, BLK)) && TooEarly(s, FlushNext(2, BLK))
      && AfterRecovery(Step(s, FlushNext(2, BLK)), PLACE) == NEW
      && LastCommitted(s.hist, s.order, PLACE) == Zero
  {
    Committing();
    FlushIsEarly();
    ReachableInv(AboutToFlush());
    EarlyIsWrong(AboutToFlush(), FlushNext(2, BLK), 1);
    NothingCommitted();
  }
}
