/**
 File lengths, on top of the transaction machine. A transaction reads a file's length, or makes
 the file one block longer, under a lock on the dummy block -1 of the file. Neither is logged:
 what a transaction appended stays when it rolls back or a crash cuts it off.
 */
module TxLengths {
  import opened DbTypes
  import opened Locks
  import opened Recovery
  import opened TxMachine
  import opened TxInvariant
  import opened TxSteps
  import opened TxConflicts
  import opened TxTheorems

  /** The block that stands for a file's length. */
  function Dummy(file: string): Block {
    Block(file, -1)
  }

  datatype LenEvent =
    | Size(who: Uid, file: string, len: nat)
    | Append(who: Uid, file: string)
    | LetGo(who: Uid, file: string)
    | Lost

  /** Transactions that took their place in the serial order together: one, or all that a crash cut off. */
  datatype Turn = Turn(us: set<Uid>, commit: bool)

  /** The last two components only record the run. */
  datatype LenState = LenState(base: State, lens: map<string, nat>, hist: seq<LenEvent>, turns: seq<Turn>)

  const NoFiles := LenState(NewDatabase, map[], [], [])

  datatype LenAction =
    | Base(a: Action)
    | GetSize(tx: int, file: string)
    | Extend(tx: int, file: string)

  // ---------- the steps ----------

  function LenOf(lens: map<string, nat>, file: string): nat {
    if file in lens then lens[file] else 0
  }

  ghost predicate LenCanDo(s: LenState, a: LenAction) {
    match a
    case Base(b) => CanDo(s.base, b)
    case GetSize(t, f) => s.base.mode.Up? && IsActive(s.base, t) && HasLock(s.base, t, Dummy(f))
    case Extend(t, f) => s.base.mode.Up? && IsActive(s.base, t) && HasX(s.base, t, Dummy(f))
  }

  ghost predicate LenMayDo(s: LenState, a: LenAction) {
    LenCanDo(s, a) && (a.Base? ==> MayDo(s.base, a.a))
  }

  /** Whoever a crash would cut off now. */
  function CutOff(s: State): set<Uid> {
    set t | t in s.txs && !EndDurable(s, t) :: Me(s, t)
  }

  function EventsOf(s: State, a: Action): seq<LenEvent> {
    match a
    case Release(t, b) => if b == Dummy(b.file) then [LetGo(Me(s, t), b.file)] else []
    case Crash => [Lost]
    case _ => []
  }

  /** A transaction takes its turn when its commit or rollback record becomes durable, or at a crash. */
  function TurnsOf(s: State, a: Action): seq<Turn>
    requires CanDo(s, a)
  {
    match a
    case FlushLog =>
      var r := s.log[s.flushed];
      if r.Commit? || r.Rollback? then [Turn({Me(s, r.tx)}, r.Commit?)] else []
    case Crash => [Turn(CutOff(s), false)]
    case _ => []
  }

  function LenStep(s: LenState, a: LenAction): LenState
    requires LenCanDo(s, a)
  {
    match a
    case Base(b) => LenState(Step(s.base, b), s.lens, s.hist + EventsOf(s.base, b), s.turns + TurnsOf(s.base, b))
    case GetSize(t, f) => s.(hist := s.hist + [Size(Me(s.base, t), f, LenOf(s.lens, f))])
    case Extend(t, f) => s.(lens := s.lens[f := LenOf(s.lens, f) + 1], hist := s.hist + [Append(Me(s.base, t), f)])
  }

  ghost function LenExecute(s: LenState, run: seq<LenAction>): Option<LenState>
    decreases |run|
  {
    if run == [] then Some(s)
    else if LenMayDo(s, run[0]) then LenExecute(LenStep(s, run[0]), run[1..])
    else None
  }

  ghost predicate LenReachable(s: LenState) {
    exists run :: LenExecute(NoFiles, run) == Some(s)
  }

  // ---------- counting ----------

  predicate Grows(e: LenEvent, f: string) {
    e.Append? && e.file == f
  }

  /** How often the file grew. */
  function Appends(hist: seq<LenEvent>, f: string): nat {
    if hist == [] then 0 else Appends(Init(hist), f) + if Grows(Last(hist), f) then 1 else 0
  }

  /** How often these transactions made it grow. */
  function AppendsBy(hist: seq<LenEvent>, us: set<Uid>, f: string): nat {
    if hist == [] then 0
    else AppendsBy(Init(hist), us, f) + if Grows(Last(hist), f) && Last(hist).who in us then 1 else 0
  }

  /** Everyone whose turn is among the first n. */
  function Before(turns: seq<Turn>, n: nat): set<Uid>
    requires n <= |turns|
  {
    if n == 0 then {} else Before(turns, n - 1) + turns[n - 1].us
  }

  /** The committed transactions in the order of their turns. */
  ghost predicate SameCommits(turns: seq<Turn>, order: seq<Uid>)
  {
    if turns == [] then order == []
    else if Last(turns).commit then order != [] && Last(turns).us == {Last(order)} && SameCommits(Init(turns), Init(order))
    else SameCommits(Init(turns), order)
  }

  // ---------- the invariant ----------

  predicate InTurn(turns: seq<Turn>, a: int, u: Uid) {
    0 <= a < |turns| && u in turns[a].us
  }

  ghost predicate Settled(turns: seq<Turn>, u: Uid) {
    exists a :: InTurn(turns, a, u)
  }

  predicate IsLen(e: LenEvent) {
    e.Size? || e.Append?
  }

  /** Two operations on one file's length, at least one of them an append, by different transactions. */
  predicate LenConflict(e: LenEvent, g: LenEvent) {
    IsLen(e) && IsLen(g) && e.file == g.file && (e.Append? || g.Append?) && e.who != g.who
  }

  predicate LenCovered(s: State, e: LenEvent)
    requires IsLen(e)
  {
    HasLock(s, e.who.tx, Dummy(e.file)) && (e.Append? ==> HasX(s, e.who.tx, Dummy(e.file)))
  }

  ghost predicate Gone(hist: seq<LenEvent>, i: int, k: int, e: LenEvent)
    requires IsLen(e)
  {
    i < k && 0 <= k < |hist| && (hist[k] == LetGo(e.who, e.file) || hist[k] == Lost)
  }

  ghost predicate GoneAfter(hist: seq<LenEvent>, i: int, e: LenEvent)
    requires IsLen(e)
  {
    exists k :: Gone(hist, i, k, e)
  }

  ghost predicate LenEventOk(s: LenState, i: int) {
    0 <= i < |s.hist| && IsLen(s.hist[i]) ==>
      var e := s.hist[i];
      if Settled(s.turns, e.who)
      then GoneAfter(s.hist, i, e) || (e.who.boot == s.base.boot && s.base.mode.Up? && LenCovered(s.base, e))
      else e.who.boot == s.base.boot && s.base.mode.Up? && Unsettled(s.base, e.who.tx) && LenCovered(s.base, e)
  }

  ghost predicate TurnsOrdered(turns: seq<Turn>, u: Uid, w: Uid) {
    forall a, b :: InTurn(turns, a, u) && InTurn(turns, b, w) ==> a < b
  }

  /** Of two conflicting operations the first one's transaction let go of the length, and had its turn. */
  ghost predicate InOrder(s: LenState, i: int, j: int) {
    0 <= i < j < |s.hist| && LenConflict(s.hist[i], s.hist[j]) ==>
      && (exists k :: k < j && Gone(s.hist, i, k, s.hist[i]))
      && Settled(s.turns, s.hist[i].who)
      && TurnsOrdered(s.turns, s.hist[i].who, s.hist[j].who)
  }

  ghost predicate SizeOk(s: LenState, i: int) {
    0 <= i < |s.hist| && s.hist[i].Size? ==> s.hist[i].len == Appends(s.hist[..i], s.hist[i].file)
  }

  ghost predicate TurnOk(s: LenState, a: int, u: Uid) {
    InTurn(s.turns, a, u) ==> u.boot < s.base.boot || (u.boot == s.base.boot && s.base.mode.Up? && u.tx <= s.base.nextTx)
  }

  ghost predicate OneTurn(s: LenState, a: int, b: int, u: Uid) {
    InTurn(s.turns, a, u) && InTurn(s.turns, b, u) ==> a == b
  }

  ghost predicate SettledIff(s: LenState, t: int) {
    t in s.base.txs ==> (Settled(s.turns, Me(s.base, t)) <==> EndDurable(s.base, t))
  }

  ghost predicate LenInv(s: LenState) {
    && (forall i :: LenEventOk(s, i))
    && (forall i, j :: InOrder(s, i, j))
    && (forall i :: SizeOk(s, i))
    && (forall f :: LenOf(s.lens, f) == Appends(s.hist, f))
    && (forall a, u :: TurnOk(s, a, u))
    && (forall a, b, u :: OneTurn(s, a, b, u))
    && (forall t :: SettledIff(s, t))
    && SameCommits(s.turns, s.base.order)
  }

  // ---------- what a step of the machine below does to it ----------

  lemma HeldKept(s: State, a: Action, h: Hold)
    requires Inv(s) && CanDo(s, a) && !a.Crash? && h in s.locks.held
    requires a.Release? ==> h != Hold(a.tx, a.blk)
    ensures h in Step(s, a).locks.held && (s.locks.held[h] == X ==> Step(s, a).locks.held[h] == X)
  {
    assert s.mode.Up?;
    if IsLockStep(a) {
      HeldByLockStep(s, a, h);
    } else {
      StaysUp(s, a);
    }
  }

  lemma HeldByLockStep(s: State, a: Action, h: Hold)
    requires CanDo(s, a) && IsLockStep(a) && h in s.locks.held && (a.Release? ==> h != Hold(a.tx, a.blk))
    ensures h in Step(s, a).locks.held && (s.locks.held[h] == X ==> Step(s, a).locks.held[h] == X)
  {
  }

  predicate FinishesNow(s: State, t: int) {
    s.flushed < |s.log| && (s.log[s.flushed] == Commit(t) || s.log[s.flushed] == Rollback(t))
  }

  /** A flush settles the transaction whose finish record it makes durable, and no other. */
  lemma FlushSettles(s: State, t: int)
    requires Inv(s) && s.mode.Up? && CanDo(s, FlushLog) && t in s.txs
    ensures EndDurable(Step(s, FlushLog), t) <==> EndDurable(s, t) || FinishesNow(s, t)
    ensures FinishesNow(s, t) ==> !EndDurable(s, t)
  {
    assert TxOk(s, t) && TxShape(s, t) && PhaseOk(s, t) && FinOk(s, s.flushed);
  }

  lemma FinisherKnown(s: State)
    requires Inv(s) && CanDo(s, FlushLog) && (s.log[s.flushed].Commit? || s.log[s.flushed].Rollback?)
    ensures s.mode.Up? && s.log[s.flushed].tx in s.txs && FinishesNow(s, s.log[s.flushed].tx)
  {
    if s.mode.Up? {
      assert FinOk(s, s.flushed);
    }
  }

  /** Other steps leave a transaction as settled as it was. */
  lemma OthersSettleNobody(s: State, a: Action, t: int)
    requires Inv(s) && CanDo(s, a) && !a.Crash? && !a.FlushLog? && !a.OpenUp? && t in Step(s, a).txs
    ensures t in s.txs ==> (EndDurable(Step(s, a), t) <==> EndDurable(s, t))
    ensures t !in s.txs ==> a.Begin? && t == s.nextTx + 1 && !EndDurable(Step(s, a), t)
  {
    if s.mode.Up? {
      SettlesNobody(s, a, t);
    } else {
      assert s.txs == map[];
      NobodyArrives(s, a);
    }
  }

  lemma NobodyArrives(s: State, a: Action)
    requires !s.mode.Up? && CanDo(s, a) && !a.OpenUp? && s.txs == map[]
    ensures Step(s, a).txs == map[]
  {
  }

  lemma NobodyLeaves(s: State, a: Action, t: int)
    requires Inv(s) && CanDo(s, a) && !a.Crash? && Unsettled(s, t)
    ensures t in Step(s, a).txs && Step(s, a).boot == s.boot && Step(s, a).mode.Up?
  {
    assert s.mode.Up?;
    StaysUp(s, a);
    if a.FlushLog? {
      FlushLogIs(s);
    } else {
      SettlesNobody(s, a, t);
    }
  }

  // ---------- records that grow ----------

  lemma AppendsMore(hist: seq<LenEvent>, e: LenEvent, f: string)
    ensures Appends(hist + [e], f) == Appends(hist, f) + if Grows(e, f) then 1 else 0
  {
    assert Init(hist + [e]) == hist;
  }

  lemma SettledMore(turns: seq<Turn>, t: Turn, u: Uid)
    ensures Settled(turns + [t], u) <==> Settled(turns, u) || u in t.us
  {
    var turns' := turns + [t];
    if a :| InTurn(turns, a, u) {
      assert InTurn(turns', a, u);
    }
    if u in t.us {
      assert InTurn(turns', |turns|, u);
    }
    if a :| InTurn(turns', a, u) {
      assert a < |turns| ==> InTurn(turns, a, u);
    }
  }

  /** The turns taken by a step are those of transactions that had none. */
  ghost predicate TurnsMore(turns: seq<Turn>, turns': seq<Turn>) {
    || turns' == turns
    || (turns' != [] && turns == Init(turns') && forall u :: u in Last(turns').us ==> !Settled(turns, u))
  }

  ghost predicate HistMore(hist: seq<LenEvent>, hist': seq<LenEvent>) {
    |hist| <= |hist'| && hist'[..|hist|] == hist
  }

  lemma GoneKept(hist: seq<LenEvent>, hist': seq<LenEvent>, i: int, k: int)
    requires HistMore(hist, hist') && 0 <= i < |hist| && IsLen(hist[i]) && Gone(hist, i, k, hist[i])
    ensures hist'[i] == hist[i] && Gone(hist', i, k, hist'[i])
  {
    assert hist'[..|hist|][i] == hist'[i] && hist'[..|hist|][k] == hist'[k];
  }

  lemma TurnsStayOrdered(turns: seq<Turn>, turns': seq<Turn>, u: Uid, w: Uid)
    requires TurnsMore(turns, turns') && Settled(turns, u) && TurnsOrdered(turns, u, w)
    ensures Settled(turns', u) && TurnsOrdered(turns', u, w)
  {
    if turns' != turns {
      var t := Last(turns');
      assert turns' == turns + [t];
      SettledMore(turns, t, u);
      forall a, b | InTurn(turns', a, u) && InTurn(turns', b, w)
        ensures a < b
      {
        assert a < |turns| && InTurn(turns, a, u);
        assert b < |turns| ==> InTurn(turns, b, w);
      }
    }
  }

  lemma OldOrder(s: LenState, s': LenState, i: int, j: int)
    requires LenInv(s) && HistMore(s.hist, s'.hist) && TurnsMore(s.turns, s'.turns) && j < |s.hist|
    ensures InOrder(s', i, j)
  {
    if 0 <= i < j && LenConflict(s'.hist[i], s'.hist[j]) {
      assert s'.hist[..|s.hist|][i] == s'.hist[i] && s'.hist[..|s.hist|][j] == s'.hist[j];
      assert InOrder(s, i, j);
      var k :| k < j && Gone(s.hist, i, k, s.hist[i]);
      GoneKept(s.hist, s'.hist, i, k);
      TurnsStayOrdered(s.turns, s'.turns, s.hist[i].who, s.hist[j].who);
    }
  }

  lemma OldSize(s: LenState, s': LenState, i: int)
    requires LenInv(s) && HistMore(s.hist, s'.hist) && i < |s.hist|
    ensures SizeOk(s', i)
  {
    if 0 <= i {
      assert s'.hist[..|s.hist|][i] == s'.hist[i] && s'.hist[..|s.hist|][..i] == s'.hist[..i];
      assert SizeOk(s, i);
    }
  }

  /** A settled transaction's operation stays accounted for while its lock does, or once it has let go. */
  lemma OldEvent(s: LenState, s': LenState, i: int)
    requires LenInv(s) && HistMore(s.hist, s'.hist) && TurnsMore(s.turns, s'.turns) && 0 <= i < |s.hist|
    requires IsLen(s.hist[i])
    requires
      var e := s.hist[i];
      LenCovered(s.base, e) && e.who.boot == s.base.boot && s.base.mode.Up? ==>
        || GoneAfter(s'.hist, i, e)
        || (s'.base.boot == s.base.boot && s'.base.mode.Up? && LenCovered(s'.base, e))
    requires
      var e := s.hist[i];
      !Settled(s.turns, e.who) && !Settled(s'.turns, e.who) ==>
        s'.base.boot == s.base.boot && s'.base.mode.Up? && Unsettled(s'.base, e.who.tx) && LenCovered(s'.base, e)
    ensures LenEventOk(s', i)
  {
    var e := s.hist[i];
    assert s'.hist[..|s.hist|][i] == s'.hist[i];
    assert LenEventOk(s, i);
    if k :| Gone(s.hist, i, k, e) {
      GoneKept(s.hist, s'.hist, i, k);
    }
    if Settled(s.turns, e.who) {
      StaysSettled(s.turns, s'.turns, e.who);
    }
  }

  lemma StaysSettled(turns: seq<Turn>, turns': seq<Turn>, u: Uid)
    requires TurnsMore(turns, turns') && Settled(turns, u)
    ensures Settled(turns', u)
  {
    if turns' != turns {
      assert turns' == turns + [Last(turns')];
      SettledMore(turns, Last(turns'), u);
    }
  }

  // ---------- every step keeps the invariant ----------

  lemma TurnsAreNew(s: LenState, a: Action)
    requires Inv(s.base) && LenInv(s) && CanDo(s.base, a)
    ensures TurnsMore(s.turns, LenStep(s, Base(a)).turns)
  {
    var turns' := LenStep(s, Base(a)).turns;
    if TurnsOf(s.base, a) != [] {
      assert turns' == s.turns + [TurnsOf(s.base, a)[0]];
      forall u | u in Last(turns').us
        ensures !Settled(s.turns, u)
      {
        assert SettledIff(s, u.tx);
        if a.FlushLog? {
          FinisherKnown(s.base);
          FlushSettles(s.base, u.tx);
        }
      }
    }
  }

  lemma NumbersGrow(s: State, a: Action)
    requires Inv(s) && CanDo(s, a)
    ensures s.boot <= Step(s, a).boot
    ensures Step(s, a).boot == s.boot && s.mode.Up? ==> Step(s, a).mode.Up? && s.nextTx <= Step(s, a).nextTx
  {
    if s.mode.Up? {
      UpNumbersGrow(s, a);
    } else {
      DownNumbersGrow(s, a);
    }
  }

  lemma UpNumbersGrow(s: State, a: Action)
    requires s.mode.Up? && CanDo(s, a)
    ensures if a.Crash? then Step(s, a).boot == s.boot + 1
            else Step(s, a).boot == s.boot && Step(s, a).mode.Up? && s.nextTx <= Step(s, a).nextTx
  {
    if !a.Crash? {
      StaysUp(s, a);
    }
  }

  lemma DownNumbersGrow(s: State, a: Action)
    requires !s.mode.Up? && CanDo(s, a)
    ensures s.boot <= Step(s, a).boot
  {
  }

  /** An operation whose transaction lets go of the length, or is lost in a crash. */
  lemma NewlyGone(s: LenState, a: Action, i: int)
    requires CanDo(s.base, a) && 0 <= i < |s.hist| && IsLen(s.hist[i]) && s.hist[i].who.boot == s.base.boot
    requires a.Crash? || a == Release(s.hist[i].who.tx, Dummy(s.hist[i].file))
    ensures GoneAfter(s.hist + EventsOf(s.base, a), i, s.hist[i])
  {
    var e := s.hist[i];
    assert e.who == Me(s.base, e.who.tx);
    assert Gone(s.hist + EventsOf(s.base, a), i, |s.hist|, e);
  }

  lemma CoverStays(s: State, a: Action, e: LenEvent)
    requires Inv(s) && CanDo(s, a) && !a.Crash? && s.mode.Up? && IsLen(e) && LenCovered(s, e)
    requires a != Release(e.who.tx, Dummy(e.file))
    ensures Step(s, a).boot == s.boot && Step(s, a).mode.Up? && LenCovered(Step(s, a), e)
  {
    NumbersGrow(s, a);
    HeldKept(s, a, Hold(e.who.tx, Dummy(e.file)));
  }

  /** A lock that covers an operation on a length stays, or its transaction lets go of it, or all is lost. */
  lemma CoverKept(s: LenState, a: Action, i: int)
    requires Inv(s.base) && LenInv(s) && CanDo(s.base, a) && 0 <= i < |s.hist| && IsLen(s.hist[i])
    requires s.hist[i].who.boot == s.base.boot && s.base.mode.Up? && LenCovered(s.base, s.hist[i])
    ensures
      var e, s' := s.hist[i], LenStep(s, Base(a));
      GoneAfter(s'.hist, i, e) || (s'.base.boot == s.base.boot && s'.base.mode.Up? && LenCovered(s'.base, e))
    ensures !Settled(s.turns, s.hist[i].who) && !a.Crash? ==> LenCovered(Step(s.base, a), s.hist[i])
  {
    var e := s.hist[i];
    assert LenEventOk(s, i) && SettledIff(s, e.who.tx);
    if a.Crash? || a == Release(e.who.tx, Dummy(e.file)) {
      NewlyGone(s, a, i);
    } else {
      CoverStays(s.base, a, e);
    }
  }

  lemma StaysUnsettled(s: LenState, a: Action, t: int)
    requires Inv(s.base) && LenInv(s) && CanDo(s.base, a) && s.base.mode.Up? && Unsettled(s.base, t)
    requires !Settled(LenStep(s, Base(a)).turns, Me(s.base, t))
    ensures !a.Crash? && LenStep(s, Base(a)).base.boot == s.base.boot && LenStep(s, Base(a)).base.mode.Up?
    ensures Unsettled(LenStep(s, Base(a)).base, t)
  {
    var turns' := LenStep(s, Base(a)).turns;
    if a.Crash? {
      SettledMore(s.turns, Turn(CutOff(s.base), false), Me(s.base, t));
    } else {
      NobodyLeaves(s.base, a, t);
      if a.FlushLog? {
        FlushSettles(s.base, t);
        if FinishesNow(s.base, t) {
          SettledMore(s.turns, TurnsOf(s.base, a)[0], Me(s.base, t));
        }
      } else {
        OthersSettleNobody(s.base, a, t);
      }
    }
  }

  lemma StepEvent(s: LenState, a: Action, i: int)
    requires Inv(s.base) && LenInv(s) && CanDo(s.base, a) && TurnsMore(s.turns, LenStep(s, Base(a)).turns)
    ensures LenEventOk(LenStep(s, Base(a)), i)
  {
    var s' := LenStep(s, Base(a));
    if 0 <= i < |s.hist| && IsLen(s.hist[i]) {
      var e := s.hist[i];
      assert LenEventOk(s, i);
      if e.who.boot == s.base.boot && s.base.mode.Up? && LenCovered(s.base, e) {
        CoverKept(s, a, i);
        if !Settled(s.turns, e.who) && !Settled(s'.turns, e.who) {
          StaysUnsettled(s, a, e.who.tx);
        }
      }
      OldEvent(s, s', i);
    }
  }

  lemma StepTurn(s: LenState, a: Action, n: int, u: Uid)
    requires Inv(s.base) && LenInv(s) && CanDo(s.base, a)
    ensures TurnOk(LenStep(s, Base(a)), n, u)
  {
    var s' := LenStep(s, Base(a));
    assert TurnOk(s, n, u);
    if InTurn(s'.turns, n, u) && !InTurn(s.turns, n, u) {
      assert s'.turns == s.turns + [TurnsOf(s.base, a)[0]];
      if a.FlushLog? {
        FinisherKnown(s.base);
        assert TxOk(s.base, u.tx) && TxShape(s.base, u.tx);
      }
    } else if InTurn(s'.turns, n, u) {
      NumbersGrow(s.base, a);
    }
  }

  lemma StepOneTurn(s: LenState, a: Action, m: int, n: int, u: Uid)
    requires Inv(s.base) && LenInv(s) && CanDo(s.base, a) && TurnsMore(s.turns, LenStep(s, Base(a)).turns)
    ensures OneTurn(LenStep(s, Base(a)), m, n, u)
  {
    var turns' := LenStep(s, Base(a)).turns;
    assert OneTurn(s, m, n, u);
    OldOrNew(s.turns, turns', m, u);
    OldOrNew(s.turns, turns', n, u);
  }

  lemma OldOrNew(turns: seq<Turn>, turns': seq<Turn>, n: int, u: Uid)
    requires TurnsMore(turns, turns')
    ensures InTurn(turns', n, u) ==> InTurn(turns, n, u) || (n == |turns| && !Settled(turns, u))
  {
    if InTurn(turns', n, u) && turns' != turns {
      assert n < |turns| ==> turns[n] == turns'[n];
      assert n == |turns| ==> u in Last(turns').us;
    }
  }

  lemma StepSettled(s: LenState, a: Action, t: int)
    requires Inv(s.base) && LenInv(s) && CanDo(s.base, a)
    ensures SettledIff(LenStep(s, Base(a)), t)
  {
    assert SettledIff(s, t);
    if a.FlushLog? {
      FlushSettled(s, t);
    } else if t in LenStep(s, Base(a)).base.txs {
      OtherSettled(s, a, t);
    }
  }

  lemma FlushSettled(s: LenState, t: int)
    requires Inv(s.base) && LenInv(s) && CanDo(s.base, FlushLog)
    ensures SettledIff(LenStep(s, Base(FlushLog)), t)
  {
    assert SettledIff(s, t);
    FlushKeepsTxs(s.base);
    if t in s.base.txs {
      FlushSettles(s.base, t);
      if TurnsOf(s.base, FlushLog) != [] {
        SettledMore(s.turns, TurnsOf(s.base, FlushLog)[0], Me(s.base, t));
      } else {
        assert LenStep(s, Base(FlushLog)).turns == s.turns;
      }
    }
  }

  lemma FlushKeepsTxs(s: State)
    requires Inv(s) && CanDo(s, FlushLog)
    ensures Step(s, FlushLog).txs == s.txs && Step(s, FlushLog).boot == s.boot && (s.txs != map[] ==> s.mode.Up?)
  {
  }

  lemma OtherSettled(s: LenState, a: Action, t: int)
    requires Inv(s.base) && LenInv(s) && CanDo(s.base, a) && !a.FlushLog? && t in LenStep(s, Base(a)).base.txs
    ensures SettledIff(LenStep(s, Base(a)), t)
  {
    var s' := LenStep(s, Base(a));
    assert SettledIff(s, t);
    NoTurns(s.base, a, t);
    assert s'.turns == s.turns;
    if a.OpenUp? {
      NoTurnYet(s, Me(s.base, t));
    } else {
      OthersSettleNobody(s.base, a, t);
      if t !in s.base.txs {
        NoTurnYet(s, Me(s.base, t));
      }
    }
  }

  lemma NoTurns(s: State, a: Action, t: int)
    requires CanDo(s, a) && !a.FlushLog? && t in Step(s, a).txs
    ensures !a.Crash? && TurnsOf(s, a) == [] && Step(s, a).boot == s.boot
  {
    if s.mode.Up? && !a.Crash? {
      StaysUp(s, a);
    }
  }

  lemma NoTurnYet(s: LenState, u: Uid)
    requires LenInv(s) && u.boot == s.base.boot && (s.base.mode.Up? ==> u.tx > s.base.nextTx)
    ensures !Settled(s.turns, u)
  {
    forall a
      ensures !InTurn(s.turns, a, u)
    {
      assert TurnOk(s, a, u);
    }
  }

  lemma StepCommits(s: LenState, a: Action)
    requires Inv(s.base) && LenInv(s) && CanDo(s.base, a)
    ensures SameCommits(LenStep(s, Base(a)).turns, LenStep(s, Base(a)).base.order)
  {
    var s' := LenStep(s, Base(a));
    OrderMoves(s.base, a);
    if TurnsOf(s.base, a) == [] {
      assert s'.turns == s.turns && s'.base.order == s.base.order;
    } else {
      assert Init(s'.turns) == s.turns;
      assert Last(s'.turns).commit ==> Init(s'.base.order) == s.base.order;
    }
  }

  lemma OrderMoves(s: State, a: Action)
    requires Inv(s) && CanDo(s, a)
    ensures Step(s, a).order ==
            if a.FlushLog? && s.log[s.flushed].Commit? then s.order + [Me(s, s.log[s.flushed].tx)] else s.order
  {
    if a.FlushLog? {
      DownCommitsNobody(s);
    } else if s.mode.Up? && !a.Crash? {
      StaysUp(s, a);
    } else {
      DownKeepsOrder(s, a);
    }
  }

  lemma DownCommitsNobody(s: State)
    requires CanDo(s, FlushLog)
    ensures Step(s, FlushLog).order ==
            if s.log[s.flushed].Commit? then s.order + [Me(s, s.log[s.flushed].tx)] else s.order
  {
  }

  lemma DownKeepsOrder(s: State, a: Action)
    requires CanDo(s, a) && !a.FlushLog? && (!s.mode.Up? || a.Crash?)
    ensures Step(s, a).order == s.order
  {
  }

  /** All steps but those on lengths. */
  lemma MachineStepKeeps(s: LenState, a: Action)
    requires Inv(s.base) && LenInv(s) && CanDo(s.base, a)
    ensures LenInv(LenStep(s, Base(a)))
  {
    var s' := LenStep(s, Base(a));
    TurnsAreNew(s, a);
    forall i
      ensures LenEventOk(s', i) && SizeOk(s', i)
    {
      StepEvent(s, a, i);
      if i < |s.hist| {
        OldSize(s, s', i);
      }
    }
    forall i, j
      ensures InOrder(s', i, j)
    {
      if j < |s.hist| {
        OldOrder(s, s', i, j);
      }
    }
    forall f
      ensures LenOf(s'.lens, f) == Appends(s'.hist, f)
    {
      if EventsOf(s.base, a) == [] {
        assert s'.hist == s.hist;
      } else {
        AppendsMore(s.hist, EventsOf(s.base, a)[0], f);
      }
    }
    forall n, u
      ensures TurnOk(s', n, u)
    {
      StepTurn(s, a, n, u);
    }
    forall m, n, u
      ensures OneTurn(s', m, n, u)
    {
      StepOneTurn(s, a, m, n, u);
    }
    forall t
      ensures SettledIff(s', t)
    {
      StepSettled(s, a, t);
    }
    StepCommits(s, a);
  }

  /** e has just happened under its lock. */
  ghost predicate LenOp(s: LenState, s': LenState, t: int, e: LenEvent) {
    && s.base.mode.Up? && IsActive(s.base, t) && IsLen(e) && e.who == Me(s.base, t) && LenCovered(s.base, e)
    && s' == s.(lens := s'.lens, hist := s.hist + [e])
    && (e.Size? ==> e.len == LenOf(s.lens, e.file))
    && forall f :: LenOf(s'.lens, f) == LenOf(s.lens, f) + if Grows(e, f) then 1 else 0
  }

  /** Whoever did something conflicting has let go since, and had its turn. */
  lemma NewInOrder(s: LenState, s': LenState, t: int, e: LenEvent, i: int)
    requires Inv(s.base) && LenInv(s) && LenOp(s, s', t, e)
    ensures InOrder(s', i, |s.hist|)
  {
    if 0 <= i < |s.hist| && LenConflict(s.hist[i], e) {
      var d := s.hist[i];
      assert LenEventOk(s, i) && SettledIff(s, t);
      if d.who.boot == s.base.boot && LenCovered(s.base, d) {
        Exclusion(s.base.locks, if d.Append? then Hold(d.who.tx, Dummy(d.file)) else Hold(t, Dummy(e.file)),
                  if d.Append? then Hold(t, Dummy(e.file)) else Hold(d.who.tx, Dummy(d.file)));
        assert false;
      }
      var k :| Gone(s.hist, i, k, d);
      GoneKept(s.hist, s'.hist, i, k);
      assert forall b :: !InTurn(s.turns, b, e.who);
    }
  }

  lemma LenOpKeeps(s: LenState, s': LenState, t: int, e: LenEvent)
    requires Inv(s.base) && LenInv(s) && LenOp(s, s', t, e)
    ensures LenInv(s')
  {
    forall i
      ensures LenEventOk(s', i) && SizeOk(s', i)
    {
      if i < |s.hist| {
        OldSize(s, s', i);
        if 0 <= i && IsLen(s.hist[i]) {
          assert LenEventOk(s, i);
          OldEvent(s, s', i);
        }
      } else if i == |s.hist| {
        assert s'.hist[..i] == s.hist;
        assert SettledIff(s, t);
      }
    }
    forall i, j
      ensures InOrder(s', i, j)
    {
      if j < |s.hist| {
        OldOrder(s, s', i, j);
      } else if j == |s.hist| {
        NewInOrder(s, s', t, e, i);
      }
    }
    forall f
      ensures LenOf(s'.lens, f) == Appends(s'.hist, f)
    {
      AppendsMore(s.hist, e, f);
    }
    forall n, u
      ensures TurnOk(s', n, u)
    {
      assert TurnOk(s, n, u);
    }
    forall m, n, u
      ensures OneTurn(s', m, n, u)
    {
      assert OneTurn(s, m, n, u);
    }
    forall u
      ensures SettledIff(s', u)
    {
      assert SettledIff(s, u);
    }
  }

  /** Every step of the machine with lengths. */
  lemma LenStepKeeps(s: LenState, a: LenAction)
    requires Inv(s.base) && ConflictInv(s.base) && LenInv(s) && LenMayDo(s, a)
    ensures Inv(LenStep(s, a).base) && ConflictInv(LenStep(s, a).base) && LenInv(LenStep(s, a))
  {
    match a
    case Base(b) =>
      StepKeeps(s.base, b);
      MachineStepKeeps(s, b);
    case GetSize(t, f) =>
      LenOpKeeps(s, LenStep(s, a), t, Size(Me(s.base, t), f, LenOf(s.lens, f)));
    case Extend(t, f) =>
      LenOpKeeps(s, LenStep(s, a), t, Append(Me(s.base, t), f));
  }

  lemma {:induction false} LenRunKeeps(s: LenState, run: seq<LenAction>)
    requires Inv(s.base) && ConflictInv(s.base) && LenInv(s) && LenExecute(s, run).Some?
    ensures Inv(LenExecute(s, run).value.base) && LenInv(LenExecute(s, run).value)
    decreases |run|
  {
    if run != [] {
      LenStepKeeps(s, run[0]);
      LenRunKeeps(LenStep(s, run[0]), run[1..]);
    }
  }

  lemma LenReachableInv(s: LenState)
    requires LenReachable(s)
    ensures Inv(s.base) && LenInv(s)
  {
    var run :| LenExecute(NoFiles, run) == Some(s);
    NewDatabaseInv();
    NoFilesInv();
    LenRunKeeps(NoFiles, run);
  }

  lemma NoFilesInv()
    ensures LenInv(NoFiles)
  {
  }

  // ---------- what every run keeps ----------

  /** Conflicting operations on a file's length follow lock-release order, and the turns agree with them. */
  lemma LengthConflicts(s: LenState, i: int, j: int)
    requires LenReachable(s) && 0 <= i < j < |s.hist| && LenConflict(s.hist[i], s.hist[j])
    ensures exists k :: i < k < j && (s.hist[k] == LetGo(s.hist[i].who, s.hist[i].file) || s.hist[k] == Lost)
    ensures TurnsOrdered(s.turns, s.hist[i].who, s.hist[j].who)
  {
    LenReachableInv(s);
    assert InOrder(s, i, j);
    var k :| k < j && Gone(s.hist, i, k, s.hist[i]);
    assert i < k < j && (s.hist[k] == LetGo(s.hist[i].who, s.hist[i].file) || s.hist[k] == Lost);
  }

  lemma {:induction false} BeforeAre(turns: seq<Turn>, n: nat, u: Uid)
    requires n <= |turns|
    ensures u in Before(turns, n) <==> exists a :: a < n && InTurn(turns, a, u)
    decreases n
  {
    if n > 0 {
      BeforeAre(turns, n - 1, u);
      if u in turns[n - 1].us {
        assert InTurn(turns, n - 1, u);
      }
    }
  }

  /** An append counts for the transaction whose turn is a, or for one before it, just if it came before the size was read. */
  lemma CountsRight(s: LenState, i: int, a: int, j: int)
    requires LenInv(s) && 0 <= i < |s.hist| && s.hist[i].Size? && InTurn(s.turns, a, s.hist[i].who)
    requires 0 <= j < |s.hist| && Grows(s.hist[j], s.hist[i].file)
    ensures s.hist[j].who == s.hist[i].who ==> s.hist[j].who !in Before(s.turns, a)
    ensures s.hist[j].who != s.hist[i].who ==> (s.hist[j].who in Before(s.turns, a) <==> j < i)
  {
    var u, w := s.hist[i].who, s.hist[j].who;
    BeforeAre(s.turns, a, w);
    if w == u {
      forall b
        ensures !(b < a && InTurn(s.turns, b, w))
      {
        assert OneTurn(s, a, b, u);
      }
    } else if j < i {
      assert InOrder(s, j, i);
      var b :| InTurn(s.turns, b, w);
      assert b < a;
    } else {
      assert InOrder(s, i, j);
    }
  }

  function Least(a: int, b: int): int {
    if a < b then a else b
  }

  lemma {:induction false} CountsUpTo(s: LenState, i: int, a: int, n: nat)
    requires LenInv(s) && 0 <= i < |s.hist| && s.hist[i].Size? && InTurn(s.turns, a, s.hist[i].who) && n <= |s.hist|
    ensures
      var f, m := s.hist[i].file, Least(n, i);
      AppendsBy(s.hist[..n], Before(s.turns, a), f) + AppendsBy(s.hist[..m], {s.hist[i].who}, f) == Appends(s.hist[..m], f)
    decreases n
  {
    if n > 0 {
      CountsUpTo(s, i, a, n - 1);
      var j := n - 1;
      assert Init(s.hist[..n]) == s.hist[..j] && Last(s.hist[..n]) == s.hist[j];
      if Grows(s.hist[j], s.hist[i].file) {
        CountsRight(s, i, a, j);
      }
    }
  }

  /**
   The turns are a serial order: every size a transaction read is what the transactions with
   earlier turns, whether they committed or not, and its own earlier appends add up to. The
   committed ones among them have the order in which the machine below is serializable.
   */
  lemma LengthsSerializable(s: LenState, i: int, a: int)
    requires LenReachable(s) && 0 <= i < |s.hist| && s.hist[i].Size? && InTurn(s.turns, a, s.hist[i].who)
    ensures
      var e := s.hist[i];
      e.len == AppendsBy(s.hist, Before(s.turns, a), e.file) + AppendsBy(s.hist[..i], {e.who}, e.file)
    ensures SameCommits(s.turns, s.base.order)
  {
    LenReachableInv(s);
    CountsUpTo(s, i, a, |s.hist|);
    assert s.hist[..|s.hist|] == s.hist && SizeOk(s, i);
  }

  /** The machine below goes through the runs it went through without lengths. */
  lemma {:induction false} BaseRuns(s: LenState, run: seq<LenAction>) returns (base: seq<Action>)
    requires LenExecute(s, run).Some?
    ensures Execute(s.base, base) == Some(LenExecute(s, run).value.base)
    decreases |run|
  {
    if run == [] {
      base := [];
    } else {
      var rest := BaseRuns(LenStep(s, run[0]), run[1..]);
      if run[0].Base? {
        base := [run[0].a] + rest;
        assert base[1..] == rest;
      } else {
        base := rest;
      }
    }
  }

  /** Data and lengths together: one order of the committed transactions serves both. */
  lemma BothSerializable(s: LenState)
    requires LenReachable(s)
    ensures Reachable(s.base) && Serial(s.base.hist, s.base.order).Some? && SameCommits(s.turns, s.base.order)
  {
    var run :| LenExecute(NoFiles, run) == Some(s);
    var base := BaseRuns(NoFiles, run);
    Serializable(s.base);
    LenReachableInv(s);
  }

  // ---------- transactions that did not commit ----------

  /** The committed transactions among the first n turns. */
  function Committers(turns: seq<Turn>, n: nat): set<Uid>
    requires n <= |turns|
  {
    if n == 0 then {} else Committers(turns, n - 1) + if turns[n - 1].commit then turns[n - 1].us else {}
  }

  lemma {:induction false} CommittersBefore(turns: seq<Turn>, n: nat)
    requires n <= |turns|
    ensures Committers(turns, n) <= Before(turns, n)
    decreases n
  {
    if n > 0 {
      CommittersBefore(turns, n - 1);
    }
  }

  ghost predicate LeftBehind(hist: seq<LenEvent>, all: set<Uid>, some: set<Uid>, f: string, j: int) {
    0 <= j < |hist| && Grows(hist[j], f) && hist[j].who in all && hist[j].who !in some
  }

  lemma {:induction false} FewerCount(hist: seq<LenEvent>, all: set<Uid>, some: set<Uid>, f: string)
    requires some <= all
    ensures AppendsBy(hist, some, f) <= AppendsBy(hist, all, f)
    ensures AppendsBy(hist, some, f) == AppendsBy(hist, all, f) <==> forall j :: !LeftBehind(hist, all, some, f, j)
    decreases |hist|
  {
    if hist != [] {
      FewerCount(Init(hist), all, some, f);
      assert forall j :: 0 <= j < |hist| - 1 ==> LeftBehind(Init(hist), all, some, f, j) == LeftBehind(hist, all, some, f, j);
      assert LeftBehind(hist, all, some, f, |hist| - 1) <==> Grows(Last(hist), f) && Last(hist).who in all && Last(hist).who !in some;
    }
  }

  /**
   Replaying the committed transactions alone gives a size that was read exactly when no transaction
   with an earlier turn that did not commit has made the file longer.
   */
  lemma CommittedSizes(s: LenState, i: int, a: int)
    requires LenReachable(s) && 0 <= i < |s.hist| && s.hist[i].Size? && InTurn(s.turns, a, s.hist[i].who)
    ensures
      var e := s.hist[i];
      e.len == AppendsBy(s.hist, Committers(s.turns, a), e.file) + AppendsBy(s.hist[..i], {e.who}, e.file) <==>
      forall j :: !LeftBehind(s.hist, Before(s.turns, a), Committers(s.turns, a), e.file, j)
  {
    LengthsSerializable(s, i, a);
    CommittersBefore(s.turns, a);
    FewerCount(s.hist, Before(s.turns, a), Committers(s.turns, a), s.hist[i].file);
  }
}
