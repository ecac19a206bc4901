/**
 The transaction layer as one step machine: any number of transactions lock, read, write,
 commit and roll back in any interleaving while pages and log records reach the disk at any
 time, and a crash may strike between any two steps, also inside recovery.

 Writes go to the cached page itself, the buffer's log sequence number is kept when a write
 is not logged, and flushing the log to a number makes every record up to it durable; these
 are the intended forms of transaction.cpp:66-67, buffer.h:85 and log_mgr.h:65. A log
 sequence number is a position in the log: the counter that restarts at every boot only
 ever numbers records of that boot.

 flush_all is taken frame by frame, with other steps in between; as buffer.h:113 lowers a mark by
 one when its frame is written, another transaction's flush may leave new marks behind it. A write
 is three steps: log record, page and mark. The source holds no mutex across them, so that another
 transaction's flush_all may write the page out before it is marked with the number of its log
 record. TooEarly says when that is one page write too early.
 */
module TxMachine {
  import opened DbTypes
  import opened Locks
  import opened Recovery

  /** A transaction number is used again after a crash; with the boot it is unique. */
  datatype Uid = Uid(boot: nat, tx: int)

  datatype Op = Read(loc: Loc, val: Value) | Write(loc: Loc, val: Value)

  datatype Event =
    | Did(who: Uid, op: Op)
    | Released(who: Uid, blk: Block)
    | Crashed

  datatype Frame = Frame(page: Page, tx: int, lsn: int)

  datatype Phase =
    | Active
    | Logged(loc: Loc, val: Value, lsn: nat)  // the log record of a write has been appended,
    | Changed(loc: Loc, lsn: nat)       // and the page has been changed; its frame is still to be marked
    | Undoing(pos: nat)                 // do_rollback has looked at the log from pos on
    | Undone
    | Flushing(todo: set<Block>, commit: bool)  // flush_all has still to look at these frames
    | Ending(lsn: nat, commit: bool)    // the commit or rollback record has been appended

  datatype Tx = Tx(start: nat, phase: Phase)

  datatype Mode =
    | Up
    | Down
    | Recovering(pos: nat, finished: set<int>, start: nat)
    | Recovered(start: nat)
    | RecFlushing(todo: set<Block>, start: nat)
    | Checkpointing(lsn: nat, start: nat)

  /** The last three components only record the run: they steer no step. */
  datatype StateRep = State(
    mode: Mode,
    boot: nat,
    nextTx: int,
    log: seq<Rec>,
    flushed: nat,             // how many log records are durable
    disk: Disk,
    cache: map<Block, Frame>,
    txs: map<int, Tx>,
    locks: LockState,
    hist: seq<Event>,
    order: seq<Uid>,          // committed transactions, as their commit records became durable
    db: Store)                // their writes applied in that order

  /** The durable records are a prefix of the log. */
  type State = s: StateRep | s.flushed <= |s.log|
    witness State(Down, 0, 0, [], 0, map[], map[], map[], NoLocks, [], [], map[])

  const NewDatabase: State := State(Down, 0, 0, [], 0, map[], map[], map[], NoLocks, [], [], map[])

  // ---------- replaying operations ----------

  /** u's operations, in the order of the run. */
  function Ops(hist: seq<Event>, u: Uid): seq<Op> {
    if hist == [] then []
    else
      var rest := Ops(Init(hist), u);
      if Last(hist).Did? && Last(hist).who == u then rest + [Last(hist).op] else rest
  }

  function ApplyWrites(ops: seq<Op>, st: Store): Store {
    if ops == [] then st
    else
      var before := ApplyWrites(Init(ops), st);
      if Last(ops).Write? then before[Last(ops).loc := Last(ops).val] else before
  }

  /** Executed alone from st, every read in ops returns the value it returned in the run. */
  ghost predicate ReadsFit(ops: seq<Op>, st: Store) {
    ops != [] ==>
      && ReadsFit(Init(ops), st)
      && (Last(ops).Read? ==> Get(ApplyWrites(Init(ops), st), Last(ops).loc) == Last(ops).val)
  }

  /**
   The store after executing the transactions of order one after another on an empty
   database, or None when some read would return something else than it did in the run.
   */
  ghost function Serial(hist: seq<Event>, order: seq<Uid>): Option<Store> {
    if order == [] then Some(map[])
    else match Serial(hist, Init(order))
      case None => None
      case Some(st) =>
        var ops := Ops(hist, Last(order));
        if ReadsFit(ops, st) then Some(ApplyWrites(ops, st)) else None
  }

  /** The value of the last write at l in the run by a transaction in done. */
  function LastCommitted(hist: seq<Event>, done: seq<Uid>, l: Loc): Value {
    if hist == [] then Zero
    else
      var e := Last(hist);
      if e.Did? && e.op.Write? && e.op.loc == l && e.who in done then e.op.val
      else LastCommitted(Init(hist), done, l)
  }

  // ---------- observers ----------

  function CurIn(cache: map<Block, Frame>, disk: Disk, l: Loc): Value {
    if l.blk in cache then At(cache[l.blk].page, l.off) else OnDisk(disk, l)
  }

  /** The value a transaction sees at l: the cached page, else the disk. */
  function Cur(s: State, l: Loc): Value {
    CurIn(s.cache, s.disk, l)
  }

  predicate HasLock(s: State, t: int, b: Block) {
    Hold(t, b) in s.locks.held
  }

  predicate HasX(s: State, t: int, b: Block) {
    Hold(t, b) in s.locks.held && s.locks.held[Hold(t, b)] == X
  }

  predicate IsActive(s: State, t: int) {
    t in s.txs && s.txs[t].phase.Active?
  }

  /** The transaction has ended as far as a crash is concerned. */
  predicate EndDurable(s: State, t: int)
    requires t in s.txs
  {
    s.txs[t].phase.Ending? && s.txs[t].phase.lsn <= s.flushed
  }

  /** A frame of b marked by t: flush_all(t) writes it. */
  predicate Marked(s: State, t: int, b: Block) {
    b in s.cache && s.cache[b].tx == t
  }

  /** t is in the middle of a write to b, and has b pinned. */
  predicate Busy(s: State, t: int, b: Block) {
    t in s.txs && (s.txs[t].phase.Logged? || s.txs[t].phase.Changed?) && s.txs[t].phase.loc.blk == b
  }

  /** t has changed page b, and not marked it yet. */
  predicate Changing(s: State, t: int, b: Block) {
    t in s.txs && s.txs[t].phase.Changed? && s.txs[t].phase.loc.blk == b
  }

  ghost predicate BetweenCalls(s: State, t: int) {
    forall h :: h in s.locks.halfway ==> h.tx != t
  }

  function PutPage(f: Frame, off: int, v: Value): Page {
    f.page[off := v]
  }

  // ---------- the steps ----------

  datatype Action =
    | Begin
    | Lock(a: LockAction)
    | DoRead(tx: int, loc: Loc)
    | LogWrite(tx: int, loc: Loc, val: Value)
    | ChangePage(tx: int)
    | MarkPage(tx: int)
    | StartFlush(tx: int)
    | FlushNext(tx: int, blk: Block)
    | AppendCommit(tx: int)
    | StartRollback(tx: int)
    | UndoOne(tx: int)
    | AppendRollback(tx: int)
    | Release(tx: int, blk: Block)
    | End(tx: int)
    | Load(blk: Block, mark: int, lsn: int)  // mark and lsn are left over in the frame
    | FlushPage(blk: Block)
    | Evict(blk: Block)
    | FlushLog
    | Crash
    | Boot
    | RecoverOne
    | StartRecFlush
    | RecFlushNext(blk: Block)
    | AppendCheckpoint
    | OpenUp

  /** The record a backward walk at pos looks at next. */
  function NextRec(s: State, pos: nat): Rec
    requires 0 < pos <= |s.log|
  {
    s.log[pos - 1]
  }

  ghost predicate CanDo(s: State, a: Action) {
    match a
    case Begin => s.mode.Up?
    case Lock(la) => s.mode.Up? && IsActive(s, la.tx) && !la.Unlock? && Enabled(s.locks, la)
    case DoRead(t, l) => s.mode.Up? && IsActive(s, t) && HasLock(s, t, l.blk) && l.blk in s.cache
    case LogWrite(t, l, _) =>
      s.mode.Up? && IsActive(s, t) && BetweenCalls(s, t) && HasX(s, t, l.blk) && l.blk in s.cache
    case ChangePage(t) => s.mode.Up? && t in s.txs && s.txs[t].phase.Logged? && s.txs[t].phase.loc.blk in s.cache
    case MarkPage(t) => s.mode.Up? && t in s.txs && s.txs[t].phase.Changed? && s.txs[t].phase.loc.blk in s.cache
    case StartFlush(t) =>
      s.mode.Up? && t in s.txs && BetweenCalls(s, t) && (s.txs[t].phase.Active? || s.txs[t].phase.Undone?)
    case FlushNext(t, b) =>
      && s.mode.Up? && t in s.txs && s.txs[t].phase.Flushing? && b in s.txs[t].phase.todo
      && (Marked(s, t, b) ==> s.cache[b].lsn <= s.flushed)
    case AppendCommit(t) => s.mode.Up? && t in s.txs && s.txs[t].phase == Flushing({}, true)
    case StartRollback(t) => s.mode.Up? && IsActive(s, t) && BetweenCalls(s, t)
    case UndoOne(t) =>
      && s.mode.Up? && t in s.txs && s.txs[t].phase.Undoing? && 0 < s.txs[t].phase.pos <= |s.log|
      && var r := NextRec(s, s.txs[t].phase.pos);
      (r.SetVal? && r.tx == t ==> r.loc.blk in s.cache)
    case AppendRollback(t) => s.mode.Up? && t in s.txs && s.txs[t].phase == Flushing({}, false)
    case Release(t, b) => s.mode.Up? && t in s.txs && EndDurable(s, t) && HasLock(s, t, b)
    case End(t) =>
      && s.mode.Up? && t in s.txs && EndDurable(s, t)
      && (forall h :: h in s.locks.held || h in s.locks.halfway ==> h.tx != t)
    case Load(b, _, lsn) => !s.mode.Down? && b !in s.cache && lsn <= |s.log|
    case FlushPage(b) => b in s.cache && s.cache[b].tx >= 0 && s.cache[b].lsn <= s.flushed
    case Evict(b) =>
      b in s.cache && (s.cache[b].tx >= 0 ==> s.cache[b].lsn <= s.flushed) && (forall t :: !Busy(s, t, b))
    case FlushLog => s.flushed < |s.log|
    case Crash => true
    case Boot => s.mode.Down?
    case RecoverOne =>
      && s.mode.Recovering? && s.mode.pos <= |s.log|
      && (s.mode.pos > 0 ==>
            var r := NextRec(s, s.mode.pos);
            r.SetVal? && r.tx !in s.mode.finished ==> r.loc.blk in s.cache)
    case StartRecFlush => s.mode.Recovered?
    case RecFlushNext(b) =>
      s.mode.RecFlushing? && b in s.mode.todo && (Marked(s, 1, b) ==> s.cache[b].lsn <= s.flushed)
    case AppendCheckpoint => s.mode.RecFlushing? && s.mode.todo == {}
    case OpenUp => s.mode.Checkpointing? && s.mode.lsn <= s.flushed
  }

  function Undo(s: State, r: Rec, mark: int): State
    requires r.SetVal? && r.loc.blk in s.cache
  {
    var f := s.cache[r.loc.blk];
    s.(cache := s.cache[r.loc.blk := Frame(PutPage(f, r.loc.off, r.was), mark, f.lsn)])
  }

  function UndoStep(s: State, t: int): State
    requires CanDo(s, UndoOne(t))
  {
    var tx := s.txs[t];
    var r := NextRec(s, tx.phase.pos);
    if r == Start(t) then s.(txs := s.txs[t := tx.(phase := Undone)])
    else
      var s' := if r.SetVal? && r.tx == t then Undo(s, r, t) else s;
      s'.(txs := s.txs[t := tx.(phase := Undoing(tx.phase.pos - 1))])
  }

  function RecoverStep(s: State): State
    requires CanDo(s, RecoverOne)
  {
    if s.mode.pos == 0 || NextRec(s, s.mode.pos).Checkpoint? then s.(mode := Recovered(s.mode.start))
    else
      var r := NextRec(s, s.mode.pos);
      var mode' := s.mode.(pos := s.mode.pos - 1);
      if r.Commit? || r.Rollback? then s.(mode := mode'.(finished := mode'.finished + {r.tx}))
      else if r.SetVal? && r.tx !in s.mode.finished then Undo(s, r, 1).(mode := mode')
      else s.(mode := mode')
  }

  function LogWriteStep(s: State, t: int, l: Loc, v: Value): State
    requires CanDo(s, LogWrite(t, l, v))
  {
    var log' := s.log + [SetVal(t, l, Cur(s, l))];
    s.(log := log', txs := s.txs[t := s.txs[t].(phase := Logged(l, v, |log'|))])
  }

  function ChangePageStep(s: State, t: int): State
    requires CanDo(s, ChangePage(t))
  {
    var ph := s.txs[t].phase;
    var f := s.cache[ph.loc.blk];
    s.(cache := s.cache[ph.loc.blk := f.(page := PutPage(f, ph.loc.off, ph.val))],
       txs := s.txs[t := s.txs[t].(phase := Changed(ph.loc, ph.lsn))],
       hist := s.hist + [Did(Uid(s.boot, t), Write(ph.loc, ph.val))])
  }

  function MarkPageStep(s: State, t: int): State
    requires CanDo(s, MarkPage(t))
  {
    var ph := s.txs[t].phase;
    s.(cache := s.cache[ph.loc.blk := s.cache[ph.loc.blk].(tx := t, lsn := ph.lsn)],
       txs := s.txs[t := s.txs[t].(phase := Active)])
  }

  /** Write the frame if it is marked; the mark drops by one as buffer.h:113 has it. */
  function FlushFrame(s: State, b: Block): State
    requires b in s.cache
  {
    var f := s.cache[b];
    if f.tx >= 0
    then s.(disk := s.disk[b := f.page], cache := s.cache[b := f.(tx := f.tx - 1)])
    else s
  }

  /** One turn of the loop in flush_all(t): the frame is written if t has marked it. */
  function FlushMarked(s: State, t: int, b: Block): State {
    if Marked(s, t, b) then FlushFrame(s, b) else s
  }

  function FlushNextStep(s: State, t: int, b: Block): State
    requires CanDo(s, FlushNext(t, b))
  {
    var ph := s.txs[t].phase;
    FlushMarked(s, t, b).(txs := s.txs[t := s.txs[t].(phase := ph.(todo := ph.todo - {b}))])
  }

  /** The next log record becomes durable; for a commit record, so does its transaction. */
  function FlushLogStep(s: State): State
    requires CanDo(s, FlushLog)
  {
    var r := s.log[s.flushed];
    if r.Commit? then
      var u := Uid(s.boot, r.tx);
      s.(flushed := s.flushed + 1, order := s.order + [u], db := ApplyWrites(Ops(s.hist, u), s.db))
    else
      s.(flushed := s.flushed + 1)
  }

  /** All that is volatile is lost: pages in buffers, the log suffix, locks, transactions. */
  function CrashStep(s: State): State {
    s.(mode := Down, boot := s.boot + 1, nextTx := 0, log := s.log[..s.flushed],
       cache := map[], txs := map[], locks := NoLocks, hist := s.hist + [Crashed])
  }

  function Step(s: State, a: Action): State
    requires CanDo(s, a)
  {
    match a
    case Begin =>
      var t := s.nextTx + 1;
      s.(nextTx := t, log := s.log + [Start(t)], txs := s.txs[t := Tx(|s.log|, Active)])
    case Lock(la) => s.(locks := Locks.Do(s.locks, la))
    case DoRead(t, l) => s.(hist := s.hist + [Did(Uid(s.boot, t), Read(l, Cur(s, l)))])
    case LogWrite(t, l, v) => LogWriteStep(s, t, l, v)
    case ChangePage(t) => ChangePageStep(s, t)
    case MarkPage(t) => MarkPageStep(s, t)
    case StartFlush(t) =>
      s.(txs := s.txs[t := s.txs[t].(phase := Flushing(s.cache.Keys, s.txs[t].phase.Active?))])
    case FlushNext(t, b) => FlushNextStep(s, t, b)
    case AppendCommit(t) =>
      s.(log := s.log + [Commit(t)], txs := s.txs[t := s.txs[t].(phase := Ending(|s.log| + 1, true))])
    case StartRollback(t) => s.(txs := s.txs[t := s.txs[t].(phase := Undoing(|s.log|))])
    case UndoOne(t) => UndoStep(s, t)
    case AppendRollback(t) =>
      s.(log := s.log + [Rollback(t)], txs := s.txs[t := s.txs[t].(phase := Ending(|s.log| + 1, false))])
    case Release(t, b) =>
      s.(locks := Locks.Do(s.locks, Unlock(t, b)), hist := s.hist + [Released(Uid(s.boot, t), b)])
    case End(t) => s.(txs := s.txs - {t})
    case Load(b, mark, lsn) => s.(cache := s.cache[b := Frame(PageOf(s.disk, b), mark, lsn)])
    case FlushPage(b) => FlushFrame(s, b)
    case Evict(b) => var s' := FlushFrame(s, b); s'.(cache := s'.cache - {b})
    case FlushLog => FlushLogStep(s)
    case Crash => CrashStep(s)
    case Boot =>
      s.(nextTx := 1, log := s.log + [Start(1)], mode := Recovering(|s.log| + 1, {}, |s.log|))
    case RecoverOne => RecoverStep(s)
    case StartRecFlush => s.(mode := RecFlushing(s.cache.Keys, s.mode.start))
    case RecFlushNext(b) => FlushMarked(s, 1, b).(mode := s.mode.(todo := s.mode.todo - {b}))
    case AppendCheckpoint =>
      s.(log := s.log + [Checkpoint], mode := Checkpointing(|s.log| + 1, s.mode.start))
    case OpenUp => s.(mode := Up, txs := map[1 := Tx(s.mode.start, Active)])
  }

  // ---------- pages written too early ----------

  /** The page a step writes to the disk while the machine is up. */
  function PageOut(s: State, a: Action): Option<Block> {
    match a
    case FlushPage(b) => Some(b)
    case FlushNext(t, b) => if Marked(s, t, b) then Some(b) else None
    case _ => None
  }

  /** t's new value is not what is committed there, and no durable record says how to undo it. */
  ghost predicate Exposed(s: State, t: int)
    requires t in s.txs && s.txs[t].phase.Changed?
  {
    var l := s.txs[t].phase.loc;
    && Cur(s, l) != Get(s.db, l)
    && forall i :: s.txs[t].start < i < s.flushed ==> !(IsSet(s.log[i], l) && s.log[i].tx == t)
  }

  /** The step writes a page out between its change and its mark, and the change is exposed. */
  ghost predicate TooEarly(s: State, a: Action) {
    PageOut(s, a).Some? && exists t :: Changing(s, t, PageOut(s, a).value) && Exposed(s, t)
  }

  ghost predicate MayDo(s: State, a: Action) {
    CanDo(s, a) && !TooEarly(s, a)
  }

  /** Executing actions from s, or None when one of them is not possible or writes a page too early. */
  ghost function Execute(s: State, actions: seq<Action>): Option<State>
    decreases |actions|
  {
    if actions == [] then Some(s)
    else if MayDo(s, actions[0]) then Execute(Step(s, actions[0]), actions[1..])
    else None
  }
}
