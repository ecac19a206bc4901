/**
 The shared lock table and the per-transaction lock maps, as one step machine and as the
 two classes whose methods take its steps.

 A lock request that would have to wait either succeeds once it is enabled or aborts; the
 wall clock is not modelled. Each mutex-protected call is one atomic step, so an exclusive
 request by a transaction that records nothing takes two steps: a shared lock in the table,
 then the upgrade. If the upgrade aborts, the shared lock just taken stays in the table
 although no transaction records it; the machine keeps these in `stranded`.
 */
module Locks {
  import opened DbTypes

  datatype Kind = S | X

  datatype Hold = Hold(tx: int, blk: Block)

  type Table = map<Block, int>

  datatype LockState = LockState(
    table: Table,
    held: map<Hold, Kind>,      // what the transactions record
    halfway: set<Hold>,           // unrecorded shared locks of upgrades in progress
    stranded: multiset<Block>)  // unrecorded shared locks left by aborted upgrades

  const NoLocks := LockState(map[], map[], {}, multiset{})

  // ---------- lock_table ----------

  function ValueOf(table: Table, b: Block): int {
    if b in table then table[b] else 0
  }

  /** The table after a shared request, or None when an exclusive lock makes it abort. */
  function TableSLock(table: Table, b: Block): Option<Table> {
    if ValueOf(table, b) < 0 then None else Some(table[b := ValueOf(table, b) + 1])
  }

  /** The table after an upgrade, or None when other shared locks make it abort. */
  function TableXLock(table: Table, b: Block): Option<Table> {
    if ValueOf(table, b) > 1 then None else Some(table[b := -1])
  }

  function TableUnlock(table: Table, b: Block): Table {
    if ValueOf(table, b) > 1 then table[b := ValueOf(table, b) - 1] else table - {b}
  }

  // ---------- the step machine ----------

  datatype LockAction =
    | Share(tx: int, blk: Block)         // s_lock, block not yet recorded
    | Reserve(tx: int, blk: Block)       // first half of x_lock, block not yet recorded
    | Upgrade(tx: int, blk: Block)       // second half of x_lock
    | AbortUpgrade(tx: int, blk: Block)  // second half of x_lock throws
    | Unlock(tx: int, blk: Block)        // one turn of the loop in release

  predicate Enabled(ls: LockState, a: LockAction) {
    var h := Hold(a.tx, a.blk);
    match a
    case Share(_, b) => h !in ls.held && h !in ls.halfway && TableSLock(ls.table, b).Some?
    case Reserve(_, b) => h !in ls.held && h !in ls.halfway && TableSLock(ls.table, b).Some?
    case Upgrade(_, b) => CanUpgrade(ls, h) && TableXLock(ls.table, b).Some?
    case AbortUpgrade(_, b) => CanUpgrade(ls, h) && TableXLock(ls.table, b).None?
    case Unlock(_, b) => h in ls.held
  }

  /** The transaction is between the two halves of x_lock, or may start the second one. */
  predicate CanUpgrade(ls: LockState, h: Hold) {
    h in ls.halfway || (h in ls.held && ls.held[h] == S)
  }

  function Do(ls: LockState, a: LockAction): LockState
    requires Enabled(ls, a)
  {
    var h := Hold(a.tx, a.blk);
    match a
    case Share(_, b) => ls.(table := TableSLock(ls.table, b).value, held := ls.held[h := S])
    case Reserve(_, b) => ls.(table := TableSLock(ls.table, b).value, halfway := ls.halfway + {h})
    case Upgrade(_, b) =>
      ls.(table := TableXLock(ls.table, b).value, held := ls.held[h := X], halfway := ls.halfway - {h})
    case AbortUpgrade(_, b) =>
      if h in ls.halfway
      then ls.(halfway := ls.halfway - {h}, stranded := ls.stranded + multiset{b})
      else ls
    case Unlock(_, b) => ls.(table := TableUnlock(ls.table, b), held := ls.held - {h})
  }

  function Run(ls: LockState, actions: seq<LockAction>): Option<LockState>
    decreases |actions|
  {
    if actions == [] then Some(ls)
    else if !Enabled(ls, actions[0]) then None
    else Run(Do(ls, actions[0]), actions[1..])
  }

  // ---------- what every reachable state keeps ----------

  function Holders(ls: LockState, b: Block, k: Kind): set<Hold> {
    set h | h in ls.held && h.blk == b && ls.held[h] == k
  }

  function Pending(ls: LockState, b: Block): set<Hold> {
    set h | h in ls.halfway && h.blk == b
  }

  /** How many shared locks on b somebody has taken and not given back. */
  function SharedCount(ls: LockState, b: Block): nat {
    |Holders(ls, b, S)| + |Pending(ls, b)| + ls.stranded[b]
  }

  ghost predicate BlockInv(ls: LockState, b: Block) {
    && (b in ls.table ==> ls.table[b] == -1 || ls.table[b] > 0)
    && (ValueOf(ls.table, b) == -1 ==> |Holders(ls, b, X)| == 1 && SharedCount(ls, b) == 0)
    && (ValueOf(ls.table, b) >= 0 ==>
          Holders(ls, b, X) == {} && SharedCount(ls, b) == ValueOf(ls.table, b))
  }

  ghost predicate LockInv(ls: LockState) {
    && (forall b :: BlockInv(ls, b))
    && (forall h :: h in ls.halfway ==> h !in ls.held)
  }

  lemma NoLocksInv()
    ensures LockInv(NoLocks)
  {
    forall b
      ensures BlockInv(NoLocks, b)
    {
      assert Holders(NoLocks, b, S) == {} && Holders(NoLocks, b, X) == {} && Pending(NoLocks, b) == {};
    }
  }

  /** A step on one block changes nothing about another. */
  lemma OtherBlockInv(ls: LockState, a: LockAction, b: Block)
    requires LockInv(ls) && Enabled(ls, a) && b != a.blk
    ensures BlockInv(Do(ls, a), b)
  {
    var ls' := Do(ls, a);
    assert BlockInv(ls, b);
    assert Holders(ls', b, S) == Holders(ls, b, S);
    assert Holders(ls', b, X) == Holders(ls, b, X);
    assert Pending(ls', b) == Pending(ls, b);
  }

  lemma SharedStepInv(ls: LockState, a: LockAction)
    requires LockInv(ls) && Enabled(ls, a) && (a.Share? || a.Reserve?)
    ensures BlockInv(Do(ls, a), a.blk)
  {
    assert BlockInv(ls, a.blk);
    if a.Share? {
      ShareInv(ls, a);
    } else {
      ReserveInv(ls, a);
    }
  }

  lemma ShareInv(ls: LockState, a: LockAction)
    requires LockInv(ls) && BlockInv(ls, a.blk) && Enabled(ls, a) && a.Share?
    ensures BlockInv(Do(ls, a), a.blk)
  {
    var ls', b, h := Do(ls, a), a.blk, Hold(a.tx, a.blk);
    assert Holders(ls', b, X) == Holders(ls, b, X);
    assert Holders(ls', b, S) == Holders(ls, b, S) + {h};
    assert Pending(ls', b) == Pending(ls, b);
  }

  lemma ReserveInv(ls: LockState, a: LockAction)
    requires LockInv(ls) && BlockInv(ls, a.blk) && Enabled(ls, a) && a.Reserve?
    ensures BlockInv(Do(ls, a), a.blk)
  {
    var ls', b, h := Do(ls, a), a.blk, Hold(a.tx, a.blk);
    assert Holders(ls', b, X) == Holders(ls, b, X);
    assert Holders(ls', b, S) == Holders(ls, b, S);
    assert Pending(ls', b) == Pending(ls, b) + {h};
  }

  lemma UpgradeInv(ls: LockState, a: LockAction)
    requires LockInv(ls) && Enabled(ls, a) && a.Upgrade?
    ensures BlockInv(Do(ls, a), a.blk)
  {
    var ls', b, h := Do(ls, a), a.blk, Hold(a.tx, a.blk);
    OneShared(ls, h);
    assert forall g :: g in Holders(ls', b, X) ==> g in Holders(ls, b, X) || g == h;
    assert Holders(ls', b, X) == {h};
    assert forall g :: g in Holders(ls', b, S) ==> g in Holders(ls, b, S) && g != h;
    assert Holders(ls', b, S) == {};
    assert forall g :: g in Pending(ls', b) ==> g in Pending(ls, b) && g != h;
    assert Pending(ls', b) == {};
  }

  lemma AbortUpgradeInv(ls: LockState, a: LockAction)
    requires LockInv(ls) && Enabled(ls, a) && a.AbortUpgrade?
    ensures BlockInv(Do(ls, a), a.blk)
  {
    var ls', b, h := Do(ls, a), a.blk, Hold(a.tx, a.blk);
    assert BlockInv(ls, b);
    assert Holders(ls', b, S) == Holders(ls, b, S);
    assert Holders(ls', b, X) == Holders(ls, b, X);
    if h in ls.halfway {
      assert h in Pending(ls, b);
      assert Pending(ls', b) == Pending(ls, b) - {h};
    }
  }

  lemma UnlockInv(ls: LockState, a: LockAction)
    requires LockInv(ls) && Enabled(ls, a) && a.Unlock?
    ensures BlockInv(Do(ls, a), a.blk)
  {
    var ls', b, h := Do(ls, a), a.blk, Hold(a.tx, a.blk);
    assert BlockInv(ls, b);
    assert Pending(ls', b) == Pending(ls, b);
    assert Holders(ls', b, S) == Holders(ls, b, S) - {h};
    assert Holders(ls', b, X) == Holders(ls, b, X) - {h};
    if ls.held[h] == X {
      SoleExclusive(ls, h);
    } else {
      assert h in Holders(ls, b, S);
    }
  }

  lemma OwnBlockInv(ls: LockState, a: LockAction)
    requires LockInv(ls) && Enabled(ls, a)
    ensures BlockInv(Do(ls, a), a.blk)
  {
    match a {
      case Share(_, _) => SharedStepInv(ls, a);
      case Reserve(_, _) => SharedStepInv(ls, a);
      case Upgrade(_, _) => UpgradeInv(ls, a);
      case AbortUpgrade(_, _) => AbortUpgradeInv(ls, a);
      case Unlock(_, _) => UnlockInv(ls, a);
    }
  }

  /** The transaction that may upgrade at value at most 1 is the only shared holder. */
  lemma OneShared(ls: LockState, h: Hold)
    requires LockInv(ls) && CanUpgrade(ls, h) && ValueOf(ls.table, h.blk) <= 1
    ensures ValueOf(ls.table, h.blk) == 1 && ls.stranded[h.blk] == 0 && Holders(ls, h.blk, X) == {}
    ensures Holders(ls, h.blk, S) + Pending(ls, h.blk) == {h}
  {
    var b := h.blk;
    assert BlockInv(ls, b);
    var hs, ps := Holders(ls, b, S), Pending(ls, b);
    if h in ls.halfway {
      assert h in ps;
      assert |ps - {h}| == |ps| - 1;
    } else {
      assert h in hs;
      assert |hs - {h}| == |hs| - 1;
    }
    assert |hs| + |ps| == 1;
  }

  lemma SoleExclusive(ls: LockState, h: Hold)
    requires LockInv(ls) && h in ls.held && ls.held[h] == X
    ensures ValueOf(ls.table, h.blk) == -1 && Holders(ls, h.blk, X) == {h}
    ensures Holders(ls, h.blk, S) == {} && Pending(ls, h.blk) == {} && ls.stranded[h.blk] == 0
  {
    assert BlockInv(ls, h.blk);
    var xs := Holders(ls, h.blk, X);
    assert h in xs;
    assert |xs - {h}| == 0;
  }

  lemma StepKeepsInv(ls: LockState, a: LockAction)
    requires LockInv(ls) && Enabled(ls, a)
    ensures LockInv(Do(ls, a))
  {
    forall b
      ensures BlockInv(Do(ls, a), b)
    {
      if b == a.blk {
        OwnBlockInv(ls, a);
      } else {
        OtherBlockInv(ls, a, b);
      }
    }
  }

  /** Every run, from every lawful state, in any interleaving of the transactions' calls. */
  lemma {:induction false} RunKeepsInv(ls: LockState, actions: seq<LockAction>)
    requires LockInv(ls) && Run(ls, actions).Some?
    ensures LockInv(Run(ls, actions).value)
    decreases |actions|
  {
    if actions != [] {
      StepKeepsInv(ls, actions[0]);
      RunKeepsInv(Do(ls, actions[0]), actions[1..]);
    }
  }

  /** An exclusive holder shares its block with nobody, not even half an upgrade. */
  lemma Exclusion(ls: LockState, h: Hold, g: Hold)
    requires LockInv(ls) && h in ls.held && ls.held[h] == X && g.blk == h.blk
    ensures g in ls.held || g in ls.halfway ==> g == h
  {
    SoleExclusive(ls, h);
    assert g in ls.held && ls.held[g] == S ==> g in Holders(ls, h.blk, S);
    assert g in ls.held && ls.held[g] == X ==> g in Holders(ls, h.blk, X);
    assert g in ls.halfway ==> g in Pending(ls, h.blk);
  }

  /**
   When every transaction has released and no call is half done, the table is empty exactly
   when no fresh upgrade was ever aborted.
   */
  lemma EmptyIffNothingStranded(actions: seq<LockAction>)
    requires Run(NoLocks, actions).Some?
    requires Run(NoLocks, actions).value.held == map[] && Run(NoLocks, actions).value.halfway == {}
    ensures Run(NoLocks, actions).value.table == map[] <==>
            Run(NoLocks, actions).value.stranded == multiset{}
  {
    var ls := Run(NoLocks, actions).value;
    NoLocksInv();
    RunKeepsInv(NoLocks, actions);
    forall b
      ensures b in ls.table <==> ls.stranded[b] > 0
    {
      assert BlockInv(ls, b);
      assert Holders(ls, b, S) == {} && Holders(ls, b, X) == {} && Pending(ls, b) == {};
    }
    if ls.stranded != multiset{} {
      var b :| b in ls.stranded;
      assert ls.stranded[b] > 0;
      assert b in ls.table;
    }
  }

  /** A block with a stranded lock is never locked exclusively again, whatever anybody does. */
  lemma {:induction false} StrandedBlocksForever(ls: LockState, actions: seq<LockAction>, b: Block)
    requires LockInv(ls) && ls.stranded[b] > 0 && Run(ls, actions).Some?
    ensures Run(ls, actions).value.stranded[b] > 0
    ensures Holders(Run(ls, actions).value, b, X) == {}
    ensures forall i :: 0 <= i < |actions| && actions[i].Upgrade? ==> actions[i].blk != b
    decreases |actions|
  {
    assert BlockInv(ls, b);
    if actions != [] {
      var a := actions[0];
      if a.Upgrade? && a.blk == b {
        OneShared(ls, Hold(a.tx, b));
      }
      StepKeepsInv(ls, a);
      StrandedBlocksForever(Do(ls, a), actions[1..], b);
      forall i | 0 <= i < |actions| && actions[i].Upgrade?
        ensures actions[i].blk != b
      {
        if i > 0 {
          assert actions[1..][i - 1] == actions[i];
        }
      }
    }
  }
}
