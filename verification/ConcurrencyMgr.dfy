/**
 The two lock classes. The shared table carries, as ghost state, the state of the lock
 machine it implements; each method of a transaction's manager takes machine steps.
 */
module Concurrency {
  import opened DbTypes
  import opened Locks

  class LockTable {
    var locks: Table
    ghost var sys: LockState

    ghost predicate Valid()
      reads this
    {
      sys.table == locks && LockInv(sys)
    }

    constructor ()
      ensures Valid() && sys == NoLocks
    {
      locks := map[];
      sys := NoLocks;
      NoLocksInv();
    }

    /** Granted exactly when nobody holds the block exclusively; a is what the caller wants the lock for. */
    method SLock(blk: Block, ghost a: LockAction) returns (ok: bool)
      requires Valid() && (a.Share? || a.Reserve?) && a.blk == blk
      requires Hold(a.tx, blk) !in sys.held && Hold(a.tx, blk) !in sys.halfway
      modifies this
      ensures Valid() && ok == Enabled(old(sys), a) && sys == (if ok then Do(old(sys), a) else old(sys))
      ensures ok <==> forall t :: Hold(t, blk) in old(sys.held) ==> old(sys.held)[Hold(t, blk)] != X
    {
      ExclusiveIffNegative(sys, blk);
      var value := if blk in locks then locks[blk] else 0;
      ok := value >= 0;
      if ok {
        locks := locks[blk := value + 1];
        StepKeepsInv(sys, a);
        sys := Do(sys, a);
      }
    }

    /** The upgrade of a shared lock: granted exactly when it is the only one that counts. */
    method XLock(blk: Block, ghost tx: int) returns (ok: bool)
      requires Valid() && CanUpgrade(sys, Hold(tx, blk))
      modifies this
      ensures ok <==> SharedCount(old(sys), blk) == 1
      ensures Enabled(old(sys), if ok then Upgrade(tx, blk) else AbortUpgrade(tx, blk))
      ensures Valid() && sys == Do(old(sys), if ok then Upgrade(tx, blk) else AbortUpgrade(tx, blk))
    {
      SharedIsValue(sys, Hold(tx, blk));
      var value := if blk in locks then locks[blk] else 0;
      ok := value <= 1;
      ghost var a := if ok then Upgrade(tx, blk) else AbortUpgrade(tx, blk);
      StepKeepsInv(sys, a);
      if ok {
        locks := locks[blk := -1];
      }
      sys := Do(sys, a);
    }

    /** A transaction gives its lock back. */
    method Unlock(blk: Block, ghost tx: int)
      requires Valid() && Hold(tx, blk) in sys.held
      modifies this
      ensures Valid() && sys == Do(old(sys), LockAction.Unlock(tx, blk))
    {
      var value := if blk in locks then locks[blk] else 0;
      if value > 1 {
        locks := locks[blk := value - 1];
      } else {
        locks := locks - {blk};
      }
      StepKeepsInv(sys, LockAction.Unlock(tx, blk));
      sys := Do(sys, LockAction.Unlock(tx, blk));
    }
  }

  /** Where somebody may upgrade, the value counts the shared locks, and there is one. */
  lemma SharedIsValue(ls: LockState, h: Hold)
    requires LockInv(ls) && CanUpgrade(ls, h)
    ensures ValueOf(ls.table, h.blk) == SharedCount(ls, h.blk) >= 1
  {
    assert BlockInv(ls, h.blk);
    if h in ls.halfway {
      assert h in Pending(ls, h.blk);
    } else {
      assert h in Holders(ls, h.blk, S);
    }
  }

  /** Nobody but tx holds b or is about to, and no shared lock is stranded there. */
  ghost predicate NobodyElse(ls: LockState, tx: int, b: Block) {
    && (forall g: Hold :: g.blk == b && g.tx != tx ==> g !in ls.held && g !in ls.halfway)
    && ls.stranded[b] == 0
  }

  /** The only shared lock that counts is h's own exactly if there is nobody else. */
  lemma OneIsNobodyElse(ls: LockState, h: Hold)
    requires LockInv(ls) && CanUpgrade(ls, h)
    ensures SharedCount(ls, h.blk) == 1 <==> NobodyElse(ls, h.tx, h.blk)
  {
    SharedIsValue(ls, h);
    if SharedCount(ls, h.blk) == 1 {
      OneShared(ls, h);
      NobodyBut(ls, h);
    } else if NobodyElse(ls, h.tx, h.blk) {
      OneAtMost(ls, h);
    }
  }

  lemma NobodyBut(ls: LockState, h: Hold)
    requires Holders(ls, h.blk, S) + Pending(ls, h.blk) == {h} && Holders(ls, h.blk, X) == {} && ls.stranded[h.blk] == 0
    ensures NobodyElse(ls, h.tx, h.blk)
  {
    forall g: Hold | g.blk == h.blk && g.tx != h.tx
      ensures g !in ls.held && g !in ls.halfway
    {
      assert g !in Holders(ls, h.blk, S) && g !in Holders(ls, h.blk, X) && g !in Pending(ls, h.blk);
    }
  }

  lemma OneAtMost(ls: LockState, h: Hold)
    requires LockInv(ls) && CanUpgrade(ls, h) && NobodyElse(ls, h.tx, h.blk)
    ensures SharedCount(ls, h.blk) == 1
  {
    if h in ls.halfway {
      assert Pending(ls, h.blk) == {h} && Holders(ls, h.blk, S) == {};
    } else {
      assert Holders(ls, h.blk, S) == {h} && Pending(ls, h.blk) == {};
    }
  }

  lemma OwnsAlone(ls: LockState, h: Hold)
    requires LockInv(ls) && h in ls.held && ls.held[h] == X
    ensures NobodyElse(ls, h.tx, h.blk)
  {
    SoleExclusive(ls, h);
    NobodyExclusive(ls, h);
  }

  lemma NobodyExclusive(ls: LockState, h: Hold)
    requires LockInv(ls) && h in ls.held && ls.held[h] == X && ls.stranded[h.blk] == 0
    ensures NobodyElse(ls, h.tx, h.blk)
  {
    forall g: Hold | g.blk == h.blk && g.tx != h.tx
      ensures g !in ls.held && g !in ls.halfway
    {
      Exclusion(ls, h, g);
    }
  }

  /** Whether there is somebody else does not depend on what h's transaction has reserved. */
  lemma ReservedSame(ls: LockState, ls': LockState, h: Hold)
    requires ls'.held == ls.held && ls'.stranded == ls.stranded && (ls'.halfway == ls.halfway || ls'.halfway == ls.halfway + {h})
    ensures NobodyElse(ls', h.tx, h.blk) == NobodyElse(ls, h.tx, h.blk)
  {
    assert NobodyElse(ls', h.tx, h.blk) ==> NobodyElse(ls, h.tx, h.blk);
  }

  /** A transaction's own record of its locks. */
  class ConcurrencyMgr {
    const lockTbl: LockTable
    const tx: int
    var locks: map<Block, Kind>

    ghost predicate Valid()
      reads this, lockTbl
    {
      && lockTbl.Valid()
      && (forall b :: b in locks <==> Hold(tx, b) in lockTbl.sys.held)
      && (forall b :: b in locks ==> lockTbl.sys.held[Hold(tx, b)] == locks[b])
      && (forall b :: Hold(tx, b) !in lockTbl.sys.halfway)
    }

    constructor (lockTbl: LockTable, tx: int)
      requires lockTbl.Valid()
      requires forall b :: Hold(tx, b) !in lockTbl.sys.held && Hold(tx, b) !in lockTbl.sys.halfway
      ensures Valid() && locks == map[] && this.lockTbl == lockTbl && this.tx == tx
    {
      this.lockTbl := lockTbl;
      this.tx := tx;
      locks := map[];
    }

    method SLock(blk: Block) returns (ok: bool)
      requires Valid()
      modifies this`locks, lockTbl
      ensures Valid()
      ensures !ok <==> exists other :: other != tx && Hold(other, blk) in old(lockTbl.sys.held)
                                       && old(lockTbl.sys.held)[Hold(other, blk)] == X
      ensures locks == if ok && blk !in old(locks) then old(locks)[blk := S] else old(locks)
      ensures lockTbl.sys.held ==
              if ok && blk !in old(locks) then old(lockTbl.sys.held)[Hold(tx, blk) := S] else old(lockTbl.sys.held)
      ensures lockTbl.sys.halfway == old(lockTbl.sys.halfway) && lockTbl.sys.stranded == old(lockTbl.sys.stranded)
    {
      ghost var sys0, h := lockTbl.sys, Hold(tx, blk);
      ExclusiveIffNegative(sys0, blk);
      if blk !in locks {
        ok := lockTbl.SLock(blk, Share(tx, blk));
        if ok {
          locks := locks[blk := S];
        }
      } else {
        ok := true;
        forall other | Hold(other, blk) in sys0.held && sys0.held[Hold(other, blk)] == X
          ensures other == tx
        {
          Exclusion(sys0, Hold(other, blk), h);
        }
      }
    }

    /**
     Succeeds exactly if there is nobody else on the block. As written, a shared lock that x_lock takes for
     itself is recorded nowhere when the upgrade then throws; the last clauses say exactly when that strands
     a lock.
     */
    method XLock(blk: Block) returns (ok: bool)
      requires Valid()
      modifies this`locks, lockTbl
      ensures Valid()
      ensures ok <==> NobodyElse(old(lockTbl.sys), tx, blk)
      ensures locks == if ok then old(locks)[blk := X] else old(locks)
      ensures lockTbl.sys.held == if ok then old(lockTbl.sys.held)[Hold(tx, blk) := X] else old(lockTbl.sys.held)
      ensures lockTbl.sys.halfway == old(lockTbl.sys.halfway)
      ensures !ok && blk !in old(locks) && ValueOf(old(lockTbl.locks), blk) >= 0 ==>
                lockTbl.sys.stranded == old(lockTbl.sys.stranded) + multiset{blk}
      ensures ok || blk in old(locks) || ValueOf(old(lockTbl.locks), blk) < 0 ==>
                lockTbl.sys.stranded == old(lockTbl.sys.stranded)
    {
      ghost var sys0, h := lockTbl.sys, Hold(tx, blk);
      if blk in locks && locks[blk] == X {
        ok := true;
        OwnsAlone(sys0, h);
      } else {
        ok := true;
        if blk !in locks {
          ok := lockTbl.SLock(blk, Reserve(tx, blk));
        }
        if ok {
          ReservedSame(sys0, lockTbl.sys, h);
          OneIsNobodyElse(lockTbl.sys, h);
          ok := lockTbl.XLock(blk, tx);
          if ok {
            locks := locks[blk := X];
          }
        }
      }
    }

    method Release()
      requires Valid()
      modifies this`locks, lockTbl
      ensures Valid() && locks == map[]
      ensures lockTbl.sys.held == map g | g in old(lockTbl.sys.held) && g.tx != tx :: old(lockTbl.sys.held)[g]
      ensures lockTbl.sys.halfway == old(lockTbl.sys.halfway)
      ensures lockTbl.sys.stranded == old(lockTbl.sys.stranded)
    {
      var rest := locks.Keys;
      while rest != {}
        invariant lockTbl.Valid()
        invariant rest <= locks.Keys
        invariant lockTbl.sys.halfway == old(lockTbl.sys.halfway)
        invariant lockTbl.sys.stranded == old(lockTbl.sys.stranded)
        invariant lockTbl.sys.held ==
                  map g | g in old(lockTbl.sys.held) && (g.tx != tx || g.blk in rest) :: old(lockTbl.sys.held)[g]
        decreases rest
      {
        var b :| b in rest;
        lockTbl.Unlock(b, tx);
        rest := rest - {b};
      }
      locks := map[];
    }
  }

  lemma ExclusiveIffNegative(ls: LockState, b: Block)
    requires LockInv(ls)
    ensures ValueOf(ls.table, b) < 0 <==> exists t :: Hold(t, b) in ls.held && ls.held[Hold(t, b)] == X
  {
    assert BlockInv(ls, b);
    if ValueOf(ls.table, b) < 0 {
      assert Holders(ls, b, X) != {};
      var h :| h in Holders(ls, b, X);
      assert h == Hold(h.tx, b);
    } else {
      forall t | Hold(t, b) in ls.held
        ensures ls.held[Hold(t, b)] != X
      {
        assert ls.held[Hold(t, b)] == X ==> Hold(t, b) in Holders(ls, b, X);
      }
    }
  }
}
