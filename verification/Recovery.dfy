/**
 Log records and the two backward walks over the log: rolling one transaction back and
 recovering after a crash. Each loop is proved equal to a recursive walk; what the recovery
 walk does to a location is then characterised by the records themselves.
 */
module Recovery {
  import opened DbTypes

  /** A logged write keeps the value that was there before it. */
  datatype Rec =
    | Start(tx: int)
    | Commit(tx: int)
    | Rollback(tx: int)
    | SetVal(tx: int, loc: Loc, was: Value)
    | Checkpoint

  predicate Finishes(r: Rec, t: int) {
    r == Commit(t) || r == Rollback(t)
  }

  /** A record that keeps the recovery walk from undoing t's earlier writes. */
  predicate Kills(r: Rec, t: int) {
    r.Checkpoint? || Finishes(r, t)
  }

  predicate IsSet(r: Rec, l: Loc) {
    r.SetVal? && r.loc == l
  }

  function Last<T>(s: seq<T>): T
    requires s != []
  {
    s[|s| - 1]
  }

  function Init<T>(s: seq<T>): seq<T>
    requires s != []
  {
    s[..|s| - 1]
  }

  /** The store after walking back through recs, undoing the records of unfinished transactions. */
  function RecoverWalk(recs: seq<Rec>, finished: set<int>, st: Store): Store {
    if recs == [] then st
    else match Last(recs)
      case Checkpoint => st
      case Commit(t) => RecoverWalk(Init(recs), finished + {t}, st)
      case Rollback(t) => RecoverWalk(Init(recs), finished + {t}, st)
      case SetVal(t, l, was) =>
        RecoverWalk(Init(recs), finished, if t in finished then st else st[l := was])
      case Start(_) => RecoverWalk(Init(recs), finished, st)
  }

  /** The store after walking back to t's start record, undoing t's records. */
  function RollbackWalk(recs: seq<Rec>, t: int, st: Store): Store {
    if recs == [] || Last(recs) == Start(t) then st
    else match Last(recs)
      case SetVal(u, l, was) => RollbackWalk(Init(recs), t, if u == t then st[l := was] else st)
      case _ => RollbackWalk(Init(recs), t, st)
  }

  /** The recovery manager of one transaction, over the log and the pages it undoes into. */
  class RecoveryMgr {
    const txNum: int
    var log: seq<Rec>
    var pages: Store

    constructor (txNum: int, log: seq<Rec>, pages: Store)
      ensures this.txNum == txNum && this.log == log + [Start(txNum)] && this.pages == pages
    {
      this.txNum := txNum;
      this.log := log + [Start(txNum)];
      this.pages := pages;
    }

    method Undo(rec: Rec)
      modifies this`pages
      ensures pages == if rec.SetVal? then old(pages)[rec.loc := rec.was] else old(pages)
    {
      if rec.SetVal? {
        pages := pages[rec.loc := rec.was];
      }
    }

    method DoRollback()
      modifies this`pages
      ensures pages == RollbackWalk(log, txNum, old(pages))
    {
      var pos := |log|;
      assert log[..pos] == log;
      while pos > 0
        invariant 0 <= pos <= |log|
        invariant RollbackWalk(log[..pos], txNum, pages) == RollbackWalk(log, txNum, old(pages))
      {
        pos := pos - 1;
        var rec := log[pos];
        assert Init(log[..pos + 1]) == log[..pos];
        if !rec.Checkpoint? && rec.tx == txNum {
          if rec.Start? {
            return;
          }
          Undo(rec);
        }
      }
    }

    method DoRecover()
      modifies this`pages
      ensures pages == RecoverWalk(log, {}, old(pages))
    {
      var finishedTxs: set<int> := {};
      var pos := |log|;
      assert log[..pos] == log;
      while pos > 0
        invariant 0 <= pos <= |log|
        invariant RecoverWalk(log[..pos], finishedTxs, pages) == RecoverWalk(log, {}, old(pages))
      {
        pos := pos - 1;
        var rec := log[pos];
        assert Init(log[..pos + 1]) == log[..pos];
        if rec.Checkpoint? {
          return;
        }
        if rec.Commit? || rec.Rollback? {
          finishedTxs := finishedTxs + {rec.tx};
        } else if rec.tx !in finishedTxs {
          Undo(rec);
        }
      }
    }
  }

  // ---------- what the recovery walk does at one location ----------

  /**
   The value the walk leaves at l, or None when it undoes nothing there. Walking back, the
   oldest record undone has the last word.
   */
  function FirstOld(recs: seq<Rec>, finished: set<int>, l: Loc): Option<Value> {
    if recs == [] then None
    else match Last(recs)
      case Checkpoint => None
      case Commit(t) => FirstOld(Init(recs), finished + {t}, l)
      case Rollback(t) => FirstOld(Init(recs), finished + {t}, l)
      case SetVal(t, l', was) =>
        var earlier := FirstOld(Init(recs), finished, l);
        if l' == l && t !in finished then Some(earlier.GetOr(was)) else earlier
      case Start(_) => FirstOld(Init(recs), finished, l)
  }

  lemma {:induction false} RecoverWalkAt(recs: seq<Rec>, finished: set<int>, st: Store, l: Loc)
    ensures Get(RecoverWalk(recs, finished, st), l) == FirstOld(recs, finished, l).GetOr(Get(st, l))
  {
    if recs != [] {
      match Last(recs)
      case Checkpoint =>
      case Commit(t) => RecoverWalkAt(Init(recs), finished + {t}, st, l);
      case Rollback(t) => RecoverWalkAt(Init(recs), finished + {t}, st, l);
      case SetVal(t, l', was) =>
        RecoverWalkAt(Init(recs), finished, if t in finished then st else st[l' := was], l);
      case Start(_) => RecoverWalkAt(Init(recs), finished, st, l);
    }
  }

  /** Record i is not undone by a walk that starts below position n. */
  ghost predicate Dead(recs: seq<Rec>, n: int, i: int)
    requires 0 <= i < |recs| && n <= |recs| && recs[i].SetVal?
  {
    exists j :: i < j < n && Kills(recs[j], recs[i].tx)
  }

  ghost predicate Spent(recs: seq<Rec>, finished: set<int>, i: int)
    requires 0 <= i < |recs| && recs[i].SetVal?
  {
    recs[i].tx in finished || Dead(recs, |recs|, i)
  }

  /** Looking at a record from one position further back. */
  lemma SpentShorter(recs: seq<Rec>, finished: set<int>, i: int)
    requires 0 <= i < |recs| - 1 && recs[i].SetVal? && !Last(recs).Checkpoint?
    ensures Spent(recs, finished, i) <==>
            Spent(Init(recs), if Last(recs).Commit? || Last(recs).Rollback? then finished + {Last(recs).tx} else finished, i)
  {
    var init := Init(recs);
    if Dead(recs, |recs|, i) && !Kills(Last(recs), recs[i].tx) {
      var j :| i < j < |recs| && Kills(recs[j], recs[i].tx);
      assert init[j] == recs[j];
    }
    if Dead(init, |init|, i) {
      var j :| i < j < |init| && Kills(init[j], init[i].tx);
      assert recs[j] == init[j];
    }
    if Kills(Last(recs), recs[i].tx) {
      assert recs[|recs| - 1] == Last(recs);
    }
  }

  lemma {:induction false} NothingToUndo(recs: seq<Rec>, finished: set<int>, l: Loc)
    requires forall i :: 0 <= i < |recs| && IsSet(recs[i], l) ==> Spent(recs, finished, i)
    ensures FirstOld(recs, finished, l) == None
  {
    if recs != [] && !Last(recs).Checkpoint? {
      var r, init := Last(recs), Init(recs);
      var finished' := if r.Commit? || r.Rollback? then finished + {r.tx} else finished;
      forall i | 0 <= i < |init| && IsSet(init[i], l)
        ensures Spent(init, finished', i)
      {
        assert Spent(recs, finished, i);
        SpentShorter(recs, finished, i);
      }
      NothingToUndo(init, finished', l);
      assert IsSet(r, l) ==> Spent(recs, finished, |recs| - 1);
    }
  }

  /** The walk leaves at l what the oldest unspent record for l says. */
  lemma {:induction false} OldestUndone(recs: seq<Rec>, finished: set<int>, l: Loc, i: int)
    requires 0 <= i < |recs| && IsSet(recs[i], l) && !Spent(recs, finished, i)
    requires forall j :: 0 <= j < i && IsSet(recs[j], l) ==> Spent(recs, finished, j)
    ensures FirstOld(recs, finished, l) == Some(recs[i].was)
  {
    var r, init := Last(recs), Init(recs);
    var finished' := if r.Commit? || r.Rollback? then finished + {r.tx} else finished;
    assert recs[|recs| - 1] == r;
    assert !r.Checkpoint?;
    forall j | 0 <= j < i && IsSet(init[j], l)
      ensures Spent(init, finished', j)
    {
      assert Spent(recs, finished, j);
      SpentShorter(recs, finished, j);
    }
    if i == |recs| - 1 {
      NothingToUndo(init, finished', l);
    } else {
      SpentShorter(recs, finished, i);
      OldestUndone(init, finished', l, i);
    }
  }

  // ---------- one transaction's records ----------

  /** The old value of the first record of t for l at position from or later. */
  function OwnOld(log: seq<Rec>, t: int, from: nat, l: Loc): Option<Value>
    decreases |log| - from
  {
    if from >= |log| then None
    else if IsSet(log[from], l) && log[from].tx == t then Some(log[from].was)
    else OwnOld(log, t, from + 1, l)
  }

  lemma {:induction false} OwnOldAppend(log: seq<Rec>, r: Rec, t: int, from: nat, l: Loc)
    requires from <= |log|
    ensures OwnOld(log + [r], t, from, l) ==
            if OwnOld(log, t, from, l).Some? then OwnOld(log, t, from, l)
            else if IsSet(r, l) && r.tx == t then Some(r.was) else None
    decreases |log| - from
  {
    if from < |log| {
      assert (log + [r])[from] == log[from];
      OwnOldAppend(log, r, t, from + 1, l);
    } else {
      assert OwnOld(log + [r], t, from + 1, l) == None;
    }
  }

  lemma {:induction false} OwnOldIndex(log: seq<Rec>, t: int, from: nat, l: Loc) returns (i: nat)
    requires OwnOld(log, t, from, l).Some?
    ensures from <= i < |log| && IsSet(log[i], l) && log[i].tx == t && OwnOld(log, t, from, l) == Some(log[i].was)
    ensures forall j :: from <= j < i && IsSet(log[j], l) ==> log[j].tx != t
    decreases |log| - from
  {
    if IsSet(log[from], l) && log[from].tx == t {
      i := from;
    } else {
      i := OwnOldIndex(log, t, from + 1, l);
    }
  }

  lemma {:induction false} OwnOldNone(log: seq<Rec>, t: int, from: nat, l: Loc)
    requires forall i :: from <= i < |log| && IsSet(log[i], l) ==> log[i].tx != t
    ensures OwnOld(log, t, from, l) == None
    decreases |log| - from
  {
    if from < |log| {
      OwnOldNone(log, t, from + 1, l);
    }
  }

  /** What rolling t back does at one location. */
  lemma {:induction false} RollbackWalkAt(recs: seq<Rec>, t: int, start: nat, st: Store, l: Loc)
    requires start < |recs| && recs[start] == Start(t)
    requires forall i :: start < i < |recs| ==> recs[i] != Start(t)
    ensures Get(RollbackWalk(recs, t, st), l) == OwnOld(recs, t, start, l).GetOr(Get(st, l))
  {
    var r, init := Last(recs), Init(recs);
    assert recs == init + [r];
    if start == |recs| - 1 {
      assert OwnOld(recs, t, start + 1, l) == None;
    } else {
      OwnOldAppend(init, r, t, start, l);
      RollbackWalkAt(init, t, start, if r.SetVal? && r.tx == t then st[r.loc := r.was] else st, l);
    }
  }
}
