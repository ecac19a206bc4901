/** The commit order agrees with every conflict in the run, and no transaction commits twice. */
module TxConflicts {
  import opened DbTypes
  import opened Recovery
  import opened TxMachine
  import opened TxInvariant
  import opened TxSteps

  /** Whoever let go of a block has ended for good. */
  ghost predicate ReleaseOk(s: State, k: int) {
    0 <= k < |s.hist| && s.hist[k].Released? ==>
      && s.hist[k].who.boot <= s.boot
      && (s.hist[k].who.boot == s.boot ==>
            s.mode.Up? && s.hist[k].who.tx <= s.nextTx && !Unsettled(s, s.hist[k].who.tx))
  }

  /** No crash comes after an operation of the current boot. */
  ghost predicate CrashOk(s: State, i: int, k: int) {
    0 <= i < k < |s.hist| && s.hist[i].Did? && s.hist[k].Crashed? ==> s.hist[i].who.boot < s.boot
  }

  ghost predicate Precedes(order: seq<Uid>, u: Uid, w: Uid) {
    exists a, b :: 0 <= a < b < |order| && order[a] == u && order[b] == w
  }

  /** The commit order agrees with every conflict between committed transactions. */
  ghost predicate OrderOk(s: State, i: int, j: int) {
    && 0 <= i < j < |s.hist| && s.hist[i].Did? && s.hist[j].Did?
    && s.hist[i].who != s.hist[j].who && Conflict(s.hist[i].op, s.hist[j].op)
    && s.hist[i].who in s.order && s.hist[j].who in s.order
    ==> Precedes(s.order, s.hist[i].who, s.hist[j].who)
  }

  ghost predicate ConflictInv(s: State) {
    && (forall k :: ReleaseOk(s, k))
    && (forall i, k :: CrashOk(s, i, k))
    && (forall i, j :: OrderOk(s, i, j))
    && (forall a, b :: 0 <= a < b < |s.order| ==> s.order[a] != s.order[b])
  }

  lemma PrecedesAppend(order: seq<Uid>, x: Uid)
    ensures forall u, w :: Precedes(order, u, w) ==> Precedes(order + [x], u, w)
    ensures forall u :: u in order ==> Precedes(order + [x], u, x)
  {
    forall u, w | Precedes(order, u, w)
      ensures Precedes(order + [x], u, w)
    {
      var a, b :| 0 <= a < b < |order| && order[a] == u && order[b] == w;
      assert (order + [x])[a] == u && (order + [x])[b] == w;
    }
    forall u | u in order
      ensures Precedes(order + [x], u, x)
    {
      var a :| 0 <= a < |order| && order[a] == u;
      assert (order + [x])[a] == u && (order + [x])[|order|] == x;
    }
  }

  /** Nobody who conflicts with a transaction still holding its locks can have come after it. */
  lemma NothingAfterUnsettled(s: State, i: int, j: int)
    requires Inv(s) && ConflictInv(s) && s.mode.Up?
    requires 0 <= i < j < |s.hist| && s.hist[i].Did? && s.hist[j].Did?
    requires s.hist[i].who.boot == s.boot && Unsettled(s, s.hist[i].who.tx)
    requires Conflict(s.hist[i].op, s.hist[j].op)
    ensures s.hist[i].who == s.hist[j].who
  {
    var u := s.hist[i].who;
    forall k | i < k < j
      ensures s.hist[k] != Released(u, s.hist[i].op.loc.blk) && s.hist[k] != Crashed
    {
      assert ReleaseOk(s, k) && CrashOk(s, i, k);
    }
    assert Separated(s.hist, i, j);
  }

  lemma CommitKeepsOrder(s: State, t: int)
    requires Inv(s) && ConflictInv(s) && s.mode.Up? && CanDo(s, FlushLog) && s.log[s.flushed] == Commit(t)
    ensures ConflictInv(Step(s, FlushLog))
  {
    var s' := Step(s, FlushLog);
    CommitChanges(s, t, Loc(Block("", 0), 0));
    NotYetCommitted(s, t);
    PrecedesAppend(s.order, Me(s, t));
    forall i, j
      ensures OrderOk(s', i, j)
    {
      assert OrderOk(s, i, j);
      if && 0 <= i < j < |s.hist| && s.hist[i].Did? && s.hist[j].Did?
         && s.hist[i].who == Me(s, t) && Conflict(s.hist[i].op, s.hist[j].op) {
        NothingAfterUnsettled(s, i, j);
      }
    }
    forall k
      ensures ReleaseOk(s', k)
    {
      assert ReleaseOk(s, k);
    }
    forall i, k
      ensures CrashOk(s', i, k)
    {
      assert CrashOk(s, i, k);
    }
  }

  /** Steps that record nothing and settle transactions only. */
  lemma QuietKeepsOrder(s: State, s': State)
    requires Inv(s) && ConflictInv(s)
    requires s'.hist == s.hist && s'.order == s.order && s'.boot == s.boot
    requires s.mode.Up? ==> s'.mode.Up? && s'.nextTx >= s.nextTx
    requires s.mode.Up? ==> forall t :: t <= s.nextTx && Unsettled(s', t) ==> Unsettled(s, t)
    ensures ConflictInv(s')
  {
    forall k
      ensures ReleaseOk(s', k)
    {
      assert ReleaseOk(s, k);
    }
    forall i, k
      ensures CrashOk(s', i, k)
    {
      assert CrashOk(s, i, k);
    }
    forall i, j
      ensures OrderOk(s', i, j)
    {
      assert OrderOk(s, i, j);
    }
  }

  /** Steps that record one event and commit nobody. */
  lemma RecordKeepsOrder(s: State, s': State, e: Event)
    requires Inv(s) && ConflictInv(s) && s'.hist == s.hist + [e] && s'.order == s.order
    requires s.mode.Up? || e.Crashed?
    requires match e
      case Did(u, _) => s'.boot == s.boot && s'.mode.Up? && s'.nextTx == s.nextTx
                        && (forall t :: Unsettled(s', t) == Unsettled(s, t)) && u.boot == s.boot && Unsettled(s, u.tx)
      case Released(u, _) => s'.boot == s.boot && s'.mode.Up? && s'.txs == s.txs && s'.nextTx == s.nextTx
                             && s'.flushed == s.flushed && u.boot == s.boot && u.tx in s.txs && !Unsettled(s, u.tx)
      case Crashed => s'.boot == s.boot + 1
    ensures ConflictInv(s')
  {
    forall k
      ensures ReleaseOk(s', k)
    {
      assert ReleaseOk(s, k);
      if e.Released? {
        assert TxOk(s, e.who.tx);
      }
    }
    forall i, k
      ensures CrashOk(s', i, k)
    {
      assert CrashOk(s, i, k);
      assert EventOk(s, i);
    }
    forall i, j
      ensures OrderOk(s', i, j)
    {
      assert OrderOk(s, i, j);
      if e.Did? {
        NotYetCommitted(s, e.who.tx);
      }
    }
  }
}
