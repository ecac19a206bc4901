/** How the recorded history, the commit order and the replayed store grow together. */
module TxReplay {
  import opened DbTypes
  import opened Recovery
  import opened TxMachine

  lemma OpsAppend(hist: seq<Event>, e: Event, u: Uid)
    ensures Ops(hist + [e], u) == if e.Did? && e.who == u then Ops(hist, u) + [e.op] else Ops(hist, u)
  {
    assert Init(hist + [e]) == hist;
  }

  lemma WritesAppend(ops: seq<Op>, o: Op, st: Store)
    ensures ApplyWrites(ops + [o], st) ==
            if o.Write? then ApplyWrites(ops, st)[o.loc := o.val] else ApplyWrites(ops, st)
    ensures ReadsFit(ops + [o], st) <==>
            ReadsFit(ops, st) && (o.Read? ==> Get(ApplyWrites(ops, st), o.loc) == o.val)
  {
    assert Init(ops + [o]) == ops;
  }

  /** An event of a transaction that has not committed does not change the serial execution. */
  lemma {:induction false} SerialFrame(hist: seq<Event>, e: Event, order: seq<Uid>)
    requires e.Did? ==> e.who !in order
    ensures Serial(hist + [e], order) == Serial(hist, order)
  {
    if order != [] {
      SerialFrame(hist, e, Init(order));
      assert Last(order) in order;
      OpsAppend(hist, e, Last(order));
    }
  }

  lemma SerialAppend(hist: seq<Event>, order: seq<Uid>, u: Uid)
    requires Serial(hist, order).Some? && ReadsFit(Ops(hist, u), Serial(hist, order).value)
    ensures Serial(hist, order + [u]) == Some(ApplyWrites(Ops(hist, u), Serial(hist, order).value))
  {
    assert Init(order + [u]) == order;
  }

  lemma LastCommittedFrame(hist: seq<Event>, e: Event, order: seq<Uid>, l: Loc)
    requires e.Did? ==> e.who !in order
    ensures LastCommitted(hist + [e], order, l) == LastCommitted(hist, order, l)
  {
    assert Init(hist + [e]) == hist;
  }

  ghost predicate Writes(hist: seq<Event>, k: int, u: Uid, l: Loc) {
    0 <= k < |hist| && hist[k].Did? && hist[k].who == u && hist[k].op.Write? && hist[k].op.loc == l
  }

  /** A location u never wrote keeps its value. */
  lemma {:induction false} Unwritten(hist: seq<Event>, u: Uid, st: Store, l: Loc)
    requires forall k :: !Writes(hist, k, u, l)
    ensures Get(ApplyWrites(Ops(hist, u), st), l) == Get(st, l)
  {
    if hist != [] {
      var init := Init(hist);
      forall k
        ensures !Writes(init, k, u, l)
      {
        assert !Writes(hist, k, u, l);
      }
      Unwritten(init, u, st, l);
      assert !Writes(hist, |hist| - 1, u, l);
      OpsAppend(init, Last(hist), u);
      assert hist == init + [Last(hist)];
      if Last(hist).Did? && Last(hist).who == u {
        WritesAppend(Ops(init, u), Last(hist).op, st);
      }
    }
  }

  /** Where two stores agree they still agree after the same operations. */
  lemma {:induction false} SameAt(ops: seq<Op>, st: Store, st': Store, l: Loc)
    requires Get(st, l) == Get(st', l)
    ensures Get(ApplyWrites(ops, st), l) == Get(ApplyWrites(ops, st'), l)
  {
    if ops != [] {
      SameAt(Init(ops), st, st', l);
    }
  }

  /** u's reads only depend on the locations u touches. */
  lemma {:induction false} SameReads(hist: seq<Event>, u: Uid, st: Store, st': Store)
    requires forall k :: 0 <= k < |hist| && hist[k].Did? && hist[k].who == u ==>
               Get(st, hist[k].op.loc) == Get(st', hist[k].op.loc)
    requires ReadsFit(Ops(hist, u), st)
    ensures ReadsFit(Ops(hist, u), st')
  {
    if hist != [] {
      var init, e := Init(hist), Last(hist);
      assert hist == init + [e];
      OpsAppend(init, e, u);
      if e.Did? && e.who == u {
        assert e == hist[|hist| - 1];
        WritesAppend(Ops(init, u), e.op, st);
        WritesAppend(Ops(init, u), e.op, st');
        SameAt(Ops(init, u), st, st', e.op.loc);
      }
      SameReads(init, u, st, st');
    }
  }

  /** When u commits and no committed write at l came after one of u's, u's last write is the last. */
  lemma {:induction false} LastCommittedAdd(hist: seq<Event>, order: seq<Uid>, u: Uid, st: Store, l: Loc)
    requires LastCommitted(hist, order, l) == Get(st, l)
    requires forall i, j, w :: i < j && Writes(hist, i, u, l) && Writes(hist, j, w, l) ==> w !in order
    requires u !in order
    ensures LastCommitted(hist, order + [u], l) == Get(ApplyWrites(Ops(hist, u), st), l)
  {
    if hist != [] {
      var init, e := Init(hist), Last(hist);
      assert hist == init + [e] && e == hist[|hist| - 1];
      OpsAppend(init, e, u);
      if e.Did? && e.who == u {
        WritesAppend(Ops(init, u), e.op, st);
      }
      if e.Did? && e.op.Write? && e.op.loc == l && e.who in order {
        assert Writes(hist, |hist| - 1, e.who, l);
        forall k
          ensures !Writes(init, k, u, l)
        {
          assert Writes(init, k, u, l) ==> Writes(hist, k, u, l);
        }
        Unwritten(init, u, st, l);
      } else if !Writes(hist, |hist| - 1, u, l) {
        forall i, j, w | i < j && Writes(init, i, u, l) && Writes(init, j, w, l)
          ensures w !in order
        {
          assert Writes(hist, i, u, l) && Writes(hist, j, w, l);
        }
        LastCommittedAdd(init, order, u, st, l);
      }
    }
  }
}
