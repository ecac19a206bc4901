/**
 Scans that go through an index: the equality selection and the index join. With the index in
 agreement they show what a filtered table scan and a nested-loop join show.
 */
module IndexScans {
  import opened DbTypes
  import opened HeapFiles
  import opened HashIndexes
  import opened IndexAgreement
  import opened Products
  import opened MergeJoins

  // ---------- the live record ids in scan order ----------

  function RidIf(slot: Slot<Row>, b: int, s: int): seq<Rid> {
    if slot.used then [Rid(b, s)] else []
  }

  function RidsIn(slots: Slots<Row>, b: int): seq<Rid> {
    if slots == [] then [] else RidsIn(slots[..|slots| - 1], b) + RidIf(slots[|slots| - 1], b, |slots| - 1)
  }

  function LiveRids(table: Table): seq<Rid> {
    if table == [] then [] else LiveRids(table[..|table| - 1]) + RidsIn(table[|table| - 1], |table| - 1)
  }

  predicate AllInFile(table: Table, rids: seq<Rid>) {
    forall k :: 0 <= k < |rids| ==> InFile(table, rids[k])
  }

  /** The rows at these record ids. */
  function RowsOf(table: Table, rids: seq<Rid>): (rows: seq<Row>)
    requires AllInFile(table, rids)
    ensures |rows| == |rids| && forall k :: 0 <= k < |rids| ==> rows[k] == RowAt(table, rids[k])
  {
    seq(|rids|, k requires 0 <= k < |rids| => RowAt(table, rids[k]))
  }

  lemma {:induction false} RidsInAre(slots: Slots<Row>, b: int, r: Rid)
    ensures multiset(RidsIn(slots, b))[r] == if r.blk == b && 0 <= r.slot < |slots| && slots[r.slot].used then 1 else 0
    decreases |slots|
  {
    if slots != [] {
      RidsInAre(slots[..|slots| - 1], b, r);
    }
  }

  lemma CountConcat<T>(a: seq<T>, b: seq<T>, c: seq<T>, x: T)
    requires c == a + b
    ensures multiset(c)[x] == multiset(a)[x] + multiset(b)[x]
  {
  }

  lemma LiveInLast(table: Table, r: Rid)
    requires table != []
    ensures
      var n := |table| - 1;
      && (Live(table, r) <==> Live(table[..n], r) || (r.blk == n && 0 <= r.slot < |table[n]| && table[n][r.slot].used))
      && (Live(table[..n], r) ==> r.blk < n)
  {
  }

  /** A scan meets every live record exactly once. */
  lemma {:induction false} LiveRidsAre(table: Table, r: Rid)
    ensures multiset(LiveRids(table))[r] == if Live(table, r) then 1 else 0
    decreases |table|
  {
    if table != [] {
      var init, n := table[..|table| - 1], |table| - 1;
      LiveRidsAre(init, r);
      RidsInAre(table[n], n, r);
      LiveInLast(table, r);
      var front, back := LiveRids(init), RidsIn(table[n], n);
      CountConcat(front, back, LiveRids(table), r);
      assert multiset(LiveRids(table))[r] == multiset(front)[r] + multiset(back)[r];
    }
  }

  /** Which rows have this value in the field. */
  function Filter(rows: seq<Row>, field: string, val: Value): seq<Row> {
    if rows == [] then []
    else Filter(rows[..|rows| - 1], field, val) + (var r := rows[|rows| - 1]; if FieldOf(r, field) == val then [r] else [])
  }

  function FilterRids(table: Table, rids: seq<Rid>, field: string, val: Value): (found: seq<Rid>)
    requires AllInFile(table, rids)
    ensures AllInFile(table, found)
  {
    if rids == [] then []
    else
      var r := rids[|rids| - 1];
      FilterRids(table, rids[..|rids| - 1], field, val) + if FieldOf(RowAt(table, r), field) == val then [r] else []
  }

  lemma {:induction false} FilterBoth(table: Table, rids: seq<Rid>, field: string, val: Value)
    requires AllInFile(table, rids)
    ensures RowsOf(table, FilterRids(table, rids, field, val)) == Filter(RowsOf(table, rids), field, val)
    decreases |rids|
  {
    if rids != [] {
      var init := rids[..|rids| - 1];
      FilterBoth(table, init, field, val);
      assert RowsOf(table, rids)[..|rids| - 1] == RowsOf(table, init);
    }
  }

  lemma {:induction false} FilterCount(table: Table, rids: seq<Rid>, field: string, val: Value, r: Rid)
    requires AllInFile(table, rids)
    ensures multiset(FilterRids(table, rids, field, val))[r] ==
            if InFile(table, r) && FieldOf(RowAt(table, r), field) == val then multiset(rids)[r] else 0
    decreases |rids|
  {
    if rids != [] {
      var init, last := rids[..|rids| - 1], rids[|rids| - 1];
      assert rids == init + [last];
      FilterCount(table, init, field, val, r);
    }
  }

  lemma {:induction false} RowsInAre(table: Table, b: nat, n: nat)
    requires b < |table| && n <= |table[b]|
    ensures AllInFile(table, RidsIn(table[b][..n], b))
    ensures RowsOf(table, RidsIn(table[b][..n], b)) == UsedIn(table[b][..n])
    decreases n
  {
    if n > 0 {
      RowsInAre(table, b, n - 1);
      assert table[b][..n][..n - 1] == table[b][..n - 1];
    }
  }

  lemma {:induction false} RowsUpToAre(table: Table, n: nat)
    requires n <= |table|
    ensures AllInFile(table, LiveRids(table[..n])) && RowsOf(table, LiveRids(table[..n])) == UsedRows(table[..n])
    decreases n
  {
    if n > 0 {
      RowsUpToAre(table, n - 1);
      assert table[..n][..n - 1] == table[..n - 1];
      RowsInAre(table, n - 1, |table[n - 1]|);
      assert table[n - 1][..|table[n - 1]|] == table[n - 1];
    }
  }

  /** The scanned rows are those at the live record ids. */
  lemma RowsAreLive(table: Table)
    ensures AllInFile(table, LiveRids(table)) && RowsOf(table, LiveRids(table)) == UsedRows(table)
  {
    RowsUpToAre(table, |table|);
    assert table[..|table|] == table;
  }

  // ---------- the record ids an agreeing index shows ----------

  /** They are those of the rows a filtered scan shows. */
  lemma SameRids(index: Index, hash: Value -> nat, table: Table, field: string, val: Value)
    requires Agrees(index, hash, table, field) && AllInFile(table, LiveRids(table))
    ensures multiset(RidsOf(UsedRows(index[hash(val) % |index|]), val)) ==
            multiset(FilterRids(table, LiveRids(table), field, val))
  {
    var bucket := index[hash(val) % |index|];
    forall r: Rid
      ensures multiset(RidsOf(UsedRows(bucket), val))[r] == multiset(FilterRids(table, LiveRids(table), field, val))[r]
    {
      RidsCount(UsedRows(bucket), val, r);
      assert AgreesAt(index, hash, table, field, val, r);
      FilterCount(table, LiveRids(table), field, val, r);
      LiveRidsAre(table, r);
    }
  }

  lemma FoundIsLive(index: Index, hash: Value -> nat, table: Table, field: string, val: Value, r: Rid)
    requires Agrees(index, hash, table, field) && r in RidsOf(UsedRows(index[hash(val) % |index|]), val)
    ensures Live(table, r) && FieldOf(RowAt(table, r), field) == val
  {
    var found := RidsOf(UsedRows(index[hash(val) % |index|]), val);
    assert r in multiset(found);
    RidsCount(UsedRows(index[hash(val) % |index|]), val, r);
    assert AgreesAt(index, hash, table, field, val, r);
  }

  /** A sequence and its rows without position i. */
  lemma TakeOut(table: Table, b: seq<Rid>, i: nat) returns (rest: seq<Rid>)
    requires AllInFile(table, b) && i < |b|
    ensures AllInFile(table, rest) && |rest| == |b| - 1 && multiset(b) == multiset(rest) + multiset{b[i]}
    ensures multiset(RowsOf(table, b)) == multiset(RowsOf(table, rest)) + multiset{RowAt(table, b[i])}
  {
    var front, x, back := b[..i], [b[i]], b[i + 1..];
    rest := front + back;
    assert b == front + x + back;
    RowsOfBoth(table, front, back);
    RowsOfBoth(table, front, x);
    RowsOfBoth(table, front + x, back);
    assert RowsOf(table, x) == [RowAt(table, b[i])];
  }

  lemma RowsOfBoth(table: Table, a: seq<Rid>, b: seq<Rid>)
    requires AllInFile(table, a) && AllInFile(table, b)
    ensures AllInFile(table, a + b) && RowsOf(table, a + b) == RowsOf(table, a) + RowsOf(table, b)
  {
  }

  lemma Cancel<T>(a: multiset<T>, b: multiset<T>, x: T)
    requires a + multiset{x} == b + multiset{x}
    ensures a == b
  {
    assert (a + multiset{x}) - multiset{x} == a && (b + multiset{x}) - multiset{x} == b;
  }

  lemma {:induction false} SameRows(table: Table, a: seq<Rid>, b: seq<Rid>)
    requires AllInFile(table, a) && AllInFile(table, b) && multiset(a) == multiset(b)
    ensures multiset(RowsOf(table, a)) == multiset(RowsOf(table, b))
    decreases |a|
  {
    if a == [] {
      assert |multiset(b)| == 0;
    } else {
      assert a[0] in multiset(b);
      var i :| 0 <= i < |b| && b[i] == a[0];
      var a' := TakeOut(table, a, 0);
      var b' := TakeOut(table, b, i);
      Cancel(multiset(a'), multiset(b'), a[0]);
      SameRows(table, a', b');
    }
  }

  /** What an index shows under a value are the rows a filtered table scan shows. */
  lemma SelectionIsFilter(index: Index, hash: Value -> nat, table: Table, field: string, val: Value)
    requires Agrees(index, hash, table, field)
    ensures
      var found := RidsOf(UsedRows(index[hash(val) % |index|]), val);
      AllInFile(table, found) && multiset(RowsOf(table, found)) == multiset(Filter(UsedRows(table), field, val))
  {
    var found := RidsOf(UsedRows(index[hash(val) % |index|]), val);
    forall k | 0 <= k < |found|
      ensures InFile(table, found[k])
    {
      FoundIsLive(index, hash, table, field, val, found[k]);
    }
    RowsAreLive(table);
    SameRids(index, hash, table, field, val);
    SameRows(table, found, FilterRids(table, LiveRids(table), field, val));
    FilterBoth(table, LiveRids(table), field, val);
  }

  // ---------- the equality selection ----------

  class IndexSelectScan {
    const ts: TableScan<Row>
    const idx: HashIndex<Value>
    const field: string
    const val: Value
    ghost var out: seq<Rid>        // the records shown so far

    ghost predicate Valid()
      reads this, ts, idx, idx.ts
    {
      && idx.ts as object != ts as object && ts.Valid() && idx.Open() && idx.searchKey == val
      && Agrees(idx.buckets, idx.hash, ts.blocks, field)
      && out == idx.Shown()
    }

    constructor (ts: TableScan<Row>, idx: HashIndex<Value>, field: string, val: Value)
      requires ts.Valid() && idx.Valid() && Agrees(idx.buckets, idx.hash, ts.blocks, field)
      modifies idx`searchKey, idx`ts
      ensures Valid() && out == [] && this.ts == ts && this.idx == idx && this.val == val && this.field == field
      ensures fresh(idx.ts)
    {
      this.ts, this.idx, this.field, this.val, out := ts, idx, field, val, [];
      new;
      idx.BeforeFirst(val);
    }

    /** Shows a row of the filtered table, or finds all of them shown. */
    method Next() returns (found: bool)
      requires Valid()
      modifies this`out, ts, idx.ts
      ensures found ==>
                && Valid() && ts.OnRecord() && out == old(out) + [ts.Here()]
                && FieldOf(RowAt(ts.blocks, ts.Here()), field) == val
      ensures !found ==>
                && AllInFile(ts.blocks, old(out))
                && multiset(RowsOf(ts.blocks, old(out))) == multiset(Filter(UsedRows(ts.blocks), field, val))
      ensures ts.blocks == old(ts.blocks)
    {
      found := idx.Next();
      if found {
        var rid := idx.GetDataRid();
        idx.ShownIsStored(rid);
        FoundIsLive(idx.buckets, idx.hash, ts.blocks, field, val, rid);
        ts.MoveToRid(rid);
        out := out + [rid];
      } else {
        SelectionIsFilter(idx.buckets, idx.hash, ts.blocks, field, val);
      }
    }
  }

  // ---------- the index join ----------

  /** What an index shows under val. */
  ghost function Under(index: Index, hash: Value -> nat, val: Value): seq<Rid>
    requires |index| > 0
  {
    RidsOf(UsedRows(index[hash(val) % |index|]), val)
  }

  /** Every left row with the records the index shows under its key. */
  ghost function IndexPairs<A>(lrows: seq<A>, key: A -> Value, index: Index, hash: Value -> nat): seq<(A, Rid)>
    requires |index| > 0
  {
    if lrows == [] then []
    else
      var l := lrows[|lrows| - 1];
      IndexPairs(lrows[..|lrows| - 1], key, index, hash) + RowOf(l, Under(index, hash, key(l)))
  }

  lemma IndexPairsUpTo<A>(lrows: seq<A>, key: A -> Value, index: Index, hash: Value -> nat, i: nat)
    requires i < |lrows| && |index| > 0
    ensures IndexPairs(lrows[..i + 1], key, index, hash) ==
            IndexPairs(lrows[..i], key, index, hash) + RowOf(lrows[i], Under(index, hash, key(lrows[i])))
  {
    assert lrows[..i + 1][..i] == lrows[..i];
  }

  /** A left row with all the index shows under its key is done. */
  lemma PairsOver<A>(lrows: seq<A>, key: A -> Value, index: Index, hash: Value -> nat, i: nat, out: seq<(A, Rid)>, shown: seq<Rid>)
    requires i < |lrows| && |index| > 0 && shown == Under(index, hash, key(lrows[i]))
    requires out == IndexPairs(lrows[..i], key, index, hash) + RowOf(lrows[i], shown)
    ensures out == IndexPairs(lrows[..i + 1], key, index, hash)
  {
    IndexPairsUpTo(lrows, key, index, hash, i);
  }

  predicate PairsInFile<A>(table: Table, pairs: seq<(A, Rid)>) {
    forall k :: 0 <= k < |pairs| ==> InFile(table, pairs[k].1)
  }

  /** The pairs with the rows at their record ids. */
  function ShowRows<A>(table: Table, pairs: seq<(A, Rid)>): (rows: seq<(A, Row)>)
    requires PairsInFile(table, pairs)
    ensures |rows| == |pairs| && forall k :: 0 <= k < |pairs| ==> rows[k] == (pairs[k].0, RowAt(table, pairs[k].1))
  {
    seq(|pairs|, k requires 0 <= k < |pairs| => (pairs[k].0, RowAt(table, pairs[k].1)))
  }

  lemma ShowBoth<A>(table: Table, front: seq<(A, Rid)>, l: A, rids: seq<Rid>)
    requires PairsInFile(table, front) && AllInFile(table, rids)
    ensures PairsInFile(table, front + RowOf(l, rids))
    ensures ShowRows(table, front + RowOf(l, rids)) == ShowRows(table, front) + RowOf(l, RowsOf(table, rids))
  {
  }

  lemma {:induction false} MatchesAreFilter<A>(key: A -> Value, field: string, l: A, rows: seq<Row>)
    ensures Matches(key, (r: Row) => FieldOf(r, field), l, rows) == RowOf(l, Filter(rows, field, key(l)))
    decreases |rows|
  {
    if rows != [] {
      MatchesAreFilter(key, field, l, rows[..|rows| - 1]);
    }
  }

  lemma SamePairs<A>(l: A, a: seq<Row>, b: seq<Row>)
    requires multiset(a) == multiset(b)
    ensures multiset(RowOf(l, a)) == multiset(RowOf(l, b))
  {
    forall x: (A, Row)
      ensures multiset(RowOf(l, a))[x] == multiset(RowOf(l, b))[x]
    {
      RowCount(l, a, x.0, x.1);
      RowCount(l, b, x.0, x.1);
    }
  }

  /** The index join is the nested-loop equi-join. */
  lemma {:induction false} IndexJoinIsJoin<A>(lrows: seq<A>, key: A -> Value, index: Index, hash: Value -> nat,
      table: Table, field: string)
    requires Agrees(index, hash, table, field)
    ensures PairsInFile(table, IndexPairs(lrows, key, index, hash))
    ensures multiset(ShowRows(table, IndexPairs(lrows, key, index, hash))) ==
            multiset(Join(key, (r: Row) => FieldOf(r, field), lrows, UsedRows(table)))
    decreases |lrows|
  {
    if lrows != [] {
      var init, l := lrows[..|lrows| - 1], lrows[|lrows| - 1];
      IndexJoinIsJoin(init, key, index, hash, table, field);
      SelectionIsFilter(index, hash, table, field, key(l));
      MatchesAreFilter(key, field, l, UsedRows(table));
      SamePairs(l, RowsOf(table, Under(index, hash, key(l))), Filter(UsedRows(table), field, key(l)));
      ShowBoth(table, IndexPairs(init, key, index, hash), l, Under(index, hash, key(l)));
    }
  }

  // ---------- an index join that may fail to read a join field ----------

  /** What a call of next comes to. */
  datatype Outcome = Shows | Ends | Throws

  /** The join value where it can be read. */
  function Readable<A>(key: A -> Option<Value>): A -> Value {
    (a: A) => key(a).GetOr(Zero)
  }

  predicate AllRead<A>(key: A -> Option<Value>, lrows: seq<A>) {
    forall k :: 0 <= k < |lrows| ==> key(lrows[k]).Some?
  }

  lemma RowRead<A>(key: A -> Option<Value>, lrows: seq<A>, i: nat, val: Value)
    requires i < |lrows| && AllRead(key, lrows[..i]) && key(lrows[i]) == Some(val)
    ensures AllRead(key, lrows[..i + 1]) && Readable(key)(lrows[i]) == val
  {
    assert forall k :: 0 <= k < i ==> lrows[..i + 1][k] == lrows[..i][k];
  }

  /** The join finds no partner for any of these rows. */
  predicate NoPartner<A>(key: A -> Option<Value>, field: string, lrows: seq<A>, rows: seq<Row>) {
    forall k :: 0 <= k < |lrows| ==> key(lrows[k]).Some? && Filter(rows, field, key(lrows[k]).value) == []
  }

  lemma {:induction false} JoinEmpty<A>(key: A -> Value, field: string, lrows: seq<A>, rows: seq<Row>)
    ensures Join(key, (r: Row) => FieldOf(r, field), lrows, rows) == [] <==>
            forall k :: 0 <= k < |lrows| ==> Filter(rows, field, key(lrows[k])) == []
    decreases |lrows|
  {
    if lrows != [] {
      var init, l := lrows[..|lrows| - 1], lrows[|lrows| - 1];
      JoinEmpty(key, field, init, rows);
      MatchesAreFilter(key, field, l, rows);
      assert |RowOf(l, Filter(rows, field, key(l)))| == |Filter(rows, field, key(l))|;
      assert forall k :: 0 <= k < |init| ==> lrows[k] == init[k];
    }
  }

  /**
   Taking a left row that is not there does no harm just if there is a left row, or if the join field
   of whatever is taken can be read and no right row has that value.
   */
  lemma TakenIsJoin<A>(lrows: seq<A>, behind: A, again: seq<A>, key: A -> Option<Value>, field: string, rows: seq<Row>)
    requires AllRead(key, lrows)
    ensures
      var taken, key2 := Taken(lrows, behind, again), (r: Row) => FieldOf(r, field);
      AllRead(key, taken) &&
      multiset(Join(Readable(key), key2, taken, rows)) == multiset(Join(Readable(key), key2, lrows, rows)) <==>
      lrows != [] || NoPartner(key, field, taken, rows)
  {
    var taken := Taken(lrows, behind, again);
    var pairs := Join(Readable(key), (r: Row) => FieldOf(r, field), taken, rows);
    JoinEmpty(Readable(key), field, taken, rows);
    assert |multiset(pairs)| == |pairs|;
  }

  class IndexJoinScan<A> {
    const lhs: ListScan<A>
    const key: A -> Option<Value>
    const idx: HashIndex<Value>
    const ts: TableScan<Row>
    const field: string
    ghost var out: seq<(A, Rid)>        // the pairs emitted so far

    ghost predicate Apart()
      reads idx
    {
      idx.ts as object != ts as object && lhs as object != ts as object && lhs as object != idx.ts as object && lhs as object != idx as object
    }

    ghost predicate InputOk()
      reads this, lhs, ts, idx
    {
      && Apart() && ts.Valid() && idx.Valid() && Agrees(idx.buckets, idx.hash, ts.blocks, field)
      && lhs.Valid() && 0 <= lhs.pos < |lhs.TakenRows()| && AllRead(key, lhs.TakenRows()[..lhs.pos])
    }

    ghost predicate Valid()
      reads this, lhs, ts, idx, idx.ts
    {
      InputOk() && idx.Open() && OutWith(idx.Shown())
    }

    constructor (lhs: ListScan<A>, key: A -> Option<Value>, idx: HashIndex<Value>, ts: TableScan<Row>, field: string)
      ensures this.lhs == lhs && this.key == key && this.idx == idx && this.ts == ts && this.field == field
    {
      this.lhs, this.key, this.idx, this.ts, this.field, out := lhs, key, idx, ts, field, [];
    }

    /** Opens the scan, unless the join field of the first row taken cannot be read. */
    method BeforeFirst() returns (ok: bool)
      requires lhs.Valid() && lhs as object != ts as object && lhs as object != idx as object
      requires ts.Valid() && idx.Valid() && Agrees(idx.buckets, idx.hash, ts.blocks, field)
      modifies this`out, lhs, idx`searchKey, idx`ts
      ensures ok == key(lhs.TakenRows()[0]).Some?
      ensures ok ==> Valid() && out == [] && fresh(idx.ts) && lhs.pos == 0
    {
      out := [];
      lhs.BeforeFirst();
      var _ := lhs.Next();
      ok := ResetIndex();
    }

    /** reset_index: reads the join field of the current left row. */
    method ResetIndex() returns (ok: bool)
      requires lhs.Valid() && 0 <= lhs.pos < |lhs.TakenRows()| && idx.Valid()
      modifies idx`searchKey, idx`ts
      ensures ok == key(lhs.TakenRows()[lhs.pos]).Some?
      ensures ok ==> fresh(idx.ts) && idx.Open() && idx.Shown() == [] && key(lhs.TakenRows()[lhs.pos]) == Some(idx.searchKey)
      ensures !ok ==> idx.ts == old(idx.ts)
    {
      match key(lhs.Row())
      case None => return false;
      case Some(val) => idx.BeforeFirst(val);
        return true;
    }

    /** The index has shown everything under the current left row's key. */
    ghost predicate RowDone()
      reads this, lhs, ts, idx
    {
      && InputOk() && AllRead(key, lhs.TakenRows()[..lhs.pos + 1])
      && out == IndexPairs(lhs.TakenRows()[..lhs.pos + 1], Readable(key), idx.buckets, idx.hash)
    }

    /** The index is on an entry of the current left row's key: move to its row. */
    method MoveToEntry(ghost rid': Rid)
      requires Valid() && idx.ts.OnRecord() && rid' == RowAt(idx.ts.blocks, idx.ts.Here()).rid && rid' in idx.Shown()
      modifies ts
      ensures ts.blocks == old(ts.blocks) && ts.OnRecord() && ts.Here() == rid' && Valid()
    {
      var rid := idx.GetDataRid();
      idx.ShownIsStored(rid);
      FoundIsLive(idx.buckets, idx.hash, ts.blocks, field, idx.searchKey, rid);
      ts.MoveToRid(rid);
    }

    /** The current left row's pairs with the record ids shown are out. */
    ghost predicate OutWith(shown: seq<Rid>)
      requires InputOk()
      reads this, lhs, ts, idx
    {
      && key(lhs.TakenRows()[lhs.pos]) == Some(idx.searchKey)
      && out == IndexPairs(lhs.TakenRows()[..lhs.pos], Readable(key), idx.buckets, idx.hash) + RowOf(lhs.TakenRows()[lhs.pos], shown)
    }

    /** The index goes on; nothing else does. */
    method NextIndexEntry() returns (found: bool)
      requires Valid()
      modifies idx.ts
      ensures InputOk() && idx.Open() && OutWith(old(idx.Shown()))
      ensures found ==> idx.ts.OnRecord() && idx.Shown() == old(idx.Shown()) + [RowAt(idx.ts.blocks, idx.ts.Here()).rid]
      ensures !found ==> old(idx.Shown()) == Under(idx.buckets, idx.hash, idx.searchKey)
    {
      found := idx.Next();
    }

    /** One more pair: the current left row with the entry's row. */
    method Emit(ghost shown: seq<Rid>)
      requires InputOk() && idx.Open() && OutWith(shown) && idx.ts.OnRecord()
      requires idx.Shown() == shown + [RowAt(idx.ts.blocks, idx.ts.Here()).rid]
      modifies this`out, ts
      ensures ts.blocks == old(ts.blocks) && Valid() && ts.OnRecord()
      ensures out == old(out) + [(lhs.TakenRows()[lhs.pos], ts.Here())]
    {
      ghost var rid := RowAt(idx.ts.blocks, idx.ts.Here()).rid;
      assert idx.Shown()[|shown|] == rid;
      AddPair(shown, rid);
      MoveToEntry(rid);
    }

    ghost method AddPair(shown: seq<Rid>, rid: Rid)
      requires InputOk() && OutWith(shown)
      modifies this`out
      ensures InputOk() && OutWith(shown + [rid]) && out == old(out) + [(lhs.TakenRows()[lhs.pos], rid)]
    {
      var l := lhs.TakenRows()[lhs.pos];
      RowGrows(IndexPairs(lhs.TakenRows()[..lhs.pos], Readable(key), idx.buckets, idx.hash), l, shown, rid);
      out := out + [(l, rid)];
    }

    lemma AllShown(shown: seq<Rid>)
      requires InputOk() && OutWith(shown) && shown == Under(idx.buckets, idx.hash, idx.searchKey)
      ensures RowDone()
    {
      RowRead(key, lhs.TakenRows(), lhs.pos, idx.searchKey);
      PairsOver(lhs.TakenRows(), Readable(key), idx.buckets, idx.hash, lhs.pos, out, shown);
    }

    /** The next entry under the current left row's key. */
    method NextEntry() returns (found: bool)
      requires Valid()
      modifies this`out, ts, idx.ts
      ensures ts.blocks == old(ts.blocks)
      ensures found ==> Valid() && ts.OnRecord() && out == old(out) + [(lhs.TakenRows()[lhs.pos], ts.Here())]
      ensures !found ==> RowDone() && out == old(out)
    {
      ghost var shown := idx.Shown();
      found := NextIndexEntry();
      if found {
        Emit(shown);
      } else {
        AllShown(shown);
      }
    }

    /** The next left row, if there is one: its join field is read, if it can be. */
    method NextLeft() returns (r: Outcome)
      requires RowDone()
      modifies lhs, idx`searchKey, idx`ts
      ensures r.Shows? ==> Valid() && fresh(idx.ts) && lhs.pos == old(lhs.pos) + 1
      ensures !r.Shows? ==> idx.ts == old(idx.ts)
      ensures r.Ends? ==> AllJoined()
      ensures r.Throws? ==> ThrowsHere()
    {
      ghost var i := lhs.pos;
      var more := lhs.Next();
      if !more {
        assert lhs.TakenRows()[..i + 1] == lhs.TakenRows();
        IndexJoinIsJoin(lhs.TakenRows(), Readable(key), idx.buckets, idx.hash, ts.blocks, field);
        return Ends;
      }
      var ok := ResetIndex();
      if !ok {
        return Throws;
      }
      RowStarts<A, Rid>(out, lhs.TakenRows()[lhs.pos]);
      return Shows;
    }

    /** The pairs emitted are those of the equi-join of all rows taken. */
    ghost predicate AllJoined()
      reads this, lhs, ts
    {
      && AllRead(key, lhs.TakenRows()) && PairsInFile(ts.blocks, out)
      && multiset(ShowRows(ts.blocks, out)) ==
         multiset(Join(Readable(key), (r: Row) => FieldOf(r, field), lhs.TakenRows(), UsedRows(ts.blocks)))
    }

    /** The current left row has no readable join field; all pairs of the rows before it are out. */
    ghost predicate ThrowsHere()
      requires idx.Valid()
      reads this, lhs, idx
    {
      && 0 <= lhs.pos < |lhs.TakenRows()| && key(lhs.TakenRows()[lhs.pos]).None?
      && out == IndexPairs(lhs.TakenRows()[..lhs.pos], Readable(key), idx.buckets, idx.hash)
    }

    /** One round of the loop below: another entry, or another left row. */
    method Try() returns (r: Outcome, emitted: bool)
      requires Valid()
      modifies this`out, lhs, ts, idx`searchKey, idx`ts, idx.ts
      ensures emitted ==> r.Shows? && Valid() && ts.OnRecord() && out == old(out) + [(lhs.TakenRows()[lhs.pos], ts.Here())]
      ensures !emitted && r.Shows? ==> Valid() && out == old(out) && lhs.pos == old(lhs.pos) + 1
      ensures r.Ends? ==> out == old(out) && AllJoined()
      ensures r.Throws? ==> idx.Valid() && out == old(out) && ThrowsHere()
      ensures ts.blocks == old(ts.blocks) && (idx.ts == old(idx.ts) || fresh(idx.ts))
    {
      emitted := NextEntry();
      if emitted {
        return Shows, true;
      }
      r := NextLeft();
    }

    /**
     Emits a pair, or finds all pairs of the equi-join emitted, or stops at a left row without a
     readable join field. As written, before_first does not notice that there is no left row: the join
     then starts with whatever reading the left scan behind its end gives. TakenIsJoin says when that
     matters.
     */
    method Next() returns (r: Outcome)
      requires Valid()
      modifies this`out, lhs, ts, idx`searchKey, idx`ts, idx.ts
      ensures r.Shows? ==> Valid() && ts.OnRecord() && out == old(out) + [(lhs.TakenRows()[lhs.pos], ts.Here())]
      ensures r.Ends? ==> out == old(out) && AllJoined()
      ensures r.Throws? ==> idx.Valid() && out == old(out) && ThrowsHere()
      ensures ts.blocks == old(ts.blocks) && (idx.ts == old(idx.ts) || fresh(idx.ts))
    {
      while true
        invariant Valid() && out == old(out) && ts.blocks == old(ts.blocks) && (idx.ts == old(idx.ts) || fresh(idx.ts))
        decreases |lhs.TakenRows()| - lhs.pos
      {
        var emitted;
        r, emitted := Try();
        if emitted || !r.Shows? {
          return;
        }
      }
    }
  }
}
