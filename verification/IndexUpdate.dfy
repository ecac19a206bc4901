/**
 The update planner: it changes the rows of a table and, with every change, the entries of the
 table's indexes.
 */
module IndexUpdates {
  import opened DbTypes
  import opened HeapFiles
  import opened HashIndexes
  import opened IndexAgreement

  ghost predicate IndexOk(index: Index, perBlock: nat) {
    |index| > 0 && forall b :: 0 <= b < |index| ==> BucketOk(index[b], perBlock)
  }

  ghost predicate EntriesOfAll(idxFields: seq<string>, before: map<string, Index>, indexes: map<string, Index>,
                               hash: Value -> nat,
                               fields: seq<string>, vals: seq<Value>, n: nat, rid: Rid)
    requires n <= |fields| && n <= |vals|
  {
    forall f :: f in idxFields ==>
      f in before && f in indexes && EntriesAdded(before[f], indexes[f], hash, fields, vals, n, f, rid)
  }

  // ---------- a pass over the rows that match a predicate ----------

  /** The rows that match, as record ids. */
  ghost function Matching(table: Table, pred: Row -> bool): set<Rid> {
    set b: nat, s: nat | b < |table| && s < |table[b]| && table[b][s].used && pred(table[b][s].row) :: Rid(b, s)
  }

  lemma InMatching(table: Table, pred: Row -> bool, r: Rid)
    ensures r in Matching(table, pred) <==> Live(table, r) && pred(RowAt(table, r))
  {
    if Live(table, r) && pred(RowAt(table, r)) {
      var b: nat, s: nat := r.blk, r.slot;
      assert table[b][s].used && Rid(b, s) == r;
    }
  }

  /** Not behind the position (b, s). */
  predicate Reached(r: Rid, b: int, s: int) {
    !Behind(b, s, r.blk, r.slot)
  }

  ghost function MatchingUpTo(table: Table, pred: Row -> bool, b: int, s: int): set<Rid> {
    set r | r in Matching(table, pred) && Reached(r, b, s)
  }

  /** The rows before a pass and now: a matching row that was reached is what change makes of it, or gone; all others are as before. */
  ghost predicate PassedAt(table: Table, table': Table, pred: Row -> bool, change: Option<Row -> Row>, b: int, s: int,
                           r: Rid) {
    if Live(table, r) && pred(RowAt(table, r)) && Reached(r, b, s) then
      if change.Some? then Live(table', r) && RowAt(table', r) == change.value(RowAt(table, r)) else !Live(table', r)
    else
      Live(table', r) == Live(table, r) && (Live(table, r) ==> RowAt(table', r) == RowAt(table, r))
  }

  ghost predicate PassedUpTo(table: Table, table': Table, pred: Row -> bool, change: Option<Row -> Row>, b: int,
                             s: int) {
    forall r: Rid :: PassedAt(table, table', pred, change, b, s, r)
  }

  /** The pass is over: every matching row is changed or gone. */
  ghost predicate PassOver(table: Table, table': Table, pred: Row -> bool, change: Option<Row -> Row>) {
    PassedUpTo(table, table', pred, change, |table|, 0)
  }

  lemma PassStarts(table: Table, pred: Row -> bool, change: Option<Row -> Row>)
    ensures PassedUpTo(table, table, pred, change, 0, -1) && MatchingUpTo(table, pred, 0, -1) == {}
  {
    forall r | r in MatchingUpTo(table, pred, 0, -1)
      ensures false
    {
      InMatching(table, pred, r);
    }
  }

  /** One more row reached: it is changed if it matches. */
  lemma PassStep(table: Table, mid: Table, table': Table, pred: Row -> bool, change: Option<Row -> Row>, b: int,
                 s: int, rid: Rid)
    requires PassedUpTo(table, mid, pred, change, b, s) && Behind(b, s, rid.blk, rid.slot)
    requires NoneBetween(mid, b, s, rid.blk, rid.slot, true) && Live(mid, rid) && SameExcept(mid, table', rid)
    requires if !pred(RowAt(mid, rid)) then Live(table', rid) && RowAt(table', rid) == RowAt(mid, rid)
             else if change.Some? then Live(table', rid) && RowAt(table', rid) == change.value(RowAt(mid, rid))
             else !Live(table', rid)
    ensures PassedUpTo(table, table', pred, change, rid.blk, rid.slot)
    ensures MatchingUpTo(table, pred, rid.blk, rid.slot) ==
            MatchingUpTo(table, pred, b, s) + if pred(RowAt(mid, rid)) then {rid} else {}
    ensures rid !in MatchingUpTo(table, pred, b, s)
  {
    forall r: Rid
      ensures PassedAt(table, table', pred, change, rid.blk, rid.slot, r)
      ensures r in MatchingUpTo(table, pred, rid.blk, rid.slot) <==>
              r in MatchingUpTo(table, pred, b, s) || (r == rid && pred(RowAt(mid, rid)))
    {
      assert PassedAt(table, mid, pred, change, b, s, r);
      InMatching(table, pred, r);
      if r != rid && Reached(r, rid.blk, rid.slot) && !Reached(r, b, s) {
        assert Between(b, s, r, rid.blk, rid.slot, true);
      }
    }
  }

  lemma PassEnds(table: Table, table': Table, pred: Row -> bool, change: Option<Row -> Row>, b: int, s: int, b': int,
                 s': int)
    requires PassedUpTo(table, table', pred, change, b, s) && NoneBetween(table', b, s, b', s', false)
    ensures PassOver(table, table', pred, change) && MatchingUpTo(table, pred, b, s) == Matching(table, pred)
  {
    forall r: Rid
      ensures PassedAt(table, table', pred, change, |table|, 0, r)
      ensures r in MatchingUpTo(table, pred, b, s) <==> r in Matching(table, pred)
    {
      assert PassedAt(table, table', pred, change, b, s, r);
      InMatching(table, pred, r);
      if !Reached(r, b, s) {
        assert Between(b, s, r, b', s', false);
      }
    }
  }

  /** A deletion leaves the rows that do not match, as they were. */
  lemma DeletedIs(was: Table, now: Table, pred: Row -> bool)
    ensures PassOver(was, now, pred, None) <==>
            forall r: Rid ::
              && (Live(now, r) <==> Live(was, r) && !pred(RowAt(was, r)))
              && (Live(now, r) ==> RowAt(now, r) == RowAt(was, r))
  {
    assert forall r: Rid :: Live(was, r) ==> Reached(r, |was|, 0);
    assert forall r: Rid ::
        PassedAt(was, now, pred, None, |was|, 0, r) <==>
        && (Live(now, r) <==> Live(was, r) && !pred(RowAt(was, r)))
        && (Live(now, r) ==> RowAt(now, r) == RowAt(was, r));
  }

  /** A modification keeps all rows and gives those that match a new value in one field. */
  lemma ModifiedIs(was: Table, now: Table, pred: Row -> bool, field: string, value: Row -> Value)
    ensures PassOver(was, now, pred, Some((row: Row) => row[field := value(row)])) <==>
            forall r: Rid ::
              && (Live(now, r) <==> Live(was, r))
              && (Live(was, r) ==>
                    var row := RowAt(was, r);
                    RowAt(now, r) == if pred(row) then row[field := value(row)] else row)
  {
    var change := Some((row: Row) => row[field := value(row)]);
    assert forall r: Rid :: Live(was, r) ==> Reached(r, |was|, 0);
    assert forall r: Rid ::
        PassedAt(was, now, pred, change, |was|, 0, r) <==>
        && (Live(now, r) <==> Live(was, r))
        && (Live(was, r) ==> var row := RowAt(was, r); RowAt(now, r) == if pred(row) then row[field := value(row)] else row);
  }

  lemma {:induction false} LastGiven(row: Row, fields: seq<string>, vals: seq<Value>, n: nat, f: string)
    requires n <= |fields| && n <= |vals|
    ensures f !in fields[..n] ==>
              (f in RowWith(row, fields, vals, n) <==> f in row) && (f in row ==> RowWith(row, fields, vals, n)[f] == row[f])
    ensures forall k :: 0 <= k < n && fields[k] == f && f !in fields[k + 1..n] ==>
              f in RowWith(row, fields, vals, n) && RowWith(row, fields, vals, n)[f] == vals[k]
    decreases n
  {
    if n > 0 {
      LastGiven(row, fields, vals, n - 1, f);
      assert fields[..n] == fields[..n - 1] + [fields[n - 1]];
      forall k | 0 <= k < n && fields[k] == f && f !in fields[k + 1..n]
        ensures f in RowWith(row, fields, vals, n) && RowWith(row, fields, vals, n)[f] == vals[k]
      {
        if k < n - 1 {
          assert fields[k + 1..n] == fields[k + 1..n - 1] + [fields[n - 1]];
        }
      }
    }
  }

  /** The row has the value given last for a field, and what was there where none is given. */
  ghost predicate Given(row: Row, was: Row, fields: seq<string>, vals: seq<Value>)
    requires |fields| <= |vals|
  {
    && (forall f :: f !in fields ==> (f in row <==> f in was) && (f in was ==> row[f] == was[f]))
    && (forall k :: 0 <= k < |fields| && fields[k] !in fields[k + 1..] ==> fields[k] in row && row[fields[k]] == vals[k])
  }

  lemma RowGiven(row: Row, fields: seq<string>, vals: seq<Value>)
    requires |fields| <= |vals|
    ensures Given(RowWith(row, fields, vals, |fields|), row, fields, vals)
  {
    var n := |fields|;
    forall f
      ensures f !in fields ==>
                (f in RowWith(row, fields, vals, n) <==> f in row) && (f in row ==> RowWith(row, fields, vals, n)[f] == row[f])
    {
      LastGiven(row, fields, vals, n, f);
    }
    forall k | 0 <= k < n && fields[k] !in fields[k + 1..]
      ensures fields[k] in RowWith(row, fields, vals, n) && RowWith(row, fields, vals, n)[fields[k]] == vals[k]
    {
      LastGiven(row, fields, vals, n, fields[k]);
      assert fields[k + 1..n] == fields[k + 1..];
    }
  }

  // ---------- the planner on one table ----------

  class IndexedTable {
    const hash: Value -> nat
    const perBlock: nat
    const idxPerBlock: nat
    const emptyRow: Row
    const idxFields: seq<string>
    var table: Table
    var indexes: map<string, Index>

    ghost predicate IndexesOk()
      reads this
    {
      idxPerBlock > 0 && forall f :: f in idxFields ==> f in indexes && IndexOk(indexes[f], idxPerBlock)
    }

    ghost predicate Valid()
      reads this
    {
      perBlock > 0 && FileOk(table, perBlock) && IndexesOk() && forall i, j :: 0 <= i < j < |idxFields| ==> idxFields[i] != idxFields[j]
    }

    /** Every index holds exactly the (value, record id) pairs of the live rows of t. */
    ghost predicate AllAgree(t: Table)
      reads this
    {
      forall f :: f in idxFields ==> f in indexes && Agrees(indexes[f], hash, t, f)
    }

    /** An empty table with empty indexes of so many buckets. */
    constructor (hash: Value -> nat, numBuckets: nat, perBlock: nat, idxPerBlock: nat, emptyRow: Row,
                 idxFields: seq<string>)
      requires numBuckets > 0 && perBlock > 0 && idxPerBlock > 0
      requires forall i, j :: 0 <= i < j < |idxFields| ==> idxFields[i] != idxFields[j]
      ensures Valid() && AllAgree(table) && UsedRows(table) == []
      ensures this.hash == hash && this.idxFields == idxFields
    {
      this.hash, this.perBlock, this.idxPerBlock, this.emptyRow, this.idxFields := hash, perBlock, idxPerBlock, emptyRow, idxFields;
      indexes := map f | f in idxFields :: seq(numBuckets, _ => []);
      var s := new TableScan([], perBlock, emptyRow);
      table := s.blocks;
      new;
      forall f | f in idxFields
        ensures IndexOk(indexes[f], idxPerBlock) && Agrees(indexes[f], hash, table, f)
      {
        forall val: Value, rid: Rid
          ensures AgreesAt(indexes[f], hash, table, f, val, rid)
        {
        }
      }
    }

    method OpenIndex(f: string) returns (idx: HashIndex<Value>)
      requires IndexesOk() && f in idxFields
      ensures fresh(idx) && fresh(idx.ts) && idx.Valid() && idx.buckets == indexes[f] && idx.hash == hash
      ensures idx.perBlock == idxPerBlock
    {
      idx := new HashIndex(hash, indexes[f], idxPerBlock, IdxEntry(Zero, Rid(0, 0)));
    }

    method InsertEntry(f: string, val: Value, rid: Rid)
      requires IndexesOk() && f in idxFields
      modifies this`indexes
      ensures IndexesOk() && indexes == old(indexes)[f := indexes[f]]
      ensures Added(old(indexes)[f], indexes[f], hash, val, rid)
    {
      var idx := OpenIndex(f);
      idx.Insert(val, rid);
      InsertAdds(indexes[f], idx.buckets, hash, val, rid);
      indexes := indexes[f := idx.buckets];
    }

    method DeleteEntry(f: string, val: Value, rid: Rid)
      requires IndexesOk() && f in idxFields
      modifies this`indexes
      ensures IndexesOk() && indexes == old(indexes)[f := indexes[f]]
      ensures Removed(old(indexes)[f], indexes[f], hash, val, rid)
    {
      var idx := OpenIndex(f);
      idx.DeleteRecord(val, rid);
      DeleteRemoves(indexes[f], idx.buckets, hash, val, rid);
      indexes := indexes[f := idx.buckets];
    }

    // ---------- insert ----------

    /** The entry of assignment i, if its field has an index. */
    method InsertIndexed(fields: seq<string>, vals: seq<Value>, i: nat, rid: Rid, ghost before: map<string, Index>)
      requires IndexesOk() && i < |fields| <= |vals|
      requires EntriesOfAll(idxFields, before, indexes, hash, fields, vals, i, rid)
      modifies this`indexes
      ensures IndexesOk() && EntriesOfAll(idxFields, before, indexes, hash, fields, vals, i + 1, rid)
    {
      ghost var mid := indexes;
      if fields[i] in idxFields {
        InsertEntry(fields[i], vals[i], rid);
      }
      forall f | f in idxFields
        ensures f in before && f in indexes && EntriesAdded(before[f], indexes[f], hash, fields, vals, i + 1, f, rid)
      {
        OneMoreEntry(before[f], mid[f], indexes[f], hash, fields, vals, i, f, rid);
      }
    }

    /** The first i assignments of an insert are done: the table held was, the indexes before. */
    ghost predicate Filling(s: TableScan<Row>, was: Table, before: map<string, Index>, stale: Row, fields: seq<string>,
                            vals: seq<Value>, i: nat, rid: Rid)
      requires i <= |fields| <= |vals|
      reads this, s
    {
      && IndexesOk() && EntriesOfAll(idxFields, before, indexes, hash, fields, vals, i, rid)
      && s.OnRecord() && s.Here() == rid && s.perBlock == perBlock
      && SameExcept(was, s.blocks, rid) && RowAt(s.blocks, rid) == RowWith(stale, fields, vals, i)
    }

    method Assign(s: TableScan<Row>, fields: seq<string>, vals: seq<Value>, i: nat,
                  ghost was: Table, ghost before: map<string, Index>, ghost stale: Row, ghost rid: Rid)
      requires i < |fields| <= |vals| && Filling(s, was, before, stale, fields, vals, i, rid)
      modifies this`indexes, s`blocks
      ensures Filling(s, was, before, stale, fields, vals, i + 1, rid)
    {
      ghost var mid := s.blocks;
      var row := s.Get();
      s.Set(row[fields[i] := vals[i]]);
      SameTwice(was, mid, s.blocks, rid);
      var id := s.Here();
      InsertIndexed(fields, vals, i, id, before);
    }

    method AssignAll(s: TableScan<Row>, fields: seq<string>, vals: seq<Value>,
                     ghost was: Table, ghost before: map<string, Index>, ghost stale: Row, ghost rid: Rid)
      requires |fields| <= |vals| && Filling(s, was, before, stale, fields, vals, 0, rid)
      modifies this`indexes, s`blocks
      ensures Filling(s, was, before, stale, fields, vals, |fields|, rid)
    {
      var i := 0;
      while i < |fields|
        invariant 0 <= i <= |fields| && Filling(s, was, before, stale, fields, vals, i, rid)
      {
        Assign(s, fields, vals, i, was, before, stale, rid);
        i := i + 1;
      }
    }

    /** Open the table and take a free slot. */
    method TakeSlot(fields: seq<string>, vals: seq<Value>) returns (s: TableScan<Row>, ghost stale: Row)
      requires Valid() && |fields| <= |vals|
      ensures fresh(s) && Filling(s, table, indexes, stale, fields, vals, 0, s.Here()) && !Live(table, s.Here())
      ensures stale == if InFile(table, s.Here()) then RowAt(table, s.Here()) else emptyRow
    {
      s := new TableScan(table, perBlock, emptyRow);
      s.Insert();
      stale := RowAt(s.blocks, s.Here());
      NoEntriesYet(s.Here(), fields, vals);
    }

    /**
     execute_insert. A row takes a free slot, whose old field values it keeps where none is given.
     The indexes agree with the table afterwards exactly when every indexed field is given once.
     */
    method ExecuteInsert(fields: seq<string>, vals: seq<Value>) returns (ghost rid: Rid, ghost stale: Row)
      requires Valid() && AllAgree(table) && |fields| <= |vals|
      modifies this`table, this`indexes
      ensures Valid() && !Live(old(table), rid) && Live(table, rid) && SameExcept(old(table), table, rid)
      ensures stale == (if InFile(old(table), rid) then RowAt(old(table), rid) else emptyRow) && Given(RowAt(table, rid), stale, fields, vals)
      ensures AllAgree(table) <==> forall f :: f in idxFields ==> Once(fields, f)
    {
      ghost var before := indexes;
      var s;
      s, stale := TakeSlot(fields, vals);
      rid := s.Here();
      AssignAll(s, fields, vals, table, before, stale, rid);
      table := s.blocks;
      RowGiven(stale, fields, vals);
      AgreeAfterInsert(before, old(table), stale, fields, vals, rid);
    }

    lemma NoEntriesYet(rid: Rid, fields: seq<string>, vals: seq<Value>)
      requires IndexesOk()
      ensures EntriesOfAll(idxFields, indexes, indexes, hash, fields, vals, 0, rid)
    {
      forall f | f in idxFields
        ensures f in indexes && EntriesAdded(indexes[f], indexes[f], hash, fields, vals, 0, f, rid)
      {
        forall v: Value, r: Rid
          ensures EntriesAt(indexes[f], indexes[f], hash, fields, vals, 0, f, rid, v, r)
        {
        }
      }
    }

    lemma AgreeAfterInsert(before: map<string, Index>, was: Table, stale: Row, fields: seq<string>, vals: seq<Value>,
                           rid: Rid)
      requires |fields| <= |vals| && EntriesOfAll(idxFields, before, indexes, hash, fields, vals, |fields|, rid)
      requires forall f :: f in idxFields ==> f in before && Agrees(before[f], hash, was, f)
      requires !Live(was, rid) && Live(table, rid) && SameExcept(was, table, rid)
      requires RowAt(table, rid) == RowWith(stale, fields, vals, |fields|)
      ensures AllAgree(table) <==> forall f :: f in idxFields ==> Once(fields, f)
    {
      forall f | f in idxFields
        ensures f in indexes && (Agrees(indexes[f], hash, table, f) <==> Once(fields, f))
      {
        RowAdded(before[f], indexes[f], hash, was, table, stale, fields, vals, f, rid);
      }
    }

    // ---------- delete ----------

    /** The entries of a row go from all indexes. */
    method DeleteEntries(row: Row, rid: Rid)
      requires IndexesOk() && forall i, j :: 0 <= i < j < |idxFields| ==> idxFields[i] != idxFields[j]
      modifies this`indexes
      ensures IndexesOk()
      ensures forall f :: f in idxFields ==>
                f in old(indexes) && Removed(old(indexes)[f], indexes[f], hash, FieldOf(row, f), rid)
    {
      var i := 0;
      while i < |idxFields|
        invariant 0 <= i <= |idxFields| && IndexesOk()
        invariant forall k :: 0 <= k < i ==>
                    idxFields[k] in old(indexes) && Removed(old(indexes)[idxFields[k]], indexes[idxFields[k]], hash, FieldOf(row, idxFields[k]), rid)
        invariant forall k :: i <= k < |idxFields| ==>
                  idxFields[k] in old(indexes) && indexes[idxFields[k]] == old(indexes)[idxFields[k]]
      {
        var f := idxFields[i];
        assert forall k :: 0 <= k < |idxFields| && k != i ==> idxFields[k] != f;
        DeleteEntry(f, FieldOf(row, f), rid);
        i := i + 1;
      }
    }

    /** One row of a delete: its entries and the row itself. */
    method DeleteRow(s: TableScan<Row>)
      requires IndexesOk() && AllAgree(s.blocks) && s.OnRecord()
      requires forall i, j :: 0 <= i < j < |idxFields| ==> idxFields[i] != idxFields[j]
      modifies this`indexes, s`blocks
      ensures IndexesOk() && AllAgree(s.blocks) && s.Valid()
      ensures !Live(s.blocks, s.Here()) && SameExcept(old(s.blocks), s.blocks, s.Here())
      ensures |s.blocks| == |old(s.blocks)|
    {
      ghost var before, rid := indexes, s.Here();
      var row := s.Get();
      var id := s.Here();
      DeleteEntries(row, id);
      s.DeleteRecord();
      forall f | f in idxFields
        ensures f in indexes && Agrees(indexes[f], hash, s.blocks, f)
      {
        RowGone(before[f], indexes[f], hash, old(s.blocks), s.blocks, f, rid);
      }
    }

    /** Where a pass over the rows of was stands, and how many matching rows it has met. */
    ghost predicate Passing(s: TableScan<Row>, was: Table, pred: Row -> bool, change: Option<Row -> Row>, count: nat)
      reads this, s
    {
      && s.Valid() && s.perBlock == perBlock && IndexesOk() && AllAgree(s.blocks)
      && (forall i, j :: 0 <= i < j < |idxFields| ==> idxFields[i] != idxFields[j])
      && PassedUpTo(was, s.blocks, pred, change, s.currBlk, s.currSlot)
      && count == |MatchingUpTo(was, pred, s.currBlk, s.currSlot)|
    }

    /** The next row, which goes if it matches. */
    method DeleteNext(s: TableScan<Row>, pred: Row -> bool, count: nat, ghost was: Table) returns (more: bool, n: nat)
      requires Passing(s, was, pred, None, count)
      modifies this`indexes, s
      ensures more ==> Passing(s, was, pred, None, n) && Behind(old(s.currBlk), old(s.currSlot), s.currBlk, s.currSlot)
      ensures more ==> |s.blocks| == |old(s.blocks)|
      ensures !more ==> s.Valid() && s.perBlock == perBlock && IndexesOk() && AllAgree(s.blocks)
      ensures !more ==> PassOver(was, s.blocks, pred, None) && n == |Matching(was, pred)|
    {
      ghost var b, slot, mid := s.currBlk, s.currSlot, s.blocks;
      n := count;
      more := s.Next();
      if !more {
        PassEnds(was, mid, pred, None, b, slot, s.currBlk, s.currSlot);
        return;
      }
      var row := s.Get();
      if pred(row) {
        DeleteRow(s);
        n := n + 1;
      }
      PassStep(was, mid, s.blocks, pred, None, b, slot, s.Here());
    }

    /** execute_delete: the matching rows go, with their entries. */
    method ExecuteDelete(pred: Row -> bool) returns (count: nat)
      requires Valid() && AllAgree(table)
      modifies this`table, this`indexes
      ensures Valid() && AllAgree(table) && PassOver(old(table), table, pred, None)
      ensures count == |Matching(old(table), pred)|
    {
      var s := new TableScan(table, perBlock, emptyRow);
      count := 0;
      PassStarts(table, pred, None);
      var more := true;
      while more
        invariant fresh(s) && (more ==> Passing(s, old(table), pred, None, count))
        invariant s.Valid() && s.perBlock == perBlock && IndexesOk() && AllAgree(s.blocks)
        invariant !more ==> PassOver(old(table), s.blocks, pred, None) && count == |Matching(old(table), pred)|
        decreases more, |s.blocks| - s.currBlk, perBlock - s.currSlot
      {
        more, count := DeleteNext(s, pred, count, old(table));
      }
      table := s.blocks;
    }

    // ---------- modify ----------

    /** One row of a modify: the field gets the value, and its entry follows. */
    method ModifyRow(s: TableScan<Row>, field: string, newVal: Value)
      requires IndexesOk() && AllAgree(s.blocks) && s.OnRecord()
      modifies this`indexes, s`blocks
      ensures IndexesOk() && AllAgree(s.blocks) && s.OnRecord() && |s.blocks| == |old(s.blocks)|
      ensures RowAt(s.blocks, s.Here()) == old(RowAt(s.blocks, s.Here()))[field := newVal]
      ensures SameExcept(old(s.blocks), s.blocks, s.Here())
    {
      ghost var before, rid := indexes, s.Here();
      var row := s.Get();
      var oldVal := FieldOf(row, field);
      s.Set(row[field := newVal]);
      ghost var mid := indexes;
      if field in idxFields {
        var id := s.Here();
        DeleteEntry(field, oldVal, id);
        mid := indexes;
        InsertEntry(field, newVal, id);
        RowChanged(before[field], mid[field], indexes[field], hash, old(s.blocks), s.blocks, field, rid);
      }
      forall f | f in idxFields && f != field
        ensures f in indexes && Agrees(indexes[f], hash, s.blocks, f)
      {
        OtherField(before[f], hash, old(s.blocks), s.blocks, f, rid);
      }
    }

    /** The next row, which gets the new value if it matches. */
    method ModifyNext(s: TableScan<Row>, field: string, value: Row -> Value, pred: Row -> bool, count: nat,
                      ghost was: Table, ghost change: Option<Row -> Row>) returns (more: bool, n: nat)
      requires Passing(s, was, pred, change, count) && change == Some((row: Row) => row[field := value(row)])
      modifies this`indexes, s
      ensures more ==> Passing(s, was, pred, change, n) && Behind(old(s.currBlk), old(s.currSlot), s.currBlk, s.currSlot)
      ensures more ==> |s.blocks| == |old(s.blocks)|
      ensures !more ==> s.Valid() && s.perBlock == perBlock && IndexesOk() && AllAgree(s.blocks)
      ensures !more ==> PassOver(was, s.blocks, pred, change) && n == |Matching(was, pred)|
    {
      ghost var b, slot, mid := s.currBlk, s.currSlot, s.blocks;
      n := count;
      more := s.Next();
      if !more {
        PassEnds(was, mid, pred, change, b, slot, s.currBlk, s.currSlot);
        return;
      }
      var row := s.Get();
      if pred(row) {
        ModifyRow(s, field, value(row));
        n := n + 1;
      }
      PassStep(was, mid, s.blocks, pred, change, b, slot, s.Here());
    }

    /** execute_modify: the matching rows get a new value in one field, computed from the row as it was. */
    method ExecuteModify(field: string, value: Row -> Value, pred: Row -> bool) returns (count: nat)
      requires Valid() && AllAgree(table)
      modifies this`table, this`indexes
      ensures Valid() && AllAgree(table)
      ensures PassOver(old(table), table, pred, Some((row: Row) => row[field := value(row)]))
      ensures count == |Matching(old(table), pred)|
    {
      ghost var change := Some((row: Row) => row[field := value(row)]);
      var s := new TableScan(table, perBlock, emptyRow);
      count := 0;
      PassStarts(table, pred, change);
      var more := true;
      while more
        invariant fresh(s) && (more ==> Passing(s, old(table), pred, change, count))
        invariant s.Valid() && s.perBlock == perBlock && IndexesOk() && AllAgree(s.blocks)
        invariant !more ==> PassOver(old(table), s.blocks, pred, change) && count == |Matching(old(table), pred)|
        decreases more, |s.blocks| - s.currBlk, perBlock - s.currSlot
      {
        more, count := ModifyNext(s, field, value, pred, count, old(table), change);
      }
      table := s.blocks;
    }
  }

  // ---------- runs ----------

  datatype Statement =
    | InsertRow(fields: seq<string>, vals: seq<Value>)
    | DeleteRows(pred: Row -> bool)
    | ModifyRows(field: string, value: Row -> Value, pred: Row -> bool)

  /** An insertion gives every indexed field one value. */
  ghost predicate SetsIndexed(st: Statement, idxFields: seq<string>) {
    st.InsertRow? ==> |st.fields| <= |st.vals| && forall f :: f in idxFields ==> Once(st.fields, f)
  }

  /** What the statement has done to the table. */
  ghost predicate Done(st: Statement, emptyRow: Row, was: Table, now: Table) {
    match st
    case InsertRow(fields, vals) => |fields| <= |vals| && exists rid :: RowIn(was, now, rid, emptyRow, fields, vals)
    case DeleteRows(pred) => PassOver(was, now, pred, None)
    case ModifyRows(field, value, pred) => PassOver(was, now, pred, Some((row: Row) => row[field := value(row)]))
  }

  /** One more row at rid, with the values given. */
  ghost predicate RowIn(was: Table, now: Table, rid: Rid, emptyRow: Row, fields: seq<string>, vals: seq<Value>)
    requires |fields| <= |vals|
  {
    && !Live(was, rid) && Live(now, rid) && SameExcept(was, now, rid)
    && Given(RowAt(now, rid), if InFile(was, rid) then RowAt(was, rid) else emptyRow, fields, vals)
  }

  method Execute(t: IndexedTable, st: Statement)
    requires t.Valid() && t.AllAgree(t.table) && SetsIndexed(st, t.idxFields)
    modifies t
    ensures t.Valid() && t.AllAgree(t.table) && Done(st, t.emptyRow, old(t.table), t.table)
  {
    match st
    case InsertRow(fields, vals) =>
      ghost var rid, _ := t.ExecuteInsert(fields, vals);
      assert RowIn(old(t.table), t.table, rid, t.emptyRow, fields, vals);
    case DeleteRows(pred) => var _ := t.ExecuteDelete(pred);
    case ModifyRows(field, value, pred) => var _ := t.ExecuteModify(field, value, pred);
  }

  /**
   Over any run of statements the table goes from each state to the next as its statement says, and every
   index holds exactly the pairs (field value, record id) of the live rows.
   */
  method Run(t: IndexedTable, statements: seq<Statement>) returns (ghost tables: seq<Table>)
    requires t.Valid() && t.AllAgree(t.table)
    requires forall k :: 0 <= k < |statements| ==> SetsIndexed(statements[k], t.idxFields)
    modifies t
    ensures t.Valid() && t.AllAgree(t.table)
    ensures |tables| == |statements| + 1 && tables[0] == old(t.table) && tables[|statements|] == t.table
    ensures forall k :: 0 <= k < |statements| ==> Done(statements[k], t.emptyRow, tables[k], tables[k + 1])
  {
    tables := [t.table];
    for k := 0 to |statements|
      invariant t.Valid() && t.AllAgree(t.table)
      invariant |tables| == k + 1 && tables[0] == old(t.table) && tables[k] == t.table
      invariant forall j :: 0 <= j < k ==> Done(statements[j], t.emptyRow, tables[j], tables[j + 1])
    {
      Execute(t, statements[k]);
      tables := tables + [t.table];
    }
  }
}
