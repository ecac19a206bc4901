/** When an index agrees with its table, and how single changes of either affect that. */
module IndexAgreement {
  import opened DbTypes
  import opened HeapFiles
  import opened HashIndexes

  type Row = map<string, Value>

  type Table = seq<Slots<Row>>

  type Index = seq<Bucket<Value>>

  function FieldOf(row: Row, field: string): Value {
    if field in row then row[field] else Zero
  }

  /** How often the index holds (val, rid). */
  ghost function Count(index: Index, hash: Value -> nat, val: Value, rid: Rid): nat
    requires |index| > 0
  {
    Bag(index[hash(val) % |index|])[IdxEntry(val, rid)]
  }

  /** The index holds the pair once if a live row of that id has the value, and otherwise not at all. */
  ghost predicate AgreesAt(index: Index, hash: Value -> nat, table: Table, field: string, val: Value, rid: Rid)
    requires |index| > 0
  {
    Count(index, hash, val, rid) == if Live(table, rid) && FieldOf(RowAt(table, rid), field) == val then 1 else 0
  }

  ghost predicate Agrees(index: Index, hash: Value -> nat, table: Table, field: string) {
    |index| > 0 && forall val: Value, rid: Rid :: AgreesAt(index, hash, table, field, val, rid)
  }

  // ---------- changes of an index ----------

  ghost predicate AddedAt(index: Index, index': Index, hash: Value -> nat, val: Value, rid: Rid, v: Value, r: Rid)
    requires |index| > 0 && |index'| > 0
  {
    Count(index', hash, v, r) == Count(index, hash, v, r) + if v == val && r == rid then 1 else 0
  }

  ghost predicate Added(index: Index, index': Index, hash: Value -> nat, val: Value, rid: Rid) {
    |index| > 0 && |index'| > 0 && forall v: Value, r: Rid :: AddedAt(index, index', hash, val, rid, v, r)
  }

  ghost predicate RemovedAt(index: Index, index': Index, hash: Value -> nat, val: Value, rid: Rid, v: Value, r: Rid)
    requires |index| > 0 && |index'| > 0
  {
    var n := Count(index, hash, v, r);
    Count(index', hash, v, r) == if v == val && r == rid && n > 0 then n - 1 else n
  }

  ghost predicate Removed(index: Index, index': Index, hash: Value -> nat, val: Value, rid: Rid) {
    |index| > 0 && |index'| > 0 && forall v: Value, r: Rid :: RemovedAt(index, index', hash, val, rid, v, r)
  }

  lemma BagMore(bag: multiset<IdxEntry<Value>>, e: IdxEntry<Value>, x: IdxEntry<Value>)
    ensures (bag + multiset{e})[x] == bag[x] + if x == e then 1 else 0
  {
  }

  lemma InsertAdds(index: Index, index': Index, hash: Value -> nat, val: Value, rid: Rid)
    requires |index| > 0 && |index'| == |index|
    requires
      var b := hash(val) % |index|;
      index' == index[b := index'[b]] && Bag(index'[b]) == Bag(index[b]) + multiset{IdxEntry(val, rid)}
    ensures Added(index, index', hash, val, rid)
  {
    forall v: Value, r: Rid
      ensures AddedAt(index, index', hash, val, rid, v, r)
    {
      var b := hash(val) % |index|;
      BagMore(Bag(index[b]), IdxEntry(val, rid), IdxEntry(v, r));
      assert hash(v) % |index| != b ==> index'[hash(v) % |index|] == index[hash(v) % |index|];
    }
  }

  lemma BagLess(bag: multiset<IdxEntry<Value>>, e: IdxEntry<Value>, x: IdxEntry<Value>)
    ensures (bag - multiset{e})[x] == if x == e && bag[x] > 0 then bag[x] - 1 else bag[x]
  {
  }

  lemma DeleteRemoves(index: Index, index': Index, hash: Value -> nat, val: Value, rid: Rid)
    requires |index| > 0 && |index'| == |index|
    requires
      var b := hash(val) % |index|;
      index' == index[b := index'[b]] && Bag(index'[b]) == Bag(index[b]) - multiset{IdxEntry(val, rid)}
    ensures Removed(index, index', hash, val, rid)
  {
    forall v: Value, r: Rid
      ensures RemovedAt(index, index', hash, val, rid, v, r)
    {
      var b := hash(val) % |index|;
      BagLess(Bag(index[b]), IdxEntry(val, rid), IdxEntry(v, r));
      assert hash(v) % |index| != b ==> index'[hash(v) % |index|] == index[hash(v) % |index|];
    }
  }

  // ---------- changes of both ----------

  /** A live row of rid goes, and so does its entry. */
  lemma RowGone(index: Index, index': Index, hash: Value -> nat, table: Table, table': Table, field: string, rid: Rid)
    requires Agrees(index, hash, table, field) && Live(table, rid)
    requires Removed(index, index', hash, FieldOf(RowAt(table, rid), field), rid)
    requires SameExcept(table, table', rid) && !Live(table', rid)
    ensures Agrees(index', hash, table', field)
  {
    forall val: Value, r: Rid
      ensures AgreesAt(index', hash, table', field, val, r)
    {
      assert AgreesAt(index, hash, table, field, val, r);
      assert RemovedAt(index, index', hash, FieldOf(RowAt(table, rid), field), rid, val, r);
    }
  }

  /** A live row of rid gets another value in the field, and its entry follows. */
  lemma RowChanged(index: Index, mid: Index, index': Index, hash: Value -> nat, table: Table, table': Table,
                   field: string, rid: Rid)
    requires Agrees(index, hash, table, field) && Live(table, rid) && Live(table', rid)
    requires SameExcept(table, table', rid)
    requires Removed(index, mid, hash, FieldOf(RowAt(table, rid), field), rid)
    requires Added(mid, index', hash, FieldOf(RowAt(table', rid), field), rid)
    ensures Agrees(index', hash, table', field)
  {
    var before, after := FieldOf(RowAt(table, rid), field), FieldOf(RowAt(table', rid), field);
    forall val: Value, r: Rid
      ensures AgreesAt(index', hash, table', field, val, r)
    {
      assert AgreesAt(index, hash, table, field, val, r);
      assert RemovedAt(index, mid, hash, before, rid, val, r);
      assert AddedAt(mid, index', hash, after, rid, val, r);
    }
  }

  /** A live row of rid changes, but not in the field. */
  lemma OtherField(index: Index, hash: Value -> nat, table: Table, table': Table, field: string, rid: Rid)
    requires Agrees(index, hash, table, field) && Live(table, rid) && Live(table', rid)
    requires SameExcept(table, table', rid)
    requires FieldOf(RowAt(table', rid), field) == FieldOf(RowAt(table, rid), field)
    ensures Agrees(index, hash, table', field)
  {
    forall val: Value, r: Rid
      ensures AgreesAt(index, hash, table', field, val, r)
    {
      assert AgreesAt(index, hash, table, field, val, r);
    }
  }

  // ---------- a new row ----------

  /** How often the first n assignments give the field this value. */
  function Assigned(fields: seq<string>, vals: seq<Value>, n: nat, field: string, val: Value): nat
    requires n <= |fields| && n <= |vals|
  {
    if n == 0 then 0
    else Assigned(fields, vals, n - 1, field, val) + if fields[n - 1] == field && vals[n - 1] == val then 1 else 0
  }

  /** The row after the first n assignments. */
  function RowWith(row: Row, fields: seq<string>, vals: seq<Value>, n: nat): Row
    requires n <= |fields| && n <= |vals|
  {
    if n == 0 then row else RowWith(row, fields, vals, n - 1)[fields[n - 1] := vals[n - 1]]
  }

  /** The field is assigned exactly once. */
  ghost predicate Once(fields: seq<string>, field: string) {
    exists k :: OnlyAt(fields, field, k)
  }

  ghost predicate OnlyAt(fields: seq<string>, field: string, k: int) {
    0 <= k < |fields| && fields[k] == field && forall j :: 0 <= j < |fields| && fields[j] == field ==> j == k
  }

  lemma {:induction false} AssignedNone(fields: seq<string>, vals: seq<Value>, n: nat, field: string, val: Value)
    requires n <= |fields| && n <= |vals|
    requires forall k :: 0 <= k < n && fields[k] == field ==> vals[k] != val
    ensures Assigned(fields, vals, n, field, val) == 0
    decreases n
  {
    if n > 0 {
      AssignedNone(fields, vals, n - 1, field, val);
    }
  }

  lemma {:induction false} AssignedSome(fields: seq<string>, vals: seq<Value>, n: nat, field: string, val: Value,
                                        k: nat)
    requires k < n <= |fields| && n <= |vals| && fields[k] == field && vals[k] == val
    ensures Assigned(fields, vals, n, field, val) >= 1
    decreases n
  {
    if k < n - 1 {
      AssignedSome(fields, vals, n - 1, field, val, k);
    }
  }

  lemma {:induction false} AssignedTwice(fields: seq<string>, vals: seq<Value>, n: nat, field: string, val: Value,
      j: nat, k: nat)
    requires j < k < n <= |fields| && n <= |vals| && fields[j] == field == fields[k] && vals[j] == val == vals[k]
    ensures Assigned(fields, vals, n, field, val) >= 2
    decreases n
  {
    if k < n - 1 {
      AssignedTwice(fields, vals, n - 1, field, val, j, k);
    } else {
      AssignedSome(fields, vals, n - 1, field, val, j);
    }
  }

  lemma {:induction false} AssignedOnce(fields: seq<string>, vals: seq<Value>, row: Row, n: nat, field: string, k: nat,
                                        val: Value)
    requires n <= |fields| && n <= |vals| && OnlyAt(fields, field, k) && k < n
    ensures Assigned(fields, vals, n, field, val) == if val == vals[k] then 1 else 0
    ensures FieldOf(RowWith(row, fields, vals, n), field) == vals[k]
    decreases n
  {
    if k < n - 1 {
      AssignedOnce(fields, vals, row, n - 1, field, k, val);
    } else {
      AssignedNone(fields, vals, n - 1, field, val);
    }
  }

  /** The entries of the new row are those of its final value exactly when the field is assigned once. */
  lemma EntriesFit(fields: seq<string>, vals: seq<Value>, row: Row, field: string)
    requires |fields| <= |vals|
    ensures Once(fields, field) <==>
            forall val :: Assigned(fields, vals, |fields|, field, val) ==
                          if FieldOf(RowWith(row, fields, vals, |fields|), field) == val then 1 else 0
  {
    var n, last := |fields|, FieldOf(RowWith(row, fields, vals, |fields|), field);
    if k :| OnlyAt(fields, field, k) {
      forall val
        ensures Assigned(fields, vals, n, field, val) == if last == val then 1 else 0
      {
        AssignedOnce(fields, vals, row, n, field, k, val);
      }
    } else if j :| 0 <= j < n && fields[j] == field {
      assert !OnlyAt(fields, field, j);
      var k :| 0 <= k < n && fields[k] == field && k != j;
      AssignedSome(fields, vals, n, field, vals[j], j);
      AssignedSome(fields, vals, n, field, vals[k], k);
      if vals[j] == vals[k] {
        AssignedTwice(fields, vals, n, field, vals[j], if j < k then j else k, if j < k then k else j);
      }
      assert Assigned(fields, vals, n, field, vals[j]) != (if last == vals[j] then 1 else 0)
          || Assigned(fields, vals, n, field, vals[k]) != (if last == vals[k] then 1 else 0);
    } else {
      AssignedNone(fields, vals, n, field, last);
    }
  }

  /** The index got the entries of all assignments, the table the final row. */
  ghost predicate EntriesAt(index: Index, index': Index, hash: Value -> nat, fields: seq<string>, vals: seq<Value>,
                            n: nat,
                            field: string, rid: Rid, v: Value, r: Rid)
    requires |index| > 0 && |index'| > 0 && n <= |fields| && n <= |vals|
  {
    Count(index', hash, v, r) == Count(index, hash, v, r) + if r == rid then Assigned(fields, vals, n, field, v) else 0
  }

  ghost predicate EntriesAdded(index: Index, index': Index, hash: Value -> nat, fields: seq<string>, vals: seq<Value>,
                               n: nat,
                               field: string, rid: Rid)
    requires n <= |fields| && n <= |vals|
  {
    |index| > 0 && |index'| > 0
    && forall v: Value, r: Rid :: EntriesAt(index, index', hash, fields, vals, n, field, rid, v, r)
  }

  lemma OneMoreEntry(index: Index, mid: Index, index': Index, hash: Value -> nat, fields: seq<string>,
                     vals: seq<Value>, n: nat,
                     field: string, rid: Rid)
    requires n < |fields| && n < |vals| && EntriesAdded(index, mid, hash, fields, vals, n, field, rid)
    requires if fields[n] == field then Added(mid, index', hash, vals[n], rid) else index' == mid
    ensures EntriesAdded(index, index', hash, fields, vals, n + 1, field, rid)
  {
    var m := n + 1;
    forall v: Value, r: Rid
      ensures EntriesAt(index, index', hash, fields, vals, m, field, rid, v, r)
    {
      assert EntriesAt(index, mid, hash, fields, vals, n, field, rid, v, r);
      if fields[n] == field {
        assert AddedAt(mid, index', hash, vals[n], rid, v, r);
      }
    }
  }

  /** After an insert the index agrees with the table exactly when its field was assigned once. */
  lemma RowAdded(index: Index, index': Index, hash: Value -> nat, table: Table, table': Table, stale: Row,
                 fields: seq<string>, vals: seq<Value>, field: string, rid: Rid)
    requires |fields| <= |vals| && Agrees(index, hash, table, field) && !Live(table, rid)
    requires EntriesAdded(index, index', hash, fields, vals, |fields|, field, rid)
    requires SameExcept(table, table', rid) && Live(table', rid)
    requires RowAt(table', rid) == RowWith(stale, fields, vals, |fields|)
    ensures Agrees(index', hash, table', field) <==> Once(fields, field)
  {
    EntriesFit(fields, vals, stale, field);
    if Once(fields, field) {
      forall v: Value, r: Rid
        ensures AgreesAt(index', hash, table', field, v, r)
      {
        assert AgreesAt(index, hash, table, field, v, r);
        assert EntriesAt(index, index', hash, fields, vals, |fields|, field, rid, v, r);
        if r == rid {
          assert Count(index, hash, v, r) == 0;
          assert Assigned(fields, vals, |fields|, field, v) == if FieldOf(RowAt(table', rid), field) == v then 1 else 0;
        }
      }
    } else {
      var v :| Assigned(fields, vals, |fields|, field, v) !=
               if FieldOf(RowWith(stale, fields, vals, |fields|), field) == v then 1 else 0;
      assert AgreesAt(index, hash, table, field, v, rid);
      assert EntriesAt(index, index', hash, fields, vals, |fields|, field, rid, v, rid);
      assert !AgreesAt(index', hash, table', field, v, rid);
    }
  }
}
