/**
 Query plans and the rows they return, counted row by row: whatever the order of the tables, a
 product holds a row as often as its tables hold the row's parts.
 */
module Plans {
  import opened DbTypes
  import opened IndexAgreement
  import opened IndexScans
  import opened Products
  import opened MergeJoins
  import opened Predicates

  /** A table's fields, its rows and the fields that have an index. */
  datatype TableInfo = TableInfo(fields: set<string>, rows: seq<Row>, indexed: seq<string>)

  ghost predicate AllKeys(rows: seq<Row>, fields: set<string>) {
    forall k :: 0 <= k < |rows| ==> rows[k].Keys == fields
  }

  ghost predicate TableOk(t: TableInfo) {
    AllKeys(t.rows, t.fields) && forall k :: 0 <= k < |t.indexed| ==> t.indexed[k] in t.fields
  }

  datatype Plan =
    | TablePlan(t: TableInfo)
    | IndexSelectPlan(t: TableInfo, field: string, val: Value)
    | SelectPlan(p: Plan, pred: Pred)
    | IndexJoinPlan(p: Plan, t: TableInfo, field: string, outer: string)
    | ProductPlan(left: Plan, right: Plan)

  function Schema(p: Plan): set<string> {
    match p
    case TablePlan(t) => t.fields
    case IndexSelectPlan(t, _, _) => t.fields
    case SelectPlan(q, _) => Schema(q)
    case IndexJoinPlan(q, t, _, _) => Schema(q) + t.fields
    case ProductPlan(q, r) => Schema(q) + Schema(r)
  }

  /** A pair of rows seen as one. */
  function Merged(pairs: seq<(Row, Row)>): seq<Row> {
    if pairs == [] then []
    else
      var last := pairs[|pairs| - 1];
      Merged(pairs[..|pairs| - 1]) + [last.0 + last.1]
  }

  function Satisfying(rows: seq<Row>, pred: Pred): seq<Row> {
    if rows == [] then []
    else Satisfying(rows[..|rows| - 1], pred) + if Sat(pred, rows[|rows| - 1]) then [rows[|rows| - 1]] else []
  }

  /** The rows a plan stands for. PlanScans says when its scans show exactly these. */
  function Eval(p: Plan): seq<Row> {
    match p
    case TablePlan(t) => t.rows
    case IndexSelectPlan(t, field, val) => Filter(t.rows, field, val)
    case SelectPlan(q, pred) => Satisfying(Eval(q), pred)
    case IndexJoinPlan(q, t, field, outer) =>
      Merged(Join((l: Row) => FieldOf(l, outer), (r: Row) => FieldOf(r, field), Eval(q), t.rows))
    case ProductPlan(q, r) => Merged(Product(Eval(q), Eval(r)))
  }

  /** All combinations of the tables' rows, in the order listed. */
  function AllRows(tables: seq<TableInfo>): seq<Row> {
    if tables == [] then [map[]]
    else Merged(Product(AllRows(tables[..|tables| - 1]), tables[|tables| - 1].rows))
  }

  function FieldsOf(tables: seq<TableInfo>): set<string> {
    if tables == [] then {} else FieldsOf(tables[..|tables| - 1]) + tables[|tables| - 1].fields
  }

  /** A selection by one field and a constant is the filter an index stands for. */
  lemma {:induction false} FilterIsSelection(rows: seq<Row>, field: string, val: Value)
    ensures Satisfying(rows, [Term(Field(field), Const(val))]) == Filter(rows, field, val)
    ensures Satisfying(rows, [Term(Const(val), Field(field))]) == Filter(rows, field, val)
    decreases |rows|
  {
    if rows != [] {
      FilterIsSelection(rows[..|rows| - 1], field, val);
      SatOne(Term(Field(field), Const(val)), rows[|rows| - 1]);
      SatOne(Term(Const(val), Field(field)), rows[|rows| - 1]);
    }
  }

  // ---------- counting ----------

  /** a times b, by repeated addition: the proofs below need no more of multiplication than is said here. */
  function Mul(a: nat, b: nat): nat {
    if b == 0 then 0 else a + Mul(a, b - 1)
  }

  lemma {:induction false} MulIs(a: nat, b: nat)
    ensures Mul(a, b) == a * b
    decreases b
  {
    if b > 0 {
      MulIs(a, b - 1);
      assert a * b == a + a * (b - 1);
    }
  }

  lemma MulSwap(a: nat, b: nat, c: nat)
    ensures Mul(Mul(a, b), c) == Mul(Mul(a, c), b)
  {
    MulIs(a, b);
    MulIs(a, c);
    MulIs(a * b, c);
    MulIs(a * c, b);
    assert (a * b) * c == (a * c) * b;
  }

  lemma MulZero(a: nat)
    ensures Mul(0, a) == 0 && Mul(a, 0) == 0
  {
    MulIs(0, a);
  }

  lemma {:induction false} FilterCounts(rows: seq<Row>, field: string, val: Value, x: Row)
    ensures multiset(Filter(rows, field, val))[x] == if FieldOf(x, field) == val then multiset(rows)[x] else 0
    decreases |rows|
  {
    if rows != [] {
      var init, last := rows[..|rows| - 1], rows[|rows| - 1];
      assert rows == init + [last];
      FilterCounts(init, field, val, x);
    }
  }

  lemma {:induction false} SatisfyingCounts(rows: seq<Row>, pred: Pred, x: Row)
    ensures multiset(Satisfying(rows, pred))[x] == if Sat(pred, x) then multiset(rows)[x] else 0
    decreases |rows|
  {
    if rows != [] {
      var init, last := rows[..|rows| - 1], rows[|rows| - 1];
      assert rows == init + [last];
      SatisfyingCounts(init, pred, x);
    }
  }

  ghost predicate PairKeys(pairs: seq<(Row, Row)>, k1: set<string>, k2: set<string>) {
    forall k :: 0 <= k < |pairs| ==> pairs[k].0.Keys == k1 && pairs[k].1.Keys == k2
  }

  lemma SplitRow(l: Row, r: Row, k1: set<string>, k2: set<string>, x: Row)
    requires l.Keys == k1 && r.Keys == k2 && k1 !! k2
    ensures l + r == x <==> x.Keys == k1 + k2 && l == Restrict(x, k1) && r == Restrict(x, k2)
  {
    if l + r == x {
      assert forall f :: f in k1 ==> x[f] == l[f];
      assert forall f :: f in k2 ==> x[f] == r[f];
      assert Restrict(x, k1).Keys == k1 && Restrict(x, k2).Keys == k2;
    }
    if x.Keys == k1 + k2 && l == Restrict(x, k1) && r == Restrict(x, k2) {
      assert (l + r).Keys == x.Keys;
      assert forall f :: f in x ==> (l + r)[f] == x[f];
    }
  }

  lemma MergedAdds(init: seq<(Row, Row)>, last: (Row, Row), x: Row)
    ensures multiset(Merged(init + [last]))[x] == multiset(Merged(init))[x] + if last.0 + last.1 == x then 1 else 0
  {
    assert (init + [last])[..|init|] == init;
    assert Merged(init + [last]) == Merged(init) + [last.0 + last.1];
  }

  /** Over disjoint fields a row comes from one pair only: its two parts. */
  lemma {:induction false} MergedCounts(pairs: seq<(Row, Row)>, k1: set<string>, k2: set<string>, x: Row)
    requires PairKeys(pairs, k1, k2) && k1 !! k2
    ensures multiset(Merged(pairs))[x] == if x.Keys == k1 + k2 then multiset(pairs)[(Restrict(x, k1), Restrict(x, k2))] else 0
    decreases |pairs|
  {
    if pairs != [] {
      var init, last := pairs[..|pairs| - 1], pairs[|pairs| - 1];
      assert pairs == init + [last];
      MergedCounts(init, k1, k2, x);
      MergedAdds(init, last, x);
      SplitRow(last.0, last.1, k1, k2, x);
      var parts := (Restrict(x, k1), Restrict(x, k2));
      assert multiset(pairs)[parts] == multiset(init)[parts] + if last == parts then 1 else 0;
    }
  }

  lemma {:induction false} ProductKeys(lrows: seq<Row>, rrows: seq<Row>, k1: set<string>, k2: set<string>)
    requires AllKeys(lrows, k1) && AllKeys(rrows, k2)
    ensures PairKeys(Product(lrows, rrows), k1, k2)
    decreases |lrows|
  {
    if lrows != [] {
      ProductKeys(lrows[..|lrows| - 1], rrows, k1, k2);
    }
  }

  lemma ProductCounts(lrows: seq<Row>, rrows: seq<Row>, k1: set<string>, k2: set<string>, x: Row)
    requires AllKeys(lrows, k1) && AllKeys(rrows, k2) && k1 !! k2
    ensures multiset(Merged(Product(lrows, rrows)))[x] ==
            if x.Keys == k1 + k2 then Mul(multiset(lrows)[Restrict(x, k1)], multiset(rrows)[Restrict(x, k2)]) else 0
  {
    MulIs(multiset(lrows)[Restrict(x, k1)], multiset(rrows)[Restrict(x, k2)]);
    ProductKeys(lrows, rrows, k1, k2);
    MergedCounts(Product(lrows, rrows), k1, k2, x);
    ProductCount(lrows, rrows, Restrict(x, k1), Restrict(x, k2));
  }

  lemma {:induction false} MatchKeys(key1: Row -> Value, key2: Row -> Value, l: Row, rrows: seq<Row>, k1: set<string>,
                                     k2: set<string>)
    requires l.Keys == k1 && AllKeys(rrows, k2)
    ensures PairKeys(Matches(key1, key2, l, rrows), k1, k2)
    decreases |rrows|
  {
    if rrows != [] {
      MatchKeys(key1, key2, l, rrows[..|rrows| - 1], k1, k2);
    }
  }

  lemma {:induction false} JoinKeys(key1: Row -> Value, key2: Row -> Value, lrows: seq<Row>, rrows: seq<Row>,
                                    k1: set<string>, k2: set<string>)
    requires AllKeys(lrows, k1) && AllKeys(rrows, k2)
    ensures PairKeys(Join(key1, key2, lrows, rrows), k1, k2)
    decreases |lrows|
  {
    if lrows != [] {
      JoinKeys(key1, key2, lrows[..|lrows| - 1], rrows, k1, k2);
      MatchKeys(key1, key2, lrows[|lrows| - 1], rrows, k1, k2);
    }
  }

  /** An index join holds a row of the product just if it agrees in the two fields. */
  lemma JoinCounts(lrows: seq<Row>, rrows: seq<Row>, k1: set<string>, k2: set<string>, outer: string, field: string,
                   x: Row)
    requires AllKeys(lrows, k1) && AllKeys(rrows, k2) && k1 !! k2 && outer in k1 && field in k2
    ensures multiset(Merged(Join((l: Row) => FieldOf(l, outer), (r: Row) => FieldOf(r, field), lrows, rrows)))[x] ==
            if x.Keys == k1 + k2 && FieldOf(x, outer) == FieldOf(x, field)
            then Mul(multiset(lrows)[Restrict(x, k1)], multiset(rrows)[Restrict(x, k2)]) else 0
  {
    MulIs(multiset(lrows)[Restrict(x, k1)], multiset(rrows)[Restrict(x, k2)]);
    var key1, key2 := (l: Row) => FieldOf(l, outer), (r: Row) => FieldOf(r, field);
    JoinKeys(key1, key2, lrows, rrows, k1, k2);
    MergedCounts(Join(key1, key2, lrows, rrows), k1, k2, x);
    JoinCount(key1, key2, lrows, rrows, Restrict(x, k1), Restrict(x, k2));
  }

  /** The equi-join is the product with the term that equates the two fields. */
  lemma JoinIsSelection(lrows: seq<Row>, rrows: seq<Row>, k1: set<string>, k2: set<string>, outer: string, field: string)
    requires AllKeys(lrows, k1) && AllKeys(rrows, k2) && k1 !! k2 && outer in k1 && field in k2
    ensures multiset(Merged(Join((l: Row) => FieldOf(l, outer), (r: Row) => FieldOf(r, field), lrows, rrows))) ==
            multiset(Satisfying(Merged(Product(lrows, rrows)), [Term(Field(outer), Field(field))]))
  {
    var term := Term(Field(outer), Field(field));
    var joined := Merged(Join((l: Row) => FieldOf(l, outer), (r: Row) => FieldOf(r, field), lrows, rrows));
    var selected := Satisfying(Merged(Product(lrows, rrows)), [term]);
    forall x
      ensures multiset(joined)[x] == multiset(selected)[x]
    {
      JoinCounts(lrows, rrows, k1, k2, outer, field, x);
      ProductCounts(lrows, rrows, k1, k2, x);
      SatisfyingCounts(Merged(Product(lrows, rrows)), [term], x);
      SatOne(term, x);
    }
  }

  // ---------- the product of several tables ----------

  /** How often the part of x that t has is a row of t. */
  ghost function CountIn(t: TableInfo, x: Row): nat {
    multiset(t.rows)[Restrict(x, t.fields)]
  }

  /** How often the product of the tables holds x. */
  ghost function ProductOf(tables: seq<TableInfo>, x: Row): nat {
    if tables == [] then 1
    else
      var t := tables[|tables| - 1];
      Mul(ProductOf(tables[..|tables| - 1], x), CountIn(t, x))
  }

  /** No two tables share a field. */
  ghost predicate Disjoint(tables: seq<TableInfo>) {
    forall i, j :: 0 <= i < j < |tables| ==> tables[i].fields !! tables[j].fields
  }

  ghost predicate TablesOk(tables: seq<TableInfo>) {
    Disjoint(tables) && forall k :: 0 <= k < |tables| ==> TableOk(tables[k])
  }

  lemma {:induction false} FieldsApart(tables: seq<TableInfo>, fields: set<string>)
    requires forall k :: 0 <= k < |tables| ==> tables[k].fields !! fields
    ensures FieldsOf(tables) !! fields
    decreases |tables|
  {
    if tables != [] {
      FieldsApart(tables[..|tables| - 1], fields);
    }
  }

  lemma RestrictTwice(x: Row, fields: set<string>, more: set<string>)
    requires fields <= more
    ensures Restrict(Restrict(x, more), fields) == Restrict(x, fields)
  {
  }

  /** Only the parts of x in the tables' fields count. */
  lemma {:induction false} ProductOfPart(tables: seq<TableInfo>, x: Row, more: set<string>)
    requires FieldsOf(tables) <= more
    ensures ProductOf(tables, Restrict(x, more)) == ProductOf(tables, x)
    decreases |tables|
  {
    if tables != [] {
      ProductOfPart(tables[..|tables| - 1], x, more);
      RestrictTwice(x, tables[|tables| - 1].fields, more);
    }
  }

  /** The product in the order listed. */
  lemma {:induction false} AllRowsCounts(tables: seq<TableInfo>, x: Row)
    requires TablesOk(tables)
    ensures multiset(AllRows(tables))[x] == if x.Keys == FieldsOf(tables) then ProductOf(tables, x) else 0
    decreases |tables|
  {
    if tables != [] {
      var init, t := tables[..|tables| - 1], tables[|tables| - 1];
      AllRowsKeys(init);
      FieldsApart(init, t.fields);
      ProductCounts(AllRows(init), t.rows, FieldsOf(init), t.fields, x);
      AllRowsCounts(init, Restrict(x, FieldsOf(init)));
      ProductOfPart(init, x, FieldsOf(init));
      if x.Keys == FieldsOf(tables) {
        assert Restrict(x, FieldsOf(init)).Keys == FieldsOf(init);
      }
    } else {
      assert x.Keys == {} ==> x == map[];
    }
  }

  lemma {:induction false} MergedKeys(pairs: seq<(Row, Row)>, k1: set<string>, k2: set<string>)
    requires PairKeys(pairs, k1, k2)
    ensures AllKeys(Merged(pairs), k1 + k2)
    decreases |pairs|
  {
    if pairs != [] {
      MergedKeys(pairs[..|pairs| - 1], k1, k2);
    }
  }

  lemma {:induction false} AllRowsKeys(tables: seq<TableInfo>)
    requires TablesOk(tables)
    ensures AllKeys(AllRows(tables), FieldsOf(tables))
    decreases |tables|
  {
    if tables != [] {
      var init, t := tables[..|tables| - 1], tables[|tables| - 1];
      AllRowsKeys(init);
      ProductKeys(AllRows(init), t.rows, FieldsOf(init), t.fields);
      MergedKeys(Product(AllRows(init), t.rows), FieldsOf(init), t.fields);
    }
  }

  // ---------- the order of the tables does not matter ----------

  function Without<T>(s: seq<T>, i: nat): seq<T>
    requires i < |s|
  {
    s[..i] + s[i + 1..]
  }

  lemma WithoutLast<T>(s: seq<T>, i: nat)
    requires i < |s| - 1
    ensures
      var rest := Without(s, i);
      rest != [] && rest[..|rest| - 1] == Without(s[..|s| - 1], i) && rest[|rest| - 1] == s[|s| - 1]
  {
  }

  lemma {:induction false} FieldsOfWithout(tables: seq<TableInfo>, i: nat)
    requires i < |tables|
    ensures FieldsOf(tables) == FieldsOf(Without(tables, i)) + tables[i].fields
    decreases |tables|
  {
    var init := tables[..|tables| - 1];
    if i == |tables| - 1 {
      assert Without(tables, i) == init;
    } else {
      FieldsOfWithout(init, i);
      WithoutLast(tables, i);
    }
  }

  lemma {:induction false} ProductOfWithout(tables: seq<TableInfo>, i: nat, x: Row)
    requires i < |tables|
    ensures ProductOf(tables, x) == Mul(ProductOf(Without(tables, i), x), CountIn(tables[i], x))
    decreases |tables|
  {
    var init, t := tables[..|tables| - 1], tables[|tables| - 1];
    if i == |tables| - 1 {
      assert Without(tables, i) == init;
    } else {
      ProductOfWithout(init, i, x);
      WithoutLast(tables, i);
      assert init[i] == tables[i];
      MulSwap(ProductOf(Without(init, i), x), CountIn(tables[i], x), CountIn(t, x));
    }
  }

  lemma {:induction false} AnyOrder(s: seq<TableInfo>, t: seq<TableInfo>, x: Row)
    requires multiset(s) == multiset(t)
    ensures ProductOf(s, x) == ProductOf(t, x) && FieldsOf(s) == FieldsOf(t)
    decreases |s|
  {
    if s == [] {
      assert |multiset(t)| == 0;
    } else {
      var init, last := s[..|s| - 1], s[|s| - 1];
      assert s == init + [last];
      assert last in multiset(t);
      var i :| 0 <= i < |t| && t[i] == last;
      assert t == t[..i] + [last] + t[i + 1..];
      assert multiset(init) == multiset(s) - multiset{last};
      assert multiset(Without(t, i)) == multiset(t) - multiset{last};
      AnyOrder(init, Without(t, i), x);
      FieldsOfWithout(t, i);
      ProductOfWithout(t, i, x);
    }
  }
}
