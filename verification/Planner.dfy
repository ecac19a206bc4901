/**
 The planner: for every table a select, join or product plan with the part of the predicate
 that has become applicable, and a greedy choice among them by estimated size.

 As intended: a term that equates a field with a constant is found as such whatever the
 constant (predicate.h:93-101 and table_planner.h:33 use 0 and "" as "none" and ask a constant
 for the wrong type), a table without a join plan is passed over (heuristic_query_planner.h:59
 takes the value of an absent plan), and the current plan is still there when a product has to
 be made of it (heuristic_query_planner.h:110-114 has moved it away).
 */
module Planners {
  import opened DbTypes
  import opened IndexAgreement
  import opened IndexScans
  import opened Products
  import opened Predicates
  import opened Plans

  // ---------- table_planner ----------

  function IndexSelectOn(t: TableInfo, pred: Pred, fields: seq<string>): Option<Plan> {
    if fields == [] then None
    else
      match EquatesWithConstant(pred, fields[0])
      case Some(v) => Some(IndexSelectPlan(t, fields[0], v))
      case None => IndexSelectOn(t, pred, fields[1..])
  }

  function AddSelectPredicate(p: Plan, t: TableInfo, pred: Pred): Plan {
    if TermsFor(pred, t.fields) == [] then p else SelectPlan(p, TermsFor(pred, t.fields))
  }

  function AddJoinPredicate(p: Plan, t: TableInfo, pred: Pred, fields: set<string>): Plan {
    if JoinTerms(pred, fields, t.fields) == [] then p else SelectPlan(p, JoinTerms(pred, fields, t.fields))
  }

  function ConstructSelectPlan(t: TableInfo, pred: Pred): Plan {
    AddSelectPredicate(IndexSelectOn(t, pred, t.indexed).GetOr(TablePlan(t)), t, pred)
  }

  function IndexJoinOn(curr: Plan, t: TableInfo, pred: Pred, fields: seq<string>): Option<Plan> {
    if fields == [] then None
    else
      match EquatesWithField(pred, fields[0])
      case Some(outer) =>
        if outer in Schema(curr) then Some(IndexJoinPlan(curr, t, fields[0], outer)) else IndexJoinOn(curr, t, pred, fields[1..])
      case None => IndexJoinOn(curr, t, pred, fields[1..])
  }

  function ConstructProductPlan(curr: Plan, t: TableInfo, pred: Pred): Plan {
    ProductPlan(curr, AddSelectPredicate(TablePlan(t), t, pred))
  }

  function ConstructJoinPlan(curr: Plan, t: TableInfo, pred: Pred): Option<Plan> {
    if JoinTerms(pred, t.fields, Schema(curr)) == [] then None
    else
      match IndexJoinOn(curr, t, pred, t.indexed)
      case Some(p) => Some(AddJoinPredicate(AddSelectPredicate(p, t, pred), t, pred, Schema(curr)))
      case None => Some(AddJoinPredicate(ConstructProductPlan(curr, t, pred), t, pred, Schema(curr)))
  }

  predicate EquatesConstant(pred: Pred, field: string) {
    exists j :: 0 <= j < |pred| && ConstantFor(pred[j], field).Some?
  }

  lemma {:induction false} ConstantFound(pred: Pred, field: string)
    ensures EquatesWithConstant(pred, field).Some? <==> EquatesConstant(pred, field)
    decreases |pred|
  {
    if pred != [] {
      ConstantFound(pred[1..], field);
      assert forall j :: 0 < j < |pred| ==> pred[j] == pred[1..][j - 1];
    }
  }

  /** An index is used for the first table if and only if a term equates an indexed field with a constant. */
  lemma {:induction false} IndexSelected(t: TableInfo, pred: Pred, fields: seq<string>)
    ensures IndexSelectOn(t, pred, fields).Some? <==> exists i :: 0 <= i < |fields| && EquatesConstant(pred, fields[i])
    decreases |fields|
  {
    if fields != [] {
      IndexSelected(t, pred, fields[1..]);
      ConstantFound(pred, fields[0]);
      assert forall i :: 0 < i < |fields| ==> fields[i] == fields[1..][i - 1];
    }
  }

  predicate EquatesFieldOf(pred: Pred, field: string, schema: set<string>) {
    EquatesWithField(pred, field).Some? && EquatesWithField(pred, field).value in schema
  }

  /** For a join, if and only if the field that an indexed field is equated with first is there already. */
  lemma {:induction false} IndexJoined(curr: Plan, t: TableInfo, pred: Pred, fields: seq<string>)
    ensures IndexJoinOn(curr, t, pred, fields).Some? <==>
            exists i :: 0 <= i < |fields| && EquatesFieldOf(pred, fields[i], Schema(curr))
    decreases |fields|
  {
    if fields != [] {
      IndexJoined(curr, t, pred, fields[1..]);
      assert forall i :: 0 < i < |fields| ==> fields[i] == fields[1..][i - 1];
    }
  }

  // ---------- what makes a plan right ----------

  /** The plan returns x as often as the product of the tables, filtered by the terms over their fields. */
  ghost predicate CountsAt(p: Plan, used: seq<TableInfo>, pred: Pred, x: Row) {
    multiset(Eval(p))[x] ==
    if x.Keys == FieldsOf(used) && Sat(TermsFor(pred, FieldsOf(used)), x) then ProductOf(used, x) else 0
  }

  ghost predicate Right(p: Plan, used: seq<TableInfo>, pred: Pred) {
    Schema(p) == FieldsOf(used) && forall x: Row :: CountsAt(p, used, pred, x)
  }

  lemma RightKeys(p: Plan, used: seq<TableInfo>, pred: Pred)
    requires Right(p, used, pred)
    ensures AllKeys(Eval(p), FieldsOf(used))
  {
    forall k | 0 <= k < |Eval(p)|
      ensures Eval(p)[k].Keys == FieldsOf(used)
    {
      assert CountsAt(p, used, pred, Eval(p)[k]);
      assert Eval(p)[k] in multiset(Eval(p));
    }
  }

  lemma OneTable(t: TableInfo, x: Row)
    requires TableOk(t)
    ensures FieldsOf([t]) == t.fields
    ensures x.Keys == t.fields ==> ProductOf([t], x) == multiset(t.rows)[x]
    ensures x.Keys != t.fields ==> multiset(t.rows)[x] == 0
  {
    assert [t][..0] == [];
    MulIs(1, multiset(t.rows)[Restrict(x, t.fields)]);
    if x.Keys == t.fields {
      assert Restrict(x, t.fields) == x;
    } else {
      assert forall k :: 0 <= k < |t.rows| ==> t.rows[k] != x;
      assert x !in t.rows;
    }
  }

  lemma {:induction false} IndexSelectCounts(t: TableInfo, pred: Pred, fields: seq<string>, x: Row)
    requires forall k :: 0 <= k < |fields| ==> fields[k] in t.fields
    requires IndexSelectOn(t, pred, fields).Some? && Sat(TermsFor(pred, t.fields), x)
    ensures multiset(Eval(IndexSelectOn(t, pred, fields).value))[x] == multiset(t.rows)[x]
    ensures Schema(IndexSelectOn(t, pred, fields).value) == t.fields
    decreases |fields|
  {
    if EquatesWithConstant(pred, fields[0]).Some? {
      FilterCounts(t.rows, fields[0], EquatesWithConstant(pred, fields[0]).value, x);
      ConstantDemanded(pred, t.fields, fields[0], x);
    } else {
      IndexSelectCounts(t, pred, fields[1..], x);
    }
  }

  lemma {:induction false} IndexSelectOf(t: TableInfo, pred: Pred, fields: seq<string>, x: Row)
    requires IndexSelectOn(t, pred, fields).Some?
    ensures multiset(Eval(IndexSelectOn(t, pred, fields).value))[x] <= multiset(t.rows)[x]
    ensures Schema(IndexSelectOn(t, pred, fields).value) == t.fields
    decreases |fields|
  {
    if EquatesWithConstant(pred, fields[0]).Some? {
      FilterCounts(t.rows, fields[0], EquatesWithConstant(pred, fields[0]).value, x);
    } else {
      IndexSelectOf(t, pred, fields[1..], x);
    }
  }

  lemma AddSelectCounts(p: Plan, t: TableInfo, pred: Pred, x: Row)
    ensures multiset(Eval(AddSelectPredicate(p, t, pred)))[x] ==
            if Sat(TermsFor(pred, t.fields), x) then multiset(Eval(p))[x] else 0
    ensures Schema(AddSelectPredicate(p, t, pred)) == Schema(p)
  {
    SelectCounts(p, TermsFor(pred, t.fields), x);
  }

  /** The first table, by index or not. */
  lemma SelectPlanRight(t: TableInfo, pred: Pred)
    requires TableOk(t)
    ensures Right(ConstructSelectPlan(t, pred), [t], pred)
  {
    var base := IndexSelectOn(t, pred, t.indexed);
    OneTable(t, map[]);
    if base.Some? {
      IndexSelectOf(t, pred, t.indexed, map[]);
    }
    forall x: Row
      ensures CountsAt(ConstructSelectPlan(t, pred), [t], pred, x)
    {
      OneTable(t, x);
      AddSelectCounts(base.GetOr(TablePlan(t)), t, pred, x);
      if base.Some? {
        IndexSelectOf(t, pred, t.indexed, x);
        if Sat(TermsFor(pred, t.fields), x) {
          IndexSelectCounts(t, pred, t.indexed, x);
        }
      }
    }
  }

  // ---------- one table more ----------

  ghost predicate CanAdd(curr: Plan, used: seq<TableInfo>, t: TableInfo, pred: Pred) {
    Right(curr, used, pred) && TablesOk(used + [t])
  }

  lemma LastTable(used: seq<TableInfo>, t: TableInfo)
    ensures FieldsOf(used + [t]) == FieldsOf(used) + t.fields
    ensures forall x: Row ::
              ProductOf(used + [t], x) == Mul(ProductOf(used, x), multiset(t.rows)[Restrict(x, t.fields)])
  {
    assert (used + [t])[..|used|] == used;
  }

  lemma LastApart(used: seq<TableInfo>, t: TableInfo)
    requires TablesOk(used + [t])
    ensures FieldsOf(used) !! t.fields && TableOk(t)
  {
    var all := used + [t];
    assert all[|used|] == t;
    forall k | 0 <= k < |used|
      ensures used[k].fields !! t.fields
    {
      assert all[k] == used[k];
    }
    FieldsApart(used, t.fields);
  }

  lemma AddedFields(curr: Plan, used: seq<TableInfo>, t: TableInfo, pred: Pred)
    requires CanAdd(curr, used, t, pred)
    ensures FieldsOf(used + [t]) == FieldsOf(used) + t.fields && FieldsOf(used) !! t.fields && TableOk(t)
    ensures AllKeys(Eval(curr), FieldsOf(used))
  {
    RightKeys(curr, used, pred);
    LastTable(used, t);
    LastApart(used, t);
  }

  lemma AddedProduct(used: seq<TableInfo>, t: TableInfo, x: Row)
    requires TableOk(t) && FieldsOf(used) !! t.fields && x.Keys == FieldsOf(used) + t.fields
    ensures ProductOf(used + [t], x) ==
            Mul(ProductOf(used, Restrict(x, FieldsOf(used))), multiset(t.rows)[Restrict(x, t.fields)])
  {
    LastTable(used, t);
    ProductOfPart(used, x, FieldsOf(used));
  }

  /** The counts of curr at the part of x in its fields. */
  lemma PartCounts(curr: Plan, used: seq<TableInfo>, pred: Pred, x: Row)
    requires Right(curr, used, pred) && FieldsOf(used) <= x.Keys
    ensures multiset(Eval(curr))[Restrict(x, FieldsOf(used))] ==
            if Sat(TermsFor(pred, FieldsOf(used)), x) then ProductOf(used, Restrict(x, FieldsOf(used))) else 0
  {
    var y := Restrict(x, FieldsOf(used));
    assert CountsAt(curr, used, pred, y);
    assert y.Keys == FieldsOf(used);
    SatRestrict(pred, FieldsOf(used), x);
  }

  lemma BothOrNone(n1: nat, n2: nat, a: nat, b: nat, p: bool, q: bool)
    requires n1 == (if p then a else 0) && n2 == (if q then b else 0)
    ensures Mul(n1, n2) == if p && q then Mul(a, b) else 0
  {
    MulZero(n1);
    MulZero(n2);
  }

  lemma RightCounts(t: TableInfo, pred: Pred, x: Row)
    ensures multiset(Eval(AddSelectPredicate(TablePlan(t), t, pred)))[Restrict(x, t.fields)] ==
            if Sat(TermsFor(pred, t.fields), x) then multiset(t.rows)[Restrict(x, t.fields)] else 0
  {
    AddSelectCounts(TablePlan(t), t, pred, Restrict(x, t.fields));
    SatRestrict(pred, t.fields, x);
  }

  /** The product plan: filtered by the terms over either side. */
  lemma ProductPlanCounts(curr: Plan, used: seq<TableInfo>, t: TableInfo, pred: Pred, x: Row)
    requires CanAdd(curr, used, t, pred)
    ensures
      var fields := FieldsOf(used) + t.fields;
      multiset(Eval(ConstructProductPlan(curr, t, pred)))[x] ==
      if x.Keys == fields && Sat(TermsFor(pred, FieldsOf(used)), x) && Sat(TermsFor(pred, t.fields), x)
      then ProductOf(used + [t], x) else 0
    ensures Schema(ConstructProductPlan(curr, t, pred)) == FieldsOf(used) + t.fields
  {
    AddedFields(curr, used, t, pred);
    AddSelectCounts(TablePlan(t), t, pred, x);
    ProductRows(curr, used, t, pred, x);
    if x.Keys == FieldsOf(used) + t.fields {
      AddedProduct(used, t, x);
    }
  }

  lemma ProductRows(curr: Plan, used: seq<TableInfo>, t: TableInfo, pred: Pred, x: Row)
    requires Right(curr, used, pred) && AllKeys(Eval(curr), FieldsOf(used)) && FieldsOf(used) !! t.fields && TableOk(t)
    ensures
      multiset(Eval(ConstructProductPlan(curr, t, pred)))[x] ==
      if x.Keys == FieldsOf(used) + t.fields && Sat(TermsFor(pred, FieldsOf(used)), x) && Sat(TermsFor(pred, t.fields), x)
      then Mul(ProductOf(used, Restrict(x, FieldsOf(used))), multiset(t.rows)[Restrict(x, t.fields)]) else 0
  {
    var left, right := Eval(curr), Eval(AddSelectPredicate(TablePlan(t), t, pred));
    assert Eval(ConstructProductPlan(curr, t, pred)) == Merged(Product(left, right));
    SelectedKeys(t, pred);
    if x.Keys == FieldsOf(used) + t.fields {
      BothParts(curr, used, t, pred, x);
      ProductCounts(left, right, FieldsOf(used), t.fields, x);
    } else {
      ProductCounts(left, right, FieldsOf(used), t.fields, x);
    }
  }

  lemma BothParts(curr: Plan, used: seq<TableInfo>, t: TableInfo, pred: Pred, x: Row)
    requires Right(curr, used, pred) && x.Keys == FieldsOf(used) + t.fields
    ensures
      var y, z := Restrict(x, FieldsOf(used)), Restrict(x, t.fields);
      Mul(multiset(Eval(curr))[y], multiset(Eval(AddSelectPredicate(TablePlan(t), t, pred)))[z]) ==
      if Sat(TermsFor(pred, FieldsOf(used)), x) && Sat(TermsFor(pred, t.fields), x)
      then Mul(ProductOf(used, y), multiset(t.rows)[z]) else 0
  {
    var y, z := Restrict(x, FieldsOf(used)), Restrict(x, t.fields);
    PartCounts(curr, used, pred, x);
    RightCounts(t, pred, x);
    BothOrNone(multiset(Eval(curr))[y], multiset(Eval(AddSelectPredicate(TablePlan(t), t, pred)))[z],
               ProductOf(used, y), multiset(t.rows)[z],
               Sat(TermsFor(pred, FieldsOf(used)), x), Sat(TermsFor(pred, t.fields), x));
  }

  lemma SelectedKeys(t: TableInfo, pred: Pred)
    requires TableOk(t)
    ensures AllKeys(Eval(AddSelectPredicate(TablePlan(t), t, pred)), t.fields)
  {
    var rows := Eval(AddSelectPredicate(TablePlan(t), t, pred));
    forall k | 0 <= k < |rows|
      ensures rows[k].Keys == t.fields
    {
      assert rows[k] in multiset(rows);
      AddSelectCounts(TablePlan(t), t, pred, rows[k]);
      OneTable(t, rows[k]);
    }
  }

  /** An index join with the table's own terms: the product plan's rows that agree in the two fields. */
  lemma IndexJoinCounts(curr: Plan, used: seq<TableInfo>, t: TableInfo, pred: Pred, field: string, outer: string,
                        x: Row)
    requires CanAdd(curr, used, t, pred) && outer in FieldsOf(used) && field in t.fields
    ensures
      var fields := FieldsOf(used) + t.fields;
      multiset(Eval(AddSelectPredicate(IndexJoinPlan(curr, t, field, outer), t, pred)))[x] ==
      if x.Keys == fields && FieldOf(x, outer) == FieldOf(x, field)
         && Sat(TermsFor(pred, FieldsOf(used)), x) && Sat(TermsFor(pred, t.fields), x)
      then ProductOf(used + [t], x) else 0
  {
    AddedFields(curr, used, t, pred);
    var y, z := Restrict(x, FieldsOf(used)), Restrict(x, t.fields);
    AddSelectCounts(IndexJoinPlan(curr, t, field, outer), t, pred, x);
    JoinCounts(Eval(curr), t.rows, FieldsOf(used), t.fields, outer, field, x);
    if x.Keys == FieldsOf(used) + t.fields {
      PartCounts(curr, used, pred, x);
      AddedProduct(used, t, x);
      BothOrNone(multiset(Eval(curr))[y], multiset(t.rows)[z], ProductOf(used, y), multiset(t.rows)[z],
                 Sat(TermsFor(pred, FieldsOf(used)), x), true);
    }
  }

  lemma AddJoinCounts(p: Plan, t: TableInfo, pred: Pred, fields: set<string>, x: Row)
    ensures multiset(Eval(AddJoinPredicate(p, t, pred, fields)))[x] ==
            if Sat(JoinTerms(pred, fields, t.fields), x) then multiset(Eval(p))[x] else 0
    ensures Schema(AddJoinPredicate(p, t, pred, fields)) == Schema(p)
  {
    SelectCounts(p, JoinTerms(pred, fields, t.fields), x);
  }

  lemma SelectCounts(p: Plan, terms: Pred, x: Row)
    ensures multiset(Eval(SelectPlan(p, terms)))[x] == if Sat(terms, x) then multiset(Eval(p))[x] else 0
  {
    SatisfyingCounts(Eval(p), terms, x);
  }

  lemma {:induction false} JoinTermsSwap(pred: Pred, fields1: set<string>, fields2: set<string>)
    ensures JoinTerms(pred, fields1, fields2) == JoinTerms(pred, fields2, fields1)
    decreases |pred|
  {
    if pred != [] {
      JoinTermsSwap(pred[..|pred| - 1], fields1, fields2);
      assert fields1 + fields2 == fields2 + fields1;
    }
  }

  /** Where no term joins the table to what there is, the plain product will do. */
  lemma ProductPlanRight(curr: Plan, used: seq<TableInfo>, t: TableInfo, pred: Pred)
    requires CanAdd(curr, used, t, pred) && ConstructJoinPlan(curr, t, pred).None?
    ensures Right(ConstructProductPlan(curr, t, pred), used + [t], pred)
  {
    AddedFields(curr, used, t, pred);
    JoinTermsSwap(pred, t.fields, FieldsOf(used));
    ProductPlanCounts(curr, used, t, pred, map[]);
    forall x: Row
      ensures CountsAt(ConstructProductPlan(curr, t, pred), used + [t], pred, x)
    {
      ProductPlanCounts(curr, used, t, pred, x);
      TermsCover(pred, FieldsOf(used), t.fields, x);
    }
  }

  lemma {:induction false} IndexJoinFound(curr: Plan, t: TableInfo, pred: Pred,
      fields: seq<string>) returns (field: string, outer: string)
    requires IndexJoinOn(curr, t, pred, fields).Some? && forall k :: 0 <= k < |fields| ==> fields[k] in t.fields
    ensures IndexJoinOn(curr, t, pred, fields).value == IndexJoinPlan(curr, t, field, outer)
    ensures field in t.fields && outer in Schema(curr) && EquatesWithField(pred, field) == Some(outer)
    decreases |fields|
  {
    var o := EquatesWithField(pred, fields[0]);
    if o.Some? && o.value in Schema(curr) {
      field, outer := fields[0], o.value;
    } else {
      field, outer := IndexJoinFound(curr, t, pred, fields[1..]);
    }
  }

  /** A join plan, by index or not, adds exactly the terms that have become applicable. */
  lemma JoinPlanRight(curr: Plan, used: seq<TableInfo>, t: TableInfo, pred: Pred)
    requires CanAdd(curr, used, t, pred) && ConstructJoinPlan(curr, t, pred).Some?
    ensures Right(ConstructJoinPlan(curr, t, pred).value, used + [t], pred)
  {
    AddedFields(curr, used, t, pred);
    var fields, p := FieldsOf(used) + t.fields, ConstructJoinPlan(curr, t, pred).value;
    if IndexJoinOn(curr, t, pred, t.indexed).Some? {
      var field, outer := IndexJoinFound(curr, t, pred, t.indexed);
      var base := AddSelectPredicate(IndexJoinPlan(curr, t, field, outer), t, pred);
      forall x: Row
        ensures CountsAt(p, used + [t], pred, x)
      {
        AddJoinCounts(base, t, pred, Schema(curr), x);
        IndexJoinCounts(curr, used, t, pred, field, outer, x);
        TermsCover(pred, FieldsOf(used), t.fields, x);
        if Sat(TermsFor(pred, fields), x) {
          FieldDemanded(pred, fields, field, x);
        }
      }
      AddJoinCounts(base, t, pred, Schema(curr), map[]);
      AddSelectCounts(IndexJoinPlan(curr, t, field, outer), t, pred, map[]);
    } else {
      forall x: Row
        ensures CountsAt(p, used + [t], pred, x)
      {
        AddJoinCounts(ConstructProductPlan(curr, t, pred), t, pred, Schema(curr), x);
        ProductPlanCounts(curr, used, t, pred, x);
        TermsCover(pred, FieldsOf(used), t.fields, x);
      }
      AddJoinCounts(ConstructProductPlan(curr, t, pred), t, pred, Schema(curr), map[]);
      ProductPlanCounts(curr, used, t, pred, map[]);
    }
  }

  // ---------- the whole query ----------

  function Project(rows: seq<Row>, fields: set<string>): (r: seq<Row>)
    ensures |r| == |rows| && forall k :: 0 <= k < |rows| ==> r[k] == Restrict(rows[k], fields)
  {
    seq(|rows|, k requires 0 <= k < |rows| => Restrict(rows[k], fields))
  }

  /** What the query means: the product of all tables, the whole predicate, the fields asked for. */
  function Meaning(tables: seq<TableInfo>, pred: Pred, fields: set<string>): seq<Row> {
    Project(Satisfying(AllRows(tables), pred), fields)
  }

  lemma ProjectWithout(rows: seq<Row>, i: nat, fields: set<string>)
    requires i < |rows|
    ensures multiset(rows) == multiset(Without(rows, i)) + multiset{rows[i]}
    ensures multiset(Project(rows, fields)) ==
            multiset(Project(Without(rows, i), fields)) + multiset{Restrict(rows[i], fields)}
  {
    var front, x, back := rows[..i], [rows[i]], rows[i + 1..];
    assert rows == front + x + back;
    assert Project(rows, fields) == Project(front, fields) + Project(x, fields) + Project(back, fields);
    assert Project(Without(rows, i), fields) == Project(front, fields) + Project(back, fields);
    assert Project(x, fields) == [Restrict(rows[i], fields)];
  }

  lemma {:induction false} SameProjection(a: seq<Row>, b: seq<Row>, fields: set<string>)
    requires multiset(a) == multiset(b)
    ensures multiset(Project(a, fields)) == multiset(Project(b, fields))
    decreases |a|
  {
    if a == [] {
      assert |multiset(b)| == 0;
    } else {
      assert a[0] in multiset(b);
      var i :| 0 <= i < |b| && b[i] == a[0];
      ProjectWithout(a, 0, fields);
      ProjectWithout(b, i, fields);
      Cancel(multiset(Without(a, 0)), multiset(Without(b, i)), a[0]);
      SameProjection(Without(a, 0), Without(b, i), fields);
    }
  }

  /** A right plan over the tables, in whatever order, returns what the query means. */
  lemma RightMeans(p: Plan, used: seq<TableInfo>, tables: seq<TableInfo>, pred: Pred, fields: set<string>)
    requires Right(p, used, pred) && multiset(used) == multiset(tables) && TablesOk(tables)
    requires AllApply(pred, FieldsOf(tables))
    ensures multiset(Project(Eval(p), fields)) == multiset(Meaning(tables, pred, fields))
  {
    TermsForAll(pred, FieldsOf(tables));
    forall x: Row
      ensures multiset(Eval(p))[x] == multiset(Satisfying(AllRows(tables), pred))[x]
    {
      assert CountsAt(p, used, pred, x);
      AnyOrder(used, tables, x);
      SatisfyingCounts(AllRows(tables), pred, x);
      AllRowsCounts(tables, x);
    }
    SameProjection(Eval(p), Satisfying(AllRows(tables), pred), fields);
  }
}
