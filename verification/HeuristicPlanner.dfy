/**
 The greedy planner as an object: it starts with one table, then joins or multiplies in one
 table after the other, each time the one with the smallest estimate. The estimate is a
 parameter, so the result holds for any.
 */
module HeuristicPlanners {
  import opened DbTypes
  import opened IndexAgreement
  import opened IndexScans
  import opened Predicates
  import opened PlanScans
  import opened Plans
  import opened Planners
  import Products

  /** If there is another plan, its estimate is no less. */
  predicate NoLess(records: Plan -> nat, best: Option<Plan>, other: Option<Plan>)
    requires best.Some?
  {
    other.Some? ==> records(best.value) <= records(other.value)
  }

  class HeuristicPlanner {
    const pred: Pred
    const records: Plan -> nat
    var planners: seq<TableInfo>

    constructor (tables: seq<TableInfo>, pred: Pred, records: Plan -> nat)
      ensures this.pred == pred && this.records == records && planners == tables
    {
      this.pred, this.records, planners := pred, records, tables;
    }

    /** The table planner at i is used up. */
    method Erase(i: nat)
      requires i < |planners|
      modifies this
      ensures planners == Without(old(planners), i)
      ensures multiset(old(planners)) == multiset(planners) + multiset{old(planners)[i]}
    {
      WithoutBag(planners, i);
      planners := planners[..i] + planners[i + 1..];
    }

    method GetSelectPlan() returns (best: Plan, ghost t: TableInfo)
      requires planners != []
      modifies this
      ensures best == ConstructSelectPlan(t, pred)
      ensures forall k :: 0 <= k < |old(planners)| ==> records(best) <= records(ConstructSelectPlan(old(planners)[k], pred))
      ensures multiset(old(planners)) == multiset(planners) + multiset{t}
    {
      var at := 0;
      best := ConstructSelectPlan(planners[0], pred);
      var i := 1;
      while i < |planners|
        invariant 1 <= i <= |planners| && 0 <= at < |planners| && best == ConstructSelectPlan(planners[at], pred)
        invariant forall k :: 0 <= k < i ==> records(best) <= records(ConstructSelectPlan(planners[k], pred))
      {
        var plan := ConstructSelectPlan(planners[i], pred);
        if records(plan) < records(best) {
          at, best := i, plan;
        }
        i := i + 1;
      }
      t := planners[at];
      Erase(at);
    }

    /** The best join plan, if any table has one. */
    method GetJoinPlan(curr: Plan) returns (best: Option<Plan>, ghost t: Option<TableInfo>)
      requires planners != []
      modifies this
      ensures best.Some? == t.Some?
      ensures best.None? ==> planners == old(planners) && forall k :: 0 <= k < |planners| ==> ConstructJoinPlan(curr, planners[k], pred).None?
      ensures best.Some? ==> best == ConstructJoinPlan(curr, t.value, pred)
      ensures best.Some? ==> forall k :: 0 <= k < |old(planners)| ==> NoLess(records, best, ConstructJoinPlan(curr, old(planners)[k], pred))
      ensures best.Some? ==> multiset(old(planners)) == multiset(planners) + multiset{t.value}
    {
      var at, i := 0, 0;
      best := None;
      while i < |planners|
        invariant 0 <= i <= |planners| && 0 <= at < |planners|
        invariant best.None? ==> forall k :: 0 <= k < i ==> ConstructJoinPlan(curr, planners[k], pred).None?
        invariant best.Some? ==> best == ConstructJoinPlan(curr, planners[at], pred)
        invariant best.Some? ==> forall k :: 0 <= k < i ==> NoLess(records, best, ConstructJoinPlan(curr, planners[k], pred))
      {
        var plan := ConstructJoinPlan(curr, planners[i], pred);
        if plan.Some? && (best.None? || records(plan.value) < records(best.value)) {
          at, best := i, plan;
        }
        i := i + 1;
      }
      t := None;
      if best.Some? {
        t := Some(planners[at]);
        Erase(at);
      }
    }

    method GetProductPlan(curr: Plan) returns (best: Plan, ghost t: TableInfo)
      requires planners != []
      modifies this
      ensures best == ConstructProductPlan(curr, t, pred) && t in old(planners)
      ensures forall k :: 0 <= k < |old(planners)| ==> records(best) <= records(ConstructProductPlan(curr, old(planners)[k], pred))
      ensures multiset(old(planners)) == multiset(planners) + multiset{t}
    {
      var at := 0;
      best := ConstructProductPlan(curr, planners[0], pred);
      var i := 1;
      while i < |planners|
        invariant 1 <= i <= |planners| && 0 <= at < |planners| && best == ConstructProductPlan(curr, planners[at], pred)
        invariant forall k :: 0 <= k < i ==> records(best) <= records(ConstructProductPlan(curr, planners[k], pred))
      {
        var plan := ConstructProductPlan(curr, planners[i], pred);
        if records(plan) < records(best) {
          at, best := i, plan;
        }
        i := i + 1;
      }
      t := planners[at];
      Erase(at);
    }

    /** One more table, by a join if there is one. */
    method AddTable(curr: Plan, ghost used: seq<TableInfo>, ghost tables: seq<TableInfo>) returns (next: Plan,
                    ghost t: TableInfo)
      requires planners != [] && TablesOk(tables) && multiset(tables) == multiset(used) + multiset(planners)
      requires Right(curr, used, pred) && Typed(curr)
      modifies this
      ensures multiset(tables) == multiset(used + [t]) + multiset(planners)
      ensures Right(next, used + [t], pred) && Typed(next)
      ensures |planners| < |old(planners)|
    {
      ghost var before := planners;
      var p, joined := GetJoinPlan(curr);
      if p.Some? {
        next, t := p.value, joined.value;
        CanAddAny(curr, used, tables, t, planners);
        JoinPlanRight(curr, used, t, pred);
        JoinPlanTyped(curr, t, pred);
      } else {
        next, t := GetProductPlan(curr);
        CanAddAny(curr, used, tables, t, planners);
        ProductPlanRight(curr, used, t, pred);
        ProductPlanTyped(curr, t, pred);
      }
      assert |multiset(before)| == |before| && |multiset(planners)| == |planners|;
    }

    lemma CanAddAny(curr: Plan, used: seq<TableInfo>, tables: seq<TableInfo>, t: TableInfo, rest: seq<TableInfo>)
      requires TablesOk(tables) && multiset(tables) == multiset(used) + (multiset(rest) + multiset{t})
      requires Right(curr, used, pred)
      ensures CanAdd(curr, used, t, pred) && TableOk(t)
    {
      assert (used + [t])[|used|] == t;
      assert multiset(used + [t]) == multiset(used) + multiset{t};
      assert multiset((used + [t]) + rest) == multiset(tables);
      TablesOkPart(used + [t], rest, tables);
    }

    /**
     create_plan: whatever the estimates, the plan stands for what the query means. Its scans show just
     that, all of them, if and only if the plan is clean. The answer alone, the fields asked for of what
     the outermost scan shows, is right if and only if the query has an answer, or it has none and no row
     gets through the outermost operator.
     */
    method CreatePlan(fields: set<string>, ghost past: Plan -> Behind) returns (plan: Plan)
      requires planners != [] && TablesOk(planners)
      requires AllApply(pred, FieldsOf(planners))
      modifies this
      ensures multiset(Project(Eval(plan), fields)) == multiset(Meaning(old(planners), pred, fields))
      ensures Faithful(plan, past) <==> Clean(plan, past)
      ensures Clean(plan, past) ==> IsAnswer(plan, past, Meaning(old(planners), pred, fields), fields)
      ensures IsAnswer(plan, past, Meaning(old(planners), pred, fields), fields) <==>
              Meaning(old(planners), pred, fields) != [] || Stopped(plan, past)
    {
      ghost var tables, t := planners, planners[0];
      plan, t := GetSelectPlan();
      ghost var used := [t];
      FirstTableOk(tables, t, planners);
      SelectPlanRight(t, pred);
      SelectPlanTyped(t, pred);
      while planners != []
        invariant multiset(tables) == multiset(used) + multiset(planners) && Right(plan, used, pred) && Typed(plan)
        decreases |planners|
      {
        plan, t := AddTable(plan, used, tables);
        used := used + [t];
      }
      RightMeans(plan, used, tables, pred, fields);
      FaithfulIffClean(plan, past);
      AnswerMeans(plan, past, Meaning(tables, pred, fields), fields);
    }
  }

  // ---------- every field read is there ----------

  lemma AddSelectTyped(p: Plan, t: TableInfo, pred: Pred)
    requires Typed(p) && t.fields <= Schema(p)
    ensures Typed(AddSelectPredicate(p, t, pred)) && Schema(AddSelectPredicate(p, t, pred)) == Schema(p)
  {
    TermsApply(pred, t.fields);
    ApplyMore(TermsFor(pred, t.fields), t.fields, Schema(p));
  }

  lemma AddJoinTyped(p: Plan, t: TableInfo, pred: Pred, fields: set<string>)
    requires Typed(p) && fields + t.fields <= Schema(p)
    ensures Typed(AddJoinPredicate(p, t, pred, fields))
  {
    JoinTermsApply(pred, fields, t.fields);
    ApplyMore(JoinTerms(pred, fields, t.fields), fields + t.fields, Schema(p));
  }

  lemma {:induction false} IndexSelectTyped(t: TableInfo, pred: Pred, fields: seq<string>)
    requires TableOk(t) && IndexSelectOn(t, pred, fields).Some?
    ensures Typed(IndexSelectOn(t, pred, fields).value) && Schema(IndexSelectOn(t, pred, fields).value) == t.fields
    decreases |fields|
  {
    if EquatesWithConstant(pred, fields[0]).None? {
      IndexSelectTyped(t, pred, fields[1..]);
    }
  }

  lemma SelectPlanTyped(t: TableInfo, pred: Pred)
    requires TableOk(t)
    ensures Typed(ConstructSelectPlan(t, pred))
  {
    if IndexSelectOn(t, pred, t.indexed).Some? {
      IndexSelectTyped(t, pred, t.indexed);
    }
    AddSelectTyped(IndexSelectOn(t, pred, t.indexed).GetOr(TablePlan(t)), t, pred);
  }

  lemma ProductPlanTyped(curr: Plan, t: TableInfo, pred: Pred)
    requires Typed(curr) && TableOk(t)
    ensures Typed(ConstructProductPlan(curr, t, pred))
    ensures Schema(ConstructProductPlan(curr, t, pred)) == Schema(curr) + t.fields
  {
    AddSelectTyped(TablePlan(t), t, pred);
  }

  lemma JoinPlanTyped(curr: Plan, t: TableInfo, pred: Pred)
    requires Typed(curr) && TableOk(t) && ConstructJoinPlan(curr, t, pred).Some?
    ensures Typed(ConstructJoinPlan(curr, t, pred).value)
  {
    if IndexJoinOn(curr, t, pred, t.indexed).Some? {
      var field, outer := IndexJoinFound(curr, t, pred, t.indexed);
      AddSelectTyped(IndexJoinPlan(curr, t, field, outer), t, pred);
      AddJoinTyped(AddSelectPredicate(IndexJoinPlan(curr, t, field, outer), t, pred), t, pred, Schema(curr));
    } else {
      ProductPlanTyped(curr, t, pred);
      AddJoinTyped(ConstructProductPlan(curr, t, pred), t, pred, Schema(curr));
    }
  }

  // ---------- the answer that is read off ----------

  /** Reading the fields asked for of every row shown. */
  function ReadFrom(s: Seen, fields: set<string>): Seen {
    var n := Stop(s.rows, CanRead(fields));
    Seen(Project(s.rows[..n], fields), s.throws || n < |s.rows|)
  }

  /** Reading the plan's fields to the end gives exactly these rows. */
  ghost predicate IsAnswer(plan: Plan, past: Plan -> Behind, meaning: seq<Row>, fields: set<string>) {
    var answer := ReadFrom(Shown(plan, past), fields * Schema(plan));
    !answer.throws && multiset(Project(answer.rows, fields)) == multiset(meaning)
  }

  lemma ReadInFull(rows: seq<Row>, fields: set<string>, schema: set<string>)
    requires AllKeys(rows, schema)
    ensures
      var answer := ReadFrom(Seen(rows, false), fields * schema);
      !answer.throws && Project(answer.rows, fields) == Project(rows, fields)
  {
    var n := Stop(rows, CanRead(fields * schema));
    assert rows[..n] == rows;
    forall k | 0 <= k < |rows|
      ensures Restrict(Restrict(rows[k], fields * schema), fields) == Restrict(rows[k], fields)
    {
    }
  }

  lemma AnswerMeans(plan: Plan, past: Plan -> Behind, meaning: seq<Row>, fields: set<string>)
    requires Typed(plan) && multiset(Project(Eval(plan), fields)) == multiset(meaning)
    ensures Clean(plan, past) ==> IsAnswer(plan, past, meaning, fields)
    ensures IsAnswer(plan, past, meaning, fields) <==> meaning != [] || Stopped(plan, past)
  {
    assert |multiset(Project(Eval(plan), fields))| == |Eval(plan)| && |multiset(meaning)| == |meaning|;
    if Clean(plan, past) {
      CleanAnswer(plan, past, meaning, fields);
    }
    if meaning != [] {
      AnswersAreClean(plan, past);
      CleanAnswer(plan, past, meaning, fields);
    } else {
      StoppedShowsNothing(plan, past);
      NoneInBag(Project(ReadFrom(Shown(plan, past), fields * Schema(plan)).rows, fields));
    }
  }

  lemma CleanAnswer(plan: Plan, past: Plan -> Behind, meaning: seq<Row>, fields: set<string>)
    requires Typed(plan) && multiset(Project(Eval(plan), fields)) == multiset(meaning) && Clean(plan, past)
    ensures IsAnswer(plan, past, meaning, fields)
  {
    CleanShows(plan, past);
    TypedKeys(plan);
    ReadInFull(Eval(plan), fields, Schema(plan));
  }

  /** Without a predicate or indexes the plans are the tables and their product. */
  lemma PlainPlans(t1: TableInfo, t2: TableInfo)
    requires t1.indexed == []
    ensures ConstructSelectPlan(t1, []) == TablePlan(t1) && ConstructJoinPlan(TablePlan(t1), t2, []).None?
    ensures ConstructProductPlan(TablePlan(t1), t2, []) == ProductPlan(TablePlan(t1), TablePlan(t2))
  {
  }

  lemma NoCombination(t1: TableInfo, t2: TableInfo, fields: set<string>)
    requires t1.rows == []
    ensures Meaning([t1, t2], [], fields) == []
  {
    assert [t1, t2][..1] == [t1] && [t1][..0] == [];
    Products.ProductWithNone<Row, Row>(AllRows([]));
    assert AllRows([t1]) == [];
  }

  /** With an empty table taken first, a query without an answer is given one. */
  lemma EmptyTableFirst(a: string, b: string, val: Value, past: Plan -> Behind)
    ensures
      var t1, t2 := TableInfo({a}, [], []), TableInfo({b}, [map[b := val]], []);
      var first := ConstructSelectPlan(t1, []);
      && ConstructJoinPlan(first, t2, []).None?
      && Meaning([t1, t2], [], {b}) == []
      && !IsAnswer(ConstructProductPlan(first, t2, []), past, [], {b})
  {
    var t1, t2 := TableInfo({a}, [], []), TableInfo({b}, [map[b := val]], []);
    EmptyLeftShown(a, b, val, past);
    PlainPlans(t1, t2);
    NoCombination(t1, t2, {b});
    NoneInBag(Project(ReadFrom(Shown(ProductPlan(TablePlan(t1), TablePlan(t2)), past), {b} * {a, b}).rows, {b}));
  }

  lemma OneTermPlans(t1: TableInfo, t2: TableInfo, a: string, b: string)
    requires a != b && t1 == TableInfo({a}, [], []) && t2.fields == {b} && t2.indexed == [b]
    ensures
      var pred := [Term(Field(a), Field(b))];
      && ConstructSelectPlan(t1, pred) == TablePlan(t1)
      && ConstructJoinPlan(TablePlan(t1), t2, pred) == Some(SelectPlan(IndexJoinPlan(TablePlan(t1), t2, b, a), pred))
  {
    var t := Term(Field(a), Field(b));
    assert [t][..0] == [] && [b][1..] == [];
    TermOfBoth(a, b);
    assert EquatesWithField([t], b) == Some(a);
  }

  lemma TermOfBoth(a: string, b: string)
    requires a != b
    ensures
      var t := Term(Field(a), Field(b));
      && TermsFor([t], {a}) == [] && TermsFor([t], {b}) == []
      && JoinTerms([t], {a}, {b}) == [t] && JoinTerms([t], {b}, {a}) == [t]
  {
    var t := Term(Field(a), Field(b));
    assert [t][..0] == [];
    assert !Applies(t, {a}) && !Applies(t, {b}) && Applies(t, {a} + {b}) && Applies(t, {b} + {a});
    assert Joins(t, {a}, {b}) && Joins(t, {b}, {a});
  }

  /** With an empty table taken first and an index join after it, a query without an answer throws. */
  lemma EmptyTableThrows(a: string, b: string, rows: seq<Row>, past: Plan -> Behind)
    requires a != b
    ensures
      var t1, t2, pred := TableInfo({a}, [], []), TableInfo({b}, rows, [b]), [Term(Field(a), Field(b))];
      var first, plan := ConstructSelectPlan(t1, pred), ConstructJoinPlan(ConstructSelectPlan(t1, pred), t2, pred);
      && plan.Some? && Eval(plan.value) == []
      && (a !in past(first).row ==> ReadFrom(Shown(plan.value, past), {a, b}) == Seen([], true))
  {
    var t1, t2 := TableInfo({a}, [], []), TableInfo({b}, rows, [b]);
    OneTermPlans(t1, t2, a, b);
    EmptyLeftThrows(a, b, rows, past);
  }

  lemma FirstTableOk(tables: seq<TableInfo>, t: TableInfo, rest: seq<TableInfo>)
    requires TablesOk(tables) && multiset(tables) == multiset(rest) + multiset{t}
    ensures TableOk(t) && multiset(tables) == multiset([t]) + multiset(rest)
  {
    assert t in multiset(tables);
    var k :| 0 <= k < |tables| && tables[k] == t;
  }

  /** Part of a permutation of tables without shared fields. */
  lemma TablesOkPart(part: seq<TableInfo>, rest: seq<TableInfo>, tables: seq<TableInfo>)
    requires TablesOk(tables) && multiset(part + rest) == multiset(tables)
    ensures TablesOk(part)
  {
    forall k | 0 <= k < |part|
      ensures TableOk(part[k])
    {
      assert part[k] == (part + rest)[k];
      assert part[k] in multiset(part + rest);
      var j :| 0 <= j < |tables| && tables[j] == part[k];
    }
    forall i, j | 0 <= i < j < |part|
      ensures part[i].fields !! part[j].fields
    {
      TwoOfThem(part + rest, tables, i, j);
    }
  }

  lemma WithoutBag<T>(s: seq<T>, i: nat)
    requires i < |s|
    ensures multiset(s) == multiset(Without(s, i)) + multiset{s[i]}
  {
    assert s == s[..i] + [s[i]] + s[i + 1..];
  }

  lemma WithoutAt<T>(s: seq<T>, i: nat, b: nat)
    requires i < |s| && b < |Without(s, i)|
    ensures Without(s, i)[b] == if b < i then s[b] else s[b + 1]
  {
  }

  /** Two elements at different places of a permutation are at different places of the original. */
  lemma TwoOfThem(s: seq<TableInfo>, tables: seq<TableInfo>, i: nat, j: nat)
    requires TablesOk(tables) && multiset(s) == multiset(tables) && i < j < |s|
    ensures s[i].fields !! s[j].fields
  {
    assert s[i] in multiset(tables);
    var a :| 0 <= a < |tables| && tables[a] == s[i];
    WithoutBag(s, i);
    WithoutBag(tables, a);
    Cancel(multiset(Without(s, i)), multiset(Without(tables, a)), s[i]);
    WithoutAt(s, i, j - 1);
    assert s[j] in multiset(Without(tables, a));
    var b :| 0 <= b < |Without(tables, a)| && Without(tables, a)[b] == s[j];
    WithoutAt(tables, a, b);
  }
}
