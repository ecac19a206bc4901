/** Predicates: conjunctions of equalities between fields and constants, and their sub-predicates. */
module Predicates {
  import opened DbTypes
  import opened IndexAgreement

  datatype Expr = Const(val: Value) | Field(name: string)

  datatype Term = Term(lhs: Expr, rhs: Expr)

  type Pred = seq<Term>

  function Evaluate(e: Expr, row: Row): Value {
    match e
    case Const(v) => v
    case Field(f) => FieldOf(row, f)
  }

  predicate TermHolds(t: Term, row: Row) {
    Evaluate(t.lhs, row) == Evaluate(t.rhs, row)
  }

  predicate Sat(pred: Pred, row: Row) {
    forall k :: 0 <= k < |pred| ==> TermHolds(pred[k], row)
  }

  predicate ExprApplies(e: Expr, fields: set<string>) {
    e.Field? ==> e.name in fields
  }

  predicate Applies(t: Term, fields: set<string>) {
    ExprApplies(t.lhs, fields) && ExprApplies(t.rhs, fields)
  }

  predicate AllApply(pred: Pred, fields: set<string>) {
    forall k :: 0 <= k < |pred| ==> Applies(pred[k], fields)
  }

  /** The terms over these fields. */
  function TermsFor(pred: Pred, fields: set<string>): Pred {
    if pred == [] then []
    else TermsFor(pred[..|pred| - 1], fields) + if Applies(pred[|pred| - 1], fields) then [pred[|pred| - 1]] else []
  }

  predicate Joins(t: Term, fields1: set<string>, fields2: set<string>) {
    !Applies(t, fields1) && !Applies(t, fields2) && Applies(t, fields1 + fields2)
  }

  /** The terms that need both sets of fields. */
  function JoinTerms(pred: Pred, fields1: set<string>, fields2: set<string>): Pred {
    if pred == [] then []
    else JoinTerms(pred[..|pred| - 1], fields1, fields2) +
         if Joins(pred[|pred| - 1], fields1, fields2) then [pred[|pred| - 1]] else []
  }

  // ---------- the loops that compute these ----------

  /** select_sub_pred: nothing if no term applies. */
  method SelectSubPred(pred: Pred, fields: set<string>) returns (result: Option<Pred>)
    ensures result == if TermsFor(pred, fields) == [] then None else Some(TermsFor(pred, fields))
  {
    var terms: Pred := [];
    var i := 0;
    while i < |pred|
      invariant 0 <= i <= |pred| && terms == TermsFor(pred[..i], fields)
    {
      assert pred[..i + 1][..i] == pred[..i];
      if Applies(pred[i], fields) {
        terms := terms + [pred[i]];
      }
      i := i + 1;
    }
    assert pred[..i] == pred;
    result := if terms == [] then None else Some(terms);
  }

  method JoinSubPred(pred: Pred, fields1: set<string>, fields2: set<string>) returns (result: Option<Pred>)
    ensures result == if JoinTerms(pred, fields1, fields2) == [] then None else Some(JoinTerms(pred, fields1, fields2))
  {
    var newFields := fields1 + fields2;
    var terms: Pred := [];
    var i := 0;
    while i < |pred|
      invariant 0 <= i <= |pred| && terms == JoinTerms(pred[..i], fields1, fields2)
    {
      assert pred[..i + 1][..i] == pred[..i];
      if !Applies(pred[i], fields1) && !Applies(pred[i], fields2) && Applies(pred[i], newFields) {
        terms := terms + [pred[i]];
      }
      i := i + 1;
    }
    assert pred[..i] == pred;
    result := if terms == [] then None else Some(terms);
  }

  // ---------- a row that may lack fields ----------

  function ReadExpr(e: Expr, row: Row): Option<Value> {
    match e
    case Const(v) => Some(v)
    case Field(f) => if f in row then Some(row[f]) else None
  }

  /** Both sides are read before they are compared. */
  function ReadTerm(t: Term, row: Row): Option<bool> {
    var lhs, rhs := ReadExpr(t.lhs, row), ReadExpr(t.rhs, row);
    if lhs.Some? && rhs.Some? then Some(lhs == rhs) else None
  }

  /** The terms are tried in order up to the first that fails or cannot be read. */
  function Tested(pred: Pred, row: Row): (r: Option<bool>)
    ensures r.Some? ==> r.value == Sat(pred, row)
  {
    if pred == [] then Some(true)
    else
      match ReadTerm(pred[0], row)
      case None => None
      case Some(holds) => if holds then Tested(pred[1..], row) else Some(false)
  }

  lemma {:induction false} TestedInFull(pred: Pred, row: Row)
    requires AllApply(pred, row.Keys)
    ensures Tested(pred, row) == Some(Sat(pred, row))
    decreases |pred|
  {
    if pred != [] {
      TestedInFull(pred[1..], row);
    }
  }

  /** A row that has the fields satisfies the predicate if and only if in every term both sides are the same value. */
  lemma SatIs(pred: Pred, row: Row)
    requires AllApply(pred, row.Keys)
    ensures Sat(pred, row) <==>
            forall k :: 0 <= k < |pred| ==>
              (if pred[k].lhs.Field? then row[pred[k].lhs.name] else pred[k].lhs.val) ==
              (if pred[k].rhs.Field? then row[pred[k].rhs.name] else pred[k].rhs.val)
  {
    if Sat(pred, row) {
      assert forall k :: 0 <= k < |pred| ==> Applies(pred[k], row.Keys) && TermHolds(pred[k], row);
    } else {
      var k :| 0 <= k < |pred| && !TermHolds(pred[k], row);
      assert Applies(pred[k], row.Keys);
    }
  }

  /** Term k is reached and lacks a field. */
  ghost predicate StopsAt(pred: Pred, k: int, row: Row) {
    && 0 <= k < |pred| && !Applies(pred[k], row.Keys)
    && forall j :: 0 <= j < k ==> Applies(pred[j], row.Keys) && TermHolds(pred[j], row)
  }

  /** Nothing comes back exactly if a field is missing in front of the first term whose sides differ. */
  lemma {:induction false} TestedStops(pred: Pred, row: Row)
    ensures Tested(pred, row).None? <==> exists k :: StopsAt(pred, k, row)
    decreases |pred|
  {
    if pred != [] {
      var rest := pred[1..];
      TestedStops(rest, row);
      if Applies(pred[0], row.Keys) && TermHolds(pred[0], row) {
        forall k
          ensures StopsAt(rest, k, row) <==> k >= 0 && StopsAt(pred, k + 1, row)
        {
          assert 0 <= k < |rest| ==> rest[k] == pred[k + 1];
          if k >= 0 && StopsAt(pred, k + 1, row) {
            assert forall j :: 0 <= j < k ==> rest[j] == pred[j + 1];
          }
        }
        assert forall k :: StopsAt(pred, k, row) ==> StopsAt(rest, k - 1, row);
      } else if !Applies(pred[0], row.Keys) {
        assert StopsAt(pred, 0, row);
      }
    }
  }

  /** is_satisfied: nothing comes back where a field cannot be read. */
  method IsSatisfied(pred: Pred, row: Row) returns (r: Option<bool>)
    ensures r == Tested(pred, row)
    ensures AllApply(pred, row.Keys) ==>
              r.Some? &&
              (r.value <==>
               forall k :: 0 <= k < |pred| ==>
                 (if pred[k].lhs.Field? then row[pred[k].lhs.name] else pred[k].lhs.val) ==
                 (if pred[k].rhs.Field? then row[pred[k].rhs.name] else pred[k].rhs.val))
  {
    if AllApply(pred, row.Keys) {
      SatIs(pred, row);
      TestedInFull(pred, row);
    }
    var i := 0;
    while i < |pred|
      invariant 0 <= i <= |pred| && Tested(pred, row) == Tested(pred[i..], row)
    {
      assert pred[i..][1..] == pred[i + 1..];
      var holds := ReadTerm(pred[i], row);
      if holds != Some(true) {
        return holds;
      }
      i := i + 1;
    }
    return Some(true);
  }

  // ---------- what the sub-predicates cover ----------

  lemma SatMore(a: Pred, b: Pred, row: Row)
    ensures Sat(a + b, row) <==> Sat(a, row) && Sat(b, row)
  {
    if Sat(a + b, row) {
      assert forall k :: 0 <= k < |a| ==> (a + b)[k] == a[k];
      forall k | 0 <= k < |b|
        ensures TermHolds(b[k], row)
      {
        assert (a + b)[|a| + k] == b[k];
      }
    }
  }

  /** Over the union of two sets of fields exactly three kinds of terms apply: those over either set, and those that join them. */
  lemma {:induction false} TermsCover(pred: Pred, fields1: set<string>, fields2: set<string>, row: Row)
    ensures Sat(TermsFor(pred, fields1 + fields2), row) <==>
            Sat(TermsFor(pred, fields1), row) && Sat(TermsFor(pred, fields2), row) && Sat(JoinTerms(pred, fields1, fields2), row)
    decreases |pred|
  {
    if pred != [] {
      var init, t := pred[..|pred| - 1], pred[|pred| - 1];
      TermsCover(init, fields1, fields2, row);
      SatMore(TermsFor(init, fields1 + fields2), if Applies(t, fields1 + fields2) then [t] else [], row);
      SatMore(TermsFor(init, fields1), if Applies(t, fields1) then [t] else [], row);
      SatMore(TermsFor(init, fields2), if Applies(t, fields2) then [t] else [], row);
      SatMore(JoinTerms(init, fields1, fields2), if Joins(t, fields1, fields2) then [t] else [], row);
      SatOne(t, row);
    }
  }

  lemma SatOne(t: Term, row: Row)
    ensures Sat([t], row) <==> TermHolds(t, row)
    ensures Sat([], row)
  {
    assert Sat([t], row) ==> TermHolds([t][0], row);
  }

  /** If every term is over these fields, they are the whole predicate. */
  lemma {:induction false} TermsForAll(pred: Pred, fields: set<string>)
    requires AllApply(pred, fields)
    ensures TermsFor(pred, fields) == pred
    decreases |pred|
  {
    if pred != [] {
      TermsForAll(pred[..|pred| - 1], fields);
    }
  }

  function Restrict(row: Row, fields: set<string>): Row {
    map f | f in row && f in fields :: row[f]
  }

  /** Terms over some fields look at nothing else. */
  lemma {:induction false} SatRestrict(pred: Pred, fields: set<string>, row: Row)
    ensures Sat(TermsFor(pred, fields), Restrict(row, fields)) <==> Sat(TermsFor(pred, fields), row)
    decreases |pred|
  {
    if pred != [] {
      var init, t := pred[..|pred| - 1], pred[|pred| - 1];
      SatRestrict(init, fields, row);
      SatMore(TermsFor(init, fields), if Applies(t, fields) then [t] else [], row);
      SatMore(TermsFor(init, fields), if Applies(t, fields) then [t] else [], Restrict(row, fields));
      SatOne(t, row);
      SatOne(t, Restrict(row, fields));
    }
  }

  lemma {:induction false} TermsApply(pred: Pred, fields: set<string>)
    ensures AllApply(TermsFor(pred, fields), fields)
    decreases |pred|
  {
    if pred != [] {
      TermsApply(pred[..|pred| - 1], fields);
    }
  }

  lemma {:induction false} JoinTermsApply(pred: Pred, fields1: set<string>, fields2: set<string>)
    ensures AllApply(JoinTerms(pred, fields1, fields2), fields1 + fields2)
    decreases |pred|
  {
    if pred != [] {
      JoinTermsApply(pred[..|pred| - 1], fields1, fields2);
    }
  }

  lemma ApplyMore(pred: Pred, fields: set<string>, more: set<string>)
    requires AllApply(pred, fields) && fields <= more
    ensures AllApply(pred, more)
  {
    assert forall k :: 0 <= k < |pred| ==> Applies(pred[k], fields) ==> Applies(pred[k], more);
  }

  // ---------- terms that fit an index ----------

  function ConstantFor(t: Term, field: string): Option<Value> {
    if t.lhs == Field(field) && t.rhs.Const? then Some(t.rhs.val)
    else if t.rhs == Field(field) && t.lhs.Const? then Some(t.lhs.val)
    else None
  }

  /** The constant of the first term that equates field with one. */
  function EquatesWithConstant(pred: Pred, field: string): Option<Value> {
    if pred == [] then None
    else if ConstantFor(pred[0], field).Some? then ConstantFor(pred[0], field)
    else EquatesWithConstant(pred[1..], field)
  }

  function FieldFor(t: Term, field: string): Option<string> {
    if t.lhs == Field(field) && t.rhs.Field? then Some(t.rhs.name)
    else if t.rhs == Field(field) && t.lhs.Field? then Some(t.lhs.name)
    else None
  }

  function EquatesWithField(pred: Pred, field: string): Option<string> {
    if pred == [] then None
    else if FieldFor(pred[0], field).Some? then FieldFor(pred[0], field)
    else EquatesWithField(pred[1..], field)
  }

  lemma {:induction false} TermIn(pred: Pred, fields: set<string>, k: nat, row: Row)
    requires k < |pred| && Applies(pred[k], fields) && Sat(TermsFor(pred, fields), row)
    ensures TermHolds(pred[k], row)
    decreases |pred|
  {
    var init, t := pred[..|pred| - 1], pred[|pred| - 1];
    SatMore(TermsFor(init, fields), if Applies(t, fields) then [t] else [], row);
    if k < |pred| - 1 {
      assert init[k] == pred[k];
      TermIn(init, fields, k, row);
    } else {
      SatOne(t, row);
    }
  }

  lemma {:induction false} ConstantTerm(pred: Pred, field: string) returns (k: nat)
    requires EquatesWithConstant(pred, field).Some?
    ensures k < |pred| && ConstantFor(pred[k], field) == EquatesWithConstant(pred, field)
    decreases |pred|
  {
    if ConstantFor(pred[0], field).Some? {
      k := 0;
    } else {
      var j := ConstantTerm(pred[1..], field);
      k := j + 1;
    }
  }

  lemma {:induction false} FieldTerm(pred: Pred, field: string) returns (k: nat)
    requires EquatesWithField(pred, field).Some?
    ensures k < |pred| && FieldFor(pred[k], field) == EquatesWithField(pred, field)
    decreases |pred|
  {
    if FieldFor(pred[0], field).Some? {
      k := 0;
    } else {
      var j := FieldTerm(pred[1..], field);
      k := j + 1;
    }
  }

  /** What an index selection looks for is what the terms over its table demand anyway. */
  lemma ConstantDemanded(pred: Pred, fields: set<string>, field: string, row: Row)
    requires field in fields && EquatesWithConstant(pred, field).Some? && Sat(TermsFor(pred, fields), row)
    ensures FieldOf(row, field) == EquatesWithConstant(pred, field).value
  {
    var k := ConstantTerm(pred, field);
    TermIn(pred, fields, k, row);
  }

  /** What an index join looks for is what the terms over both inputs demand anyway. */
  lemma FieldDemanded(pred: Pred, fields: set<string>, field: string, row: Row)
    requires field in fields && EquatesWithField(pred, field).Some? && EquatesWithField(pred, field).value in fields
    requires Sat(TermsFor(pred, fields), row)
    ensures FieldOf(row, field) == FieldOf(row, EquatesWithField(pred, field).value)
  {
    var k := FieldTerm(pred, field);
    TermIn(pred, fields, k, row);
  }
}
