/**
 What the scans of a plan show, as against the rows the plan stands for. As written, a product and an
 index join take the first row of their left scan without asking whether there is one
 (product_scan.h:17-22, index_join_scan.h:33-38). With an empty left input they go on with whatever
 reading the left scan behind its end returns, and where that cannot be read they throw.
 */
module PlanScans {
  import opened DbTypes
  import opened IndexAgreement
  import opened IndexScans
  import opened Products
  import opened MergeJoins
  import opened Predicates
  import opened Plans

  /** The rows a scan shows, and whether it then throws or ends. */
  datatype Seen = Seen(rows: seq<Row>, throws: bool)

  const Nothing := Seen([], false)

  /**
   A scan behind its end: the fields that can still be read there, and what the scan shows if it is
   asked again. For a table only an integer that is last in its slot can be read, see
   RecordPages.BehindTheEnd.
   */
  datatype Behind = Behind(row: Row, again: Seen)

  /** What a product or an index join takes from its left scan. */
  function TakenFrom(s: Seen, b: Behind): Seen {
    if s == Nothing then Seen(Taken([], b.row, b.again.rows), b.again.throws) else s
  }

  /** How many rows there are in front of the first that is not ok. */
  function Stop(rows: seq<Row>, ok: Row -> bool): (n: nat)
    ensures n <= |rows| && (forall k :: 0 <= k < n ==> ok(rows[k])) && (n < |rows| ==> !ok(rows[n]))
  {
    if rows == [] || !ok(rows[0]) then 0 else 1 + Stop(rows[1..], ok)
  }

  function CanTest(pred: Pred): Row -> bool {
    (x: Row) => Tested(pred, x).Some?
  }

  function CanRead(fields: set<string>): Row -> bool {
    (x: Row) => fields <= x.Keys
  }

  function KeyOf(field: string): Row -> Option<Value> {
    (x: Row) => if field in x then Some(x[field]) else None
  }

  function SelectShows(s: Seen, pred: Pred): Seen {
    var n := Stop(s.rows, CanTest(pred));
    Seen(Satisfying(s.rows[..n], pred), s.throws || n < |s.rows|)
  }

  function JoinShows(l: Seen, outer: string, field: string, rows: seq<Row>): Seen {
    var n := Stop(l.rows, CanRead({outer}));
    Seen(Merged(Join((x: Row) => FieldOf(x, outer), (r: Row) => FieldOf(r, field), l.rows[..n], rows)),
         l.throws || n < |l.rows|)
  }

  /** The left scan is not asked for a second row before the right one has shown a first. */
  function ProductShows(l: Seen, r: Seen): Seen {
    if l.rows == [] then Seen([], true)
    else if r.throws then Seen(Merged(Product([l.rows[0]], r.rows)), true)
    else if r.rows == [] then Nothing
    else Seen(Merged(Product(l.rows, r.rows)), l.throws)
  }

  /** What reading the scan of p to its end shows; past(q) is the scan of q behind its end. */
  function Shown(p: Plan, past: Plan -> Behind): Seen {
    match p
    case TablePlan(t) => Seen(t.rows, false)
    case IndexSelectPlan(t, field, val) => Seen(Filter(t.rows, field, val), false)
    case SelectPlan(q, pred) => SelectShows(Shown(q, past), pred)
    case IndexJoinPlan(q, t, field, outer) => JoinShows(TakenFrom(Shown(q, past), past(q)), outer, field, t.rows)
    case ProductPlan(q, r) => ProductShows(TakenFrom(Shown(q, past), past(q)), Shown(r, past))
  }

  // ---------- when a scan shows nothing ----------

  /** Whatever the join takes from behind the end can be read, and finds no partner. */
  predicate Quiet(l: Seen, outer: string, field: string, rows: seq<Row>) {
    !l.throws && NoPartner(KeyOf(outer), field, l.rows, rows)
  }

  lemma {:induction false} MergedLength(pairs: seq<(Row, Row)>)
    ensures |Merged(pairs)| == |pairs|
    decreases |pairs|
  {
    if pairs != [] {
      MergedLength(pairs[..|pairs| - 1]);
    }
  }

  lemma NoneInBag<T>(s: seq<T>)
    ensures multiset(s) == multiset{} <==> s == []
  {
    assert |multiset(s)| == |s|;
  }

  lemma JoinShowsNothing(l: Seen, outer: string, field: string, rows: seq<Row>)
    ensures JoinShows(l, outer, field, rows) == Nothing <==> Quiet(l, outer, field, rows)
  {
    var key := (x: Row) => FieldOf(x, outer);
    var n := Stop(l.rows, CanRead({outer}));
    JoinEmpty(key, field, l.rows[..n], rows);
    MergedLength(Join(key, (r: Row) => FieldOf(r, field), l.rows[..n], rows));
    if n < |l.rows| {
      assert KeyOf(outer)(l.rows[n]).None?;
    } else {
      assert l.rows[..n] == l.rows;
      assert forall k :: 0 <= k < |l.rows| ==> KeyOf(outer)(l.rows[k]) == Some(key(l.rows[k]));
    }
  }

  lemma ProductShowsNothing(l: Seen, r: Seen)
    ensures ProductShows(l, r) == Nothing <==> l.rows != [] && r == Nothing
  {
    ProductEmpty(l.rows, r.rows);
    MergedLength(Product(l.rows, r.rows));
  }

  lemma {:induction false} SatisfyingEmpty(rows: seq<Row>, pred: Pred)
    ensures Satisfying(rows, pred) == [] <==> forall k :: 0 <= k < |rows| ==> !Sat(pred, rows[k])
    decreases |rows|
  {
    if rows != [] {
      var init := rows[..|rows| - 1];
      SatisfyingEmpty(init, pred);
      assert forall k :: 0 <= k < |init| ==> rows[k] == init[k];
    }
  }

  lemma SelectShowsNothing(s: Seen, pred: Pred)
    ensures SelectShows(s, pred) == Nothing <==>
            !s.throws && forall k :: 0 <= k < |s.rows| ==> Tested(pred, s.rows[k]) == Some(false)
  {
    var n := Stop(s.rows, CanTest(pred));
    SatisfyingEmpty(s.rows[..n], pred);
    assert n == |s.rows| ==> s.rows[..n] == s.rows;
  }

  // ---------- rows that have their fields ----------

  /** Every predicate and join looks at fields of its input, and all table rows have the table's fields. */
  ghost predicate Typed(p: Plan) {
    match p
    case TablePlan(t) => AllKeys(t.rows, t.fields)
    case IndexSelectPlan(t, _, _) => AllKeys(t.rows, t.fields)
    case SelectPlan(q, pred) => Typed(q) && AllApply(pred, Schema(q))
    case IndexJoinPlan(q, t, _, outer) => Typed(q) && AllKeys(t.rows, t.fields) && outer in Schema(q)
    case ProductPlan(q, r) => Typed(q) && Typed(r)
  }

  lemma {:induction false} FilterKeys(rows: seq<Row>, field: string, val: Value, fields: set<string>)
    requires AllKeys(rows, fields)
    ensures AllKeys(Filter(rows, field, val), fields)
    decreases |rows|
  {
    if rows != [] {
      FilterKeys(rows[..|rows| - 1], field, val, fields);
    }
  }

  lemma {:induction false} SatisfyingKeys(rows: seq<Row>, pred: Pred, fields: set<string>)
    requires AllKeys(rows, fields)
    ensures AllKeys(Satisfying(rows, pred), fields)
    decreases |rows|
  {
    if rows != [] {
      SatisfyingKeys(rows[..|rows| - 1], pred, fields);
    }
  }

  lemma {:induction false} TypedKeys(p: Plan)
    requires Typed(p)
    ensures AllKeys(Eval(p), Schema(p))
  {
    match p
    case TablePlan(_) =>
    case IndexSelectPlan(t, field, val) => FilterKeys(t.rows, field, val, t.fields);
    case SelectPlan(q, pred) =>
      TypedKeys(q);
      SatisfyingKeys(Eval(q), pred, Schema(q));
    case IndexJoinPlan(q, t, field, outer) =>
      TypedKeys(q);
      var key1, key2 := (l: Row) => FieldOf(l, outer), (r: Row) => FieldOf(r, field);
      JoinKeys(key1, key2, Eval(q), t.rows, Schema(q), t.fields);
      MergedKeys(Join(key1, key2, Eval(q), t.rows), Schema(q), t.fields);
    case ProductPlan(q, r) =>
      TypedKeys(q);
      TypedKeys(r);
      ProductKeys(Eval(q), Eval(r), Schema(q), Schema(r));
      MergedKeys(Product(Eval(q), Eval(r)), Schema(q), Schema(r));
  }

  lemma SelectShowsAll(rows: seq<Row>, pred: Pred, fields: set<string>)
    requires AllKeys(rows, fields) && AllApply(pred, fields)
    ensures SelectShows(Seen(rows, false), pred) == Seen(Satisfying(rows, pred), false)
  {
    var n := Stop(rows, CanTest(pred));
    if n < |rows| {
      TestedInFull(pred, rows[n]);
    }
    assert rows[..n] == rows;
  }

  lemma JoinShowsAll(rows: seq<Row>, outer: string, field: string, rrows: seq<Row>, fields: set<string>)
    requires AllKeys(rows, fields) && outer in fields
    ensures JoinShows(Seen(rows, false), outer, field, rrows) ==
            Seen(Merged(Join((x: Row) => FieldOf(x, outer), (r: Row) => FieldOf(r, field), rows, rrows)), false)
  {
    var n := Stop(rows, CanRead({outer}));
    assert rows[..n] == rows;
  }

  lemma ProductShowsAll(lrows: seq<Row>, rrows: seq<Row>)
    requires lrows != []
    ensures ProductShows(Seen(lrows, false), Seen(rrows, false)) == Seen(Merged(Product(lrows, rrows)), false)
  {
    ProductWithNone<Row, Row>(lrows);
  }

  // ---------- when everything shown is right ----------

  /**
   Nowhere in the plan does an empty left input meet right rows to go with it, and an index join with an
   empty left input can read its join field behind the end and finds no partner for it.
   */
  predicate Clean(p: Plan, past: Plan -> Behind) {
    match p
    case TablePlan(_) => true
    case IndexSelectPlan(_, _, _) => true
    case SelectPlan(q, _) => Clean(q, past)
    case IndexJoinPlan(q, t, field, outer) =>
      Clean(q, past) && (Eval(q) != [] || Quiet(TakenFrom(Nothing, past(q)), outer, field, t.rows))
    case ProductPlan(q, r) => Clean(q, past) && Clean(r, past) && (Eval(q) != [] || Eval(r) == [])
  }

  /** Every scan in the plan ends, having shown the rows of its part of the plan. */
  predicate Faithful(p: Plan, past: Plan -> Behind) {
    && !Shown(p, past).throws && multiset(Shown(p, past).rows) == multiset(Eval(p))
    && match p
       case TablePlan(_) => true
       case IndexSelectPlan(_, _, _) => true
       case SelectPlan(q, _) => Faithful(q, past)
       case IndexJoinPlan(q, _, _, _) => Faithful(q, past)
       case ProductPlan(q, r) => Faithful(q, past) && Faithful(r, past)
  }

  /** Over an input that shows its rows, a join shows its own just if there are some or it is quiet without. */
  lemma JoinNode(p: Plan, past: Plan -> Behind)
    requires p.IndexJoinPlan? && Typed(p) && Shown(p.p, past) == Seen(Eval(p.p), false)
    ensures Eval(p.p) != [] || Quiet(TakenFrom(Nothing, past(p.p)), p.outer, p.field, p.t.rows) ==>
              Shown(p, past) == Seen(Eval(p), false)
    ensures Eval(p.p) == [] && !Quiet(TakenFrom(Nothing, past(p.p)), p.outer, p.field, p.t.rows) ==>
              Eval(p) == [] && Shown(p, past) != Nothing
  {
    TypedKeys(p.p);
    if Eval(p.p) != [] {
      JoinShowsAll(Eval(p.p), p.outer, p.field, p.t.rows, Schema(p.p));
    } else {
      JoinShowsNothing(TakenFrom(Nothing, past(p.p)), p.outer, p.field, p.t.rows);
    }
  }

  lemma ProductNode(p: Plan, past: Plan -> Behind)
    requires p.ProductPlan? && Shown(p.left, past) == Seen(Eval(p.left), false)
    requires Shown(p.right, past) == Seen(Eval(p.right), false)
    ensures Eval(p.left) != [] || Eval(p.right) == [] ==> Shown(p, past) == Seen(Eval(p), false)
    ensures Eval(p.left) == [] && Eval(p.right) != [] ==> Eval(p) == [] && Shown(p, past) != Nothing
  {
    if Eval(p.left) != [] {
      ProductShowsAll(Eval(p.left), Eval(p.right));
    } else {
      ProductShowsNothing(TakenFrom(Nothing, past(p.left)), Shown(p.right, past));
    }
  }

  /** In a clean plan the scan shows the plan's rows, in their order. */
  lemma {:induction false} CleanShows(p: Plan, past: Plan -> Behind)
    requires Typed(p) && Clean(p, past)
    ensures Shown(p, past) == Seen(Eval(p), false)
  {
    match p
    case TablePlan(_) =>
    case IndexSelectPlan(_, _, _) =>
    case SelectPlan(q, pred) =>
      CleanShows(q, past);
      TypedKeys(q);
      SelectShowsAll(Eval(q), pred, Schema(q));
    case IndexJoinPlan(q, _, _, _) =>
      CleanShows(q, past);
      JoinNode(p, past);
    case ProductPlan(q, r) =>
      CleanShows(q, past);
      CleanShows(r, past);
      ProductNode(p, past);
  }

  /** Everything a plan's scans show is right exactly when the plan is clean. */
  lemma {:induction false} FaithfulIffClean(p: Plan, past: Plan -> Behind)
    requires Typed(p)
    ensures Faithful(p, past) <==> Clean(p, past)
  {
    if Clean(p, past) {
      CleanShows(p, past);
    }
    NoneInBag(Shown(p, past).rows);
    match p
    case TablePlan(_) =>
    case IndexSelectPlan(_, _, _) =>
    case SelectPlan(q, _) => FaithfulIffClean(q, past);
    case IndexJoinPlan(q, _, _, _) =>
      FaithfulIffClean(q, past);
      if Clean(q, past) {
        CleanShows(q, past);
        JoinNode(p, past);
      }
    case ProductPlan(q, r) =>
      FaithfulIffClean(q, past);
      FaithfulIffClean(r, past);
      if Clean(q, past) && Clean(r, past) {
        CleanShows(q, past);
        CleanShows(r, past);
        ProductNode(p, past);
      }
  }

  /** A plan with an answer is clean. */
  lemma {:induction false} AnswersAreClean(p: Plan, past: Plan -> Behind)
    requires Eval(p) != []
    ensures Clean(p, past)
  {
    match p
    case TablePlan(_) =>
    case IndexSelectPlan(_, _, _) =>
    case SelectPlan(q, _) => AnswersAreClean(q, past);
    case IndexJoinPlan(q, _, _, _) => AnswersAreClean(q, past);
    case ProductPlan(q, r) =>
      ProductWithNone<Row, Row>(Eval(q));
      AnswersAreClean(q, past);
      AnswersAreClean(r, past);
  }

  // ---------- the answer to a query ----------

  /**
   No row gets through the outermost operator: a select drops every row its input shows, an index join
   finds no partner, the right input of a product has no row; and nothing has to be read that cannot be.
   */
  predicate Stopped(p: Plan, past: Plan -> Behind) {
    match p
    case TablePlan(t) => t.rows == []
    case IndexSelectPlan(t, field, val) => Filter(t.rows, field, val) == []
    case SelectPlan(q, pred) =>
      var s := Shown(q, past);
      !s.throws && forall k :: 0 <= k < |s.rows| ==> Tested(pred, s.rows[k]) == Some(false)
    case IndexJoinPlan(q, t, field, outer) => Quiet(TakenFrom(Shown(q, past), past(q)), outer, field, t.rows)
    case ProductPlan(q, r) => TakenFrom(Shown(q, past), past(q)).rows != [] && Stopped(r, past)
  }

  lemma {:induction false} StoppedShowsNothing(p: Plan, past: Plan -> Behind)
    ensures Shown(p, past) == Nothing <==> Stopped(p, past)
  {
    match p
    case TablePlan(_) =>
    case IndexSelectPlan(_, _, _) =>
    case SelectPlan(q, pred) => SelectShowsNothing(Shown(q, past), pred);
    case IndexJoinPlan(q, t, field, outer) =>
      JoinShowsNothing(TakenFrom(Shown(q, past), past(q)), outer, field, t.rows);
    case ProductPlan(q, r) =>
      ProductShowsNothing(TakenFrom(Shown(q, past), past(q)), Shown(r, past));
      StoppedShowsNothing(r, past);
  }

  // ---------- inputs on which it goes wrong ----------

  /** An empty table in front of a table with one row: there is no combination, and one is shown. */
  lemma EmptyLeftShown(a: string, b: string, val: Value, past: Plan -> Behind)
    ensures
      var p := ProductPlan(TablePlan(TableInfo({a}, [], [])), TablePlan(TableInfo({b}, [map[b := val]], [])));
      Eval(p) == [] && Shown(p, past).rows != [] && !Clean(p, past)
  {
    var taken := TakenFrom(Nothing, past(TablePlan(TableInfo({a}, [], []))));
    var pairs := Product(taken.rows, [map[b := val]]);
    ProductEmpty(taken.rows, [map[b := val]]);
    MergedLength(pairs);
  }

  /** An empty table whose join field cannot be read behind the end: the query throws, even with no row to join. */
  lemma EmptyLeftThrows(a: string, b: string, rows: seq<Row>, past: Plan -> Behind)
    ensures
      var left := TablePlan(TableInfo({a}, [], []));
      var p := IndexJoinPlan(left, TableInfo({b}, rows, [b]), b, a);
      Eval(p) == [] && (a !in past(left).row ==> Shown(p, past) == Seen([], true) && !Clean(p, past))
  {
    var left := TablePlan(TableInfo({a}, [], []));
    var l := TakenFrom(Nothing, past(left));
    if a !in past(left).row {
      assert l.rows[0] == past(left).row && KeyOf(a)(l.rows[0]).None?;
      assert Stop(l.rows, CanRead({a})) == 0;
    }
  }

  // ---------- the selection ----------

  lemma SatisfyingUpTo(rows: seq<Row>, pred: Pred, i: nat)
    requires i < |rows|
    ensures Satisfying(rows[..i + 1], pred) == Satisfying(rows[..i], pred) + if Sat(pred, rows[i]) then [rows[i]] else []
  {
    assert rows[..i + 1][..i] == rows[..i];
  }

  /** The first i rows can be tested, and these are the ones that satisfy the predicate. */
  ghost predicate Selected(rows: seq<Row>, pred: Pred, i: nat, out: seq<Row>) {
    i <= |rows| && out == Satisfying(rows[..i], pred) && Stop(rows, CanTest(pred)) >= i
  }

  lemma SelectedNext(rows: seq<Row>, pred: Pred, i: nat, out: seq<Row>)
    requires Selected(rows, pred, i, out) && i < |rows|
    ensures Tested(pred, rows[i]).None? ==> SelectShows(Seen(rows, false), pred) == Seen(out, true)
    ensures Tested(pred, rows[i]) == Some(true) ==> Selected(rows, pred, i + 1, out + [rows[i]])
    ensures Tested(pred, rows[i]) == Some(false) ==> Selected(rows, pred, i + 1, out)
  {
    SatisfyingUpTo(rows, pred, i);
    assert CanTest(pred)(rows[i]) == Tested(pred, rows[i]).Some?;
  }

  lemma SelectedAll(rows: seq<Row>, pred: Pred, out: seq<Row>)
    requires Selected(rows, pred, |rows|, out)
    ensures SelectShows(Seen(rows, false), pred) == Seen(out, false)
  {
  }

  class SelectScan {
    const src: ListScan<Row>
    const pred: Pred
    ghost var out: seq<Row>          // the rows shown so far

    ghost predicate Valid()
      reads this, src
    {
      src.Valid() && src.pos < |src.rows| && Selected(src.rows, pred, src.pos + 1, out)
    }

    constructor (src: ListScan<Row>, pred: Pred)
      requires src.Valid() && src.pos == -1
      ensures Valid() && out == [] && this.src == src && this.pred == pred
    {
      this.src, this.pred, out := src, pred, [];
    }

    /** Shows the current row if it satisfies the predicate; Ends stands for going on. */
    method Try() returns (r: Outcome)
      requires Testing() && src.pos < |src.rows|
      modifies this`out
      ensures r.Shows? ==> Valid() && out == old(out) + [src.rows[src.pos]]
      ensures r.Ends? ==> Valid() && out == old(out)
      ensures r.Throws? ==> out == old(out) && SelectShows(Seen(src.rows, false), pred) == Seen(out, true)
    {
      SelectedNext(src.rows, pred, src.pos, out);
      var row := src.Row();
      var holds := IsSatisfied(pred, row);
      if holds == Some(true) {
        out := out + [row];
        return Shows;
      }
      r := if holds.None? then Throws else Ends;
    }

    /** The source is on a row that is still to be tested, or at its end. */
    ghost predicate Testing()
      reads this, src
    {
      src.Valid() && 0 <= src.pos <= |src.rows| && Selected(src.rows, pred, src.pos, out)
    }

    method NextSource() returns (found: bool)
      requires Valid()
      modifies src
      ensures Testing() && found == (src.pos < |src.rows|) && src.pos == old(src.pos) + 1
    {
      found := src.Next();
      assert src.rows != [] ==> src.TakenRows() == src.rows;
    }

    /** The next row that satisfies the predicate, unless a row before it cannot be tested. */
    method Next() returns (r: Outcome)
      requires Valid()
      modifies this`out, src
      ensures r.Shows? ==> Valid() && src.pos >= 0 && out == old(out) + [src.rows[src.pos]]
      ensures !r.Shows? ==> out == old(out) && SelectShows(Seen(src.rows, false), pred) == Seen(out, r.Throws?)
    {
      var found := NextSource();
      while found
        invariant Testing() && found == (src.pos < |src.rows|) && out == old(out)
        decreases |src.rows| - src.pos
      {
        r := Try();
        if !r.Ends? {
          return;
        }
        found := NextSource();
      }
      SelectedAll(src.rows, pred, out);
      r := Ends;
    }
  }
}
