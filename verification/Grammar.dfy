/**
 What the parser accepts, token by token: a text is read as a query if and only if it starts with the
 query's tokens, and what comes next could not go on with it.
 */
module Grammar {
  import opened DbTypes
  import opened Predicates
  import opened Lexing
  import opened Parsing

  // ---------- the tokens of a query ----------

  function NameTokens(names: seq<string>): seq<Token> {
    if names == [] then []
    else if |names| == 1 then [Word(names[0])]
    else [Word(names[0]), Delim(',')] + NameTokens(names[1..])
  }

  function ExprToken(e: Expr): Token {
    match e
    case Field(f) => Word(f)
    case Const(IntVal(i)) => if i >= 0 then Num(i) else End
    case Const(StrVal(s)) => Str(s)
  }

  function TermTokens(t: Term): seq<Token> {
    [ExprToken(t.lhs), Delim('='), ExprToken(t.rhs)]
  }

  function PredTokens(pred: Pred): seq<Token> {
    if pred == [] then []
    else if |pred| == 1 then TermTokens(pred[0])
    else TermTokens(pred[0]) + [Word("and")] + PredTokens(pred[1..])
  }

  function WhereTokens(pred: Pred): seq<Token> {
    if pred == [] then [] else [Word("where")] + PredTokens(pred)
  }

  function QueryTokens(q: QueryData): seq<Token> {
    [Word("select")] + NameTokens(q.fields) + [Word("from")] + NameTokens(q.tables) + WhereTokens(q.pred)
  }

  predicate IsId(w: string) {
    w !in KEYWORDS
  }

  predicate AllIds(names: seq<string>) {
    names != [] && forall k :: 0 <= k < |names| ==> IsId(names[k])
  }

  predicate ExprLegal(e: Expr) {
    match e
    case Field(f) => IsId(f)
    case Const(IntVal(i)) => i >= 0
    case Const(StrVal(_)) => true
  }

  predicate PredLegal(pred: Pred) {
    forall k :: 0 <= k < |pred| ==> ExprLegal(pred[k].lhs) && ExprLegal(pred[k].rhs)
  }

  predicate Legal(q: QueryData) {
    AllIds(q.fields) && AllIds(q.tables) && PredLegal(q.pred)
  }

  /** Where reading these tokens from st on leads to, if they are there. */
  function After(st: St, toks: seq<Token>): Option<St>
    decreases |toks|
  {
    if toks == [] then Some(st)
    else if st.tok != toks[0] then None
    else
      match NextToken(st.rest)
      case BadSyntax => None
      case Ok(st1) => After(st1, toks[1..])
  }

  function AfterBoth(mid: Option<St>, toks: seq<Token>): Option<St> {
    match mid
    case None => None
    case Some(st) => After(st, toks)
  }

  lemma {:induction false} AfterConcat(st: St, a: seq<Token>, b: seq<Token>)
    ensures After(st, a + b) == AfterBoth(After(st, a), b)
    decreases |a|
  {
    if a == [] {
      assert a + b == b;
    } else {
      assert (a + b)[1..] == a[1..] + b;
      if st.tok == a[0] && NextToken(st.rest).Ok? {
        AfterConcat(NextToken(st.rest).value, a[1..], b);
      }
    }
  }

  lemma AfterOne(st: St, tok: Token)
    ensures After(st, [tok]) == if st.tok == tok && NextToken(st.rest).Ok? then Some(NextToken(st.rest).value) else None
  {
  }

  // ---------- lists of names ----------

  /** A list is read if and only if its tokens are there and no comma follows. */
  lemma {:induction false} NamesExact(st: St, names: seq<string>, st': St)
    ensures NameList(st) == Yes(names, st') <==>
            AllIds(names) && After(st, NameTokens(names)) == Some(st') && st'.tok != Delim(',')
    decreases |names|
  {
    if |names| == 1 {
      AfterOne(st, Word(names[0]));
      OneNameExact(st, names, st');
    } else if |names| > 1 {
      var rest := names[1..];
      assert AllIds(names) <==> IsId(names[0]) && AllIds(rest) by {
        assert forall k :: 0 < k < |names| ==> names[k] == rest[k - 1];
      }
      MoreTokens(st, names);
      if AtId(st) && NextToken(st.rest).Ok? && NextToken(NextToken(st.rest).value.rest).Ok? {
        NamesExact(NextToken(NextToken(st.rest).value.rest).value, rest, st');
      }
      MoreNamesExact(st, names, st');
    }
  }

  lemma OneNameExact(st: St, names: seq<string>, st': St)
    requires |names| == 1
    ensures NameList(st) == Yes(names, st') <==>
            st.tok == Word(names[0]) && IsId(names[0]) && NextToken(st.rest) == Ok(st') && st'.tok != Delim(',')
  {
    assert names == [names[0]];
    var r := NameList(st);
    if r.Yes? && NextToken(st.rest).value.tok == Delim(',') {
      assert |r.value| > 1;
    }
  }

  lemma MoreTokens(st: St, names: seq<string>)
    requires |names| > 1
    ensures After(st, NameTokens(names)) ==
            if st.tok == Word(names[0]) && NextToken(st.rest).Ok? && NextToken(st.rest).value.tok == Delim(',') &&
               NextToken(NextToken(st.rest).value.rest).Ok?
            then After(NextToken(NextToken(st.rest).value.rest).value, NameTokens(names[1..])) else None
  {
    AfterConcat(st, [Word(names[0]), Delim(',')], NameTokens(names[1..]));
  }

  lemma MoreNamesExact(st: St, names: seq<string>, st': St)
    requires |names| > 1
    ensures NameList(st) == Yes(names, st') <==>
            && AtId(st) && st.tok == Word(names[0])
            && NextToken(st.rest).Ok? && NextToken(st.rest).value.tok == Delim(',')
            && NextToken(NextToken(st.rest).value.rest).Ok?
            && NameList(NextToken(NextToken(st.rest).value.rest).value) == Yes(names[1..], st')
  {
    assert names == [names[0]] + names[1..];
    if AtId(st) && NextToken(st.rest).Ok? && NextToken(st.rest).value.tok == Delim(',')
       && NextToken(NextToken(st.rest).value.rest).Ok? {
      var r := NameList(NextToken(NextToken(st.rest).value.rest).value);
      if r.Yes? {
        assert ([st.tok.w] + r.value)[0] == st.tok.w && ([st.tok.w] + r.value)[1..] == r.value;
      }
    }
  }

  // ---------- predicates ----------

  lemma ExpressionExact(st: St, e: Expr, st': St)
    ensures Expression(st) == Yes(e, st') <==> ExprLegal(e) && After(st, [ExprToken(e)]) == Some(st')
  {
    AfterOne(st, ExprToken(e));
  }

  lemma TermExact(st: St, t: Term, st': St)
    ensures TermAt(st) == Yes(t, st') <==>
            ExprLegal(t.lhs) && ExprLegal(t.rhs) && After(st, TermTokens(t)) == Some(st')
  {
    var l, r := [ExprToken(t.lhs)], [ExprToken(t.rhs)];
    assert TermTokens(t) == l + ([Delim('=')] + r);
    AfterConcat(st, l, [Delim('=')] + r);
    var first := Expression(st);
    if first.Yes? {
      ExpressionExact(st, first.value, first.st);
      BehindEquals(first.st, t.rhs, st');
    }
    if After(st, l).Some? {
      ExpressionExact(st, t.lhs, After(st, l).value);
      BehindEquals(After(st, l).value, t.rhs, st');
    }
  }

  lemma BehindEquals(st: St, e: Expr, st': St)
    ensures (TakeDelim(st, '=').Ok? && Expression(TakeDelim(st, '=').value) == Yes(e, st')) <==>
            ExprLegal(e) && After(st, [Delim('=')] + [ExprToken(e)]) == Some(st')
  {
    AfterConcat(st, [Delim('=')], [ExprToken(e)]);
    AfterOne(st, Delim('='));
    if TakeDelim(st, '=').Ok? {
      ExpressionExact(TakeDelim(st, '=').value, e, st');
    }
  }

  /** A conjunction is read if and only if its tokens are there and no "and" follows. */
  lemma {:induction false} PredicateExact(st: St, pred: Pred, st': St)
    ensures Predicate(st) == Yes(pred, st') <==>
            pred != [] && PredLegal(pred) && After(st, PredTokens(pred)) == Some(st') && st'.tok != Word("and")
    decreases |pred|
  {
    if pred != [] {
      var t := TermAt(st);
      if t.Yes? {
        TermExact(st, t.value, t.st);
      }
      if After(st, TermTokens(pred[0])).Some? {
        TermExact(st, pred[0], After(st, TermTokens(pred[0])).value);
      }
      if |pred| == 1 {
        OneTermExact(st, pred, st');
      } else {
        LegalRest(pred);
        MoreTermTokens(st, pred);
        if t.Yes? && NextToken(t.st.rest).Ok? {
          PredicateExact(NextToken(t.st.rest).value, pred[1..], st');
        }
        MoreTermsExact(st, pred, st');
      }
    }
  }

  lemma LegalRest(pred: Pred)
    requires |pred| > 1
    ensures PredLegal(pred) <==> ExprLegal(pred[0].lhs) && ExprLegal(pred[0].rhs) && PredLegal(pred[1..])
  {
    assert forall k :: 0 < k < |pred| ==> pred[k] == pred[1..][k - 1];
  }

  lemma OneTermExact(st: St, pred: Pred, st': St)
    requires |pred| == 1
    ensures Predicate(st) == Yes(pred, st') <==> TermAt(st) == Yes(pred[0], st') && st'.tok != Word("and")
  {
    assert pred == [pred[0]];
    var r := Predicate(st);
    if r.Yes? && TermAt(st).st.tok == Word("and") {
      assert |r.value| > 1;
    }
  }

  lemma MoreTermTokens(st: St, pred: Pred)
    requires |pred| > 1
    ensures
      var mid := After(st, TermTokens(pred[0]));
      After(st, PredTokens(pred)) ==
      if mid.Some? && mid.value.tok == Word("and") && NextToken(mid.value.rest).Ok?
      then After(NextToken(mid.value.rest).value, PredTokens(pred[1..])) else None
  {
    var first, rest := TermTokens(pred[0]), PredTokens(pred[1..]);
    assert PredTokens(pred) == first + ([Word("and")] + rest);
    AfterConcat(st, first, [Word("and")] + rest);
    if After(st, first).Some? {
      var mid := After(st, first).value;
      AfterConcat(mid, [Word("and")], rest);
      AfterOne(mid, Word("and"));
    }
  }

  lemma MoreTermsExact(st: St, pred: Pred, st': St)
    requires |pred| > 1
    ensures Predicate(st) == Yes(pred, st') <==>
            && TermAt(st).Yes? && TermAt(st).value == pred[0]
            && TermAt(st).st.tok == Word("and") && NextToken(TermAt(st).st.rest).Ok?
            && Predicate(NextToken(TermAt(st).st.rest).value) == Yes(pred[1..], st')
  {
    assert pred == [pred[0]] + pred[1..];
    var t := TermAt(st);
    if t.Yes? && t.st.tok == Word("and") && NextToken(t.st.rest).Ok? {
      var r := Predicate(NextToken(t.st.rest).value);
      if r.Yes? {
        assert ([t.value] + r.value)[0] == t.value && ([t.value] + r.value)[1..] == r.value;
      }
    }
  }

  // ---------- whole queries ----------

  /** What follows the query could not be part of it. */
  predicate EndsAt(q: QueryData, st: St) {
    if q.pred == [] then st.tok != Delim(',') && st.tok != Word("where") else st.tok != Word("and")
  }

  lemma WhereExact(st: St, pred: Pred, st': St)
    ensures WhereClause(st) == Yes(pred, st') <==>
            && PredLegal(pred) && After(st, WhereTokens(pred)) == Some(st')
            && (if pred == [] then st'.tok != Word("where") else st'.tok != Word("and"))
  {
    AfterConcat(st, [Word("where")], PredTokens(pred));
    AfterOne(st, Word("where"));
    if st.tok == Word("where") && NextToken(st.rest).Ok? {
      PredicateExact(NextToken(st.rest).value, pred, st');
    }
  }

  /** The tables, up to mid, and what comes behind them. */
  lemma TablesUpTo(st: St, tables: seq<string>, mid: St)
    ensures NameList(st) == Yes(tables, mid) <==>
            AllIds(tables) && After(st, NameTokens(tables)) == Some(mid) && mid.tok != Delim(',')
  {
    NamesExact(st, tables, mid);
  }

  lemma TablesExact(st: St, tables: seq<string>, pred: Pred, st': St)
    ensures (NameList(st).Yes? && NameList(st).value == tables && WhereClause(NameList(st).st) == Yes(pred, st')) <==>
            && AllIds(tables) && PredLegal(pred) && After(st, NameTokens(tables) + WhereTokens(pred)) == Some(st')
            && EndsAt(QueryData([], tables, pred), st')
  {
    AfterConcat(st, NameTokens(tables), WhereTokens(pred));
    var mid := After(st, NameTokens(tables));
    if NameList(st).Yes? && NameList(st).value == tables {
      TablesUpTo(st, tables, NameList(st).st);
      WhereExact(NameList(st).st, pred, st');
      WhereEnds(NameList(st).st, tables, pred, st');
    } else if mid.Some? && AllIds(tables) {
      TablesUpTo(st, tables, mid.value);
      WhereEnds(mid.value, tables, pred, st');
    }
  }

  lemma WhereEnds(mid: St, tables: seq<string>, pred: Pred, st': St)
    ensures After(mid, WhereTokens(pred)) == Some(st') ==>
              (EndsAt(QueryData([], tables, pred), st') <==>
               mid.tok != Delim(',') && (if pred == [] then st'.tok != Word("where") else st'.tok != Word("and")))
  {
    if After(mid, WhereTokens(pred)) == Some(st') {
      BehindTables(mid, pred, st');
    }
  }

  /** Behind the tables there is no comma: the where clause starts, or the query ends there. */
  lemma BehindTables(mid: St, pred: Pred, st': St)
    requires After(mid, WhereTokens(pred)) == Some(st')
    ensures pred == [] ==> mid == st'
    ensures pred != [] ==> mid.tok == Word("where")
  {
  }

  lemma FromExact(st: St, q: QueryData, st': St)
    ensures FromClause(st, q.fields) == Yes(q, st') <==>
            && AllIds(q.tables) && PredLegal(q.pred) && EndsAt(q, st')
            && After(st, [Word("from")] + (NameTokens(q.tables) + WhereTokens(q.pred))) == Some(st')
  {
    AfterConcat(st, [Word("from")], NameTokens(q.tables) + WhereTokens(q.pred));
    AfterOne(st, Word("from"));
    if st.tok == Word("from") && NextToken(st.rest).Ok? {
      TablesExact(NextToken(st.rest).value, q.tables, q.pred, st');
    }
  }

  lemma FieldsExact(st: St, q: QueryData, st': St)
    ensures (NameList(st).Yes? && FromClause(NameList(st).st, NameList(st).value) == Yes(q, st')) <==>
            && Legal(q) && EndsAt(q, st')
            && After(st, NameTokens(q.fields) + ([Word("from")] + (NameTokens(q.tables) + WhereTokens(q.pred)))) == Some(st')
  {
    var rest := [Word("from")] + (NameTokens(q.tables) + WhereTokens(q.pred));
    var r, mid := NameList(st), After(st, NameTokens(q.fields));
    AfterConcat(st, NameTokens(q.fields), rest);
    if r.Yes? {
      NamesExact(st, r.value, r.st);
      FromExact(r.st, q, st');
    }
    if mid.Some? {
      NamesExact(st, q.fields, mid.value);
      FromExact(mid.value, q, st');
    }
  }

  /**
   The parser reads q from a text exactly if the text's first tokens are those of q, q is a query with
   proper names and no negative integers, and the token behind it could not go on with it.
   */
  lemma ParseExact(text: string, q: QueryData)
    ensures Parse(text) == Ok(q) <==>
            && Legal(q) && NextToken(text).Ok?
            && var end := After(NextToken(text).value, QueryTokens(q));
            end.Some? && EndsAt(q, end.value)
  {
    if NextToken(text).Ok? {
      QueryExact(NextToken(text).value, q);
    }
  }

  function BehindSelect(q: QueryData): seq<Token> {
    NameTokens(q.fields) + ([Word("from")] + (NameTokens(q.tables) + WhereTokens(q.pred)))
  }

  lemma SelectToken(q: QueryData)
    ensures QueryTokens(q) == [Word("select")] + BehindSelect(q)
  {
  }

  lemma AfterSelect(st: St, q: QueryData)
    ensures After(st, QueryTokens(q)) ==
            match TakeKeyword(st, "select") case BadSyntax => None case Ok(st1) => After(st1, BehindSelect(q))
  {
    SelectToken(q);
    AfterConcat(st, [Word("select")], BehindSelect(q));
    AfterOne(st, Word("select"));
  }

  lemma QueryExact(st: St, q: QueryData)
    ensures (Query(st).Yes? && Query(st).value == q) <==>
            Legal(q) && After(st, QueryTokens(q)).Some? && EndsAt(q, After(st, QueryTokens(q)).value)
  {
    AfterSelect(st, q);
    if TakeKeyword(st, "select").Ok? {
      SelectExact(TakeKeyword(st, "select").value, q, BehindSelect(q));
    }
  }

  lemma SelectExact(st: St, q: QueryData, toks: seq<Token>)
    requires toks == NameTokens(q.fields) + ([Word("from")] + (NameTokens(q.tables) + WhereTokens(q.pred)))
    ensures (NameList(st).Yes? && FromClause(NameList(st).st, NameList(st).value).Yes? &&
             FromClause(NameList(st).st, NameList(st).value).value == q) <==>
            Legal(q) && After(st, toks).Some? && EndsAt(q, After(st, toks).value)
  {
    if After(st, toks).Some? {
      FieldsExact(st, q, After(st, toks).value);
    }
    if NameList(st).Yes? && FromClause(NameList(st).st, NameList(st).value).Yes? {
      FieldsExact(st, q, FromClause(NameList(st).st, NameList(st).value).st);
    }
  }
}
