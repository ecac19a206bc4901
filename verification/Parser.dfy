/** The recursive-descent grammar of queries, over the lexer. */
module Parsing {
  import opened DbTypes
  import opened Predicates
  import opened Lexing

  datatype QueryData = QueryData(fields: seq<string>, tables: seq<string>, pred: Pred)

  /** What was read and where the lexer is then, or a syntax error. */
  datatype Parsed<T> = Yes(value: T, st: St) | No

  // ---------- the grammar ----------

  /** select_list, table_list and field_list */
  function NameList(st: St): (r: Parsed<seq<string>>)
    ensures r.Yes? ==> r.value != [] && |r.st.rest| <= |st.rest|
    decreases |st.rest|
  {
    if !AtId(st) then No
    else
      match NextToken(st.rest)
      case BadSyntax => No
      case Ok(st1) =>
        if st1.tok != Delim(',') then Yes([st.tok.w], st1)
        else
          match NextToken(st1.rest)
          case BadSyntax => No
          case Ok(st2) =>
            match NameList(st2)
            case No => No
            case Yes(names, st3) => Yes([st.tok.w] + names, st3)
  }

  function Constant(st: St): (r: Parsed<Value>)
    ensures r.Yes? ==> |r.st.rest| <= |st.rest|
  {
    if !st.tok.Str? && !st.tok.Num? then No
    else
      match NextToken(st.rest)
      case BadSyntax => No
      case Ok(st1) => Yes(if st.tok.Str? then StrVal(st.tok.s) else IntVal(st.tok.n), st1)
  }

  function Expression(st: St): (r: Parsed<Expr>)
    ensures r.Yes? ==> |r.st.rest| <= |st.rest|
  {
    if AtId(st) then
      match NextToken(st.rest)
      case BadSyntax => No
      case Ok(st1) => Yes(Field(st.tok.w), st1)
    else
      match Constant(st)
      case No => No
      case Yes(v, st1) => Yes(Const(v), st1)
  }

  function TermAt(st: St): (r: Parsed<Term>)
    ensures r.Yes? ==> |r.st.rest| <= |st.rest|
  {
    match Expression(st)
    case No => No
    case Yes(lhs, st1) =>
      match TakeDelim(st1, '=')
      case BadSyntax => No
      case Ok(st2) =>
        match Expression(st2)
        case No => No
        case Yes(rhs, st3) => Yes(Term(lhs, rhs), st3)
  }

  function Predicate(st: St): (r: Parsed<Pred>)
    ensures r.Yes? ==> r.value != [] && |r.st.rest| <= |st.rest|
    decreases |st.rest|
  {
    match TermAt(st)
    case No => No
    case Yes(term, st1) =>
      if st1.tok != Word("and") then Yes([term], st1)
      else
        match NextToken(st1.rest)
        case BadSyntax => No
        case Ok(st2) =>
          match Predicate(st2)
          case No => No
          case Yes(terms, st3) => Yes([term] + terms, st3)
  }

  function WhereClause(st: St): Parsed<Pred> {
    if st.tok != Word("where") then Yes([], st)
    else
      match NextToken(st.rest)
      case BadSyntax => No
      case Ok(st1) => Predicate(st1)
  }

  function FromClause(st: St, fields: seq<string>): Parsed<QueryData> {
    match TakeKeyword(st, "from")
    case BadSyntax => No
    case Ok(st1) =>
      match NameList(st1)
      case No => No
      case Yes(tables, st2) =>
        match WhereClause(st2)
        case No => No
        case Yes(pred, st3) => Yes(QueryData(fields, tables, pred), st3)
  }

  function Query(st: St): Parsed<QueryData> {
    match TakeKeyword(st, "select")
    case BadSyntax => No
    case Ok(st1) =>
      match NameList(st1)
      case No => No
      case Yes(fields, st2) => FromClause(st2, fields)
  }

  /** Parsing a text with a fresh parser. Text behind the query is not looked at. */
  function Parse(text: string): Result<QueryData> {
    match NextToken(text)
    case BadSyntax => BadSyntax
    case Ok(st) =>
      match Query(st)
      case No => BadSyntax
      case Yes(q, _) => Ok(q)
  }

  // ---------- the parser ----------

  class Parser {
    const lexer: Lexer

    constructor ()
      ensures fresh(lexer) && lexer.Valid() && lexer.pos == 0
    {
      lexer := new Lexer();
    }

    /** r and the lexer are what the grammar says of the state before. */
    ghost predicate Did<T(!new)>(r: Result<T>, p: Parsed<T>)
      reads lexer
    {
      r.Ok? == p.Yes? && (r.Ok? ==> lexer.Valid() && r.value == p.value && lexer.State() == p.st)
    }

    method ReadNames() returns (r: Result<seq<string>>)
      requires lexer.Valid()
      modifies lexer`pos, lexer`curr
      ensures Did(r, NameList(old(lexer.State())))
      decreases |lexer.input| - lexer.pos
    {
      var first := lexer.ConsumeId();
      if first.BadSyntax? {
        return BadSyntax;
      }
      if !lexer.MatchDelimiter(',') {
        return Ok([first.value]);
      }
      var ok := lexer.ConsumeDelimiter(',');
      if !ok {
        return BadSyntax;
      }
      var others := ReadNames();
      r := if others.Ok? then Ok([first.value] + others.value) else BadSyntax;
    }

    method ReadExpression() returns (r: Result<Expr>)
      requires lexer.Valid()
      modifies lexer`pos, lexer`curr
      ensures Did(r, Expression(old(lexer.State())))
    {
      if lexer.MatchId() {
        var name := lexer.ConsumeId();
        r := if name.Ok? then Ok(Field(name.value)) else BadSyntax;
      } else {
        var val := lexer.ConsumeConstant();
        r := if val.Ok? then Ok(Const(val.value)) else BadSyntax;
      }
    }

    method ReadTerm() returns (r: Result<Term>)
      requires lexer.Valid()
      modifies lexer`pos, lexer`curr
      ensures Did(r, TermAt(old(lexer.State())))
    {
      var lhs := ReadExpression();
      if lhs.BadSyntax? {
        return BadSyntax;
      }
      var ok := lexer.ConsumeDelimiter('=');
      if !ok {
        return BadSyntax;
      }
      var rhs := ReadExpression();
      r := if rhs.Ok? then Ok(Term(lhs.value, rhs.value)) else BadSyntax;
    }

    method ReadPredicate() returns (r: Result<Pred>)
      requires lexer.Valid()
      modifies lexer`pos, lexer`curr
      ensures Did(r, Predicate(old(lexer.State())))
      decreases |lexer.input| - lexer.pos
    {
      var term := ReadTerm();
      if term.BadSyntax? {
        return BadSyntax;
      }
      if !lexer.MatchKeyword("and") {
        return Ok([term.value]);
      }
      var ok := lexer.ConsumeKeyword("and");
      if !ok {
        return BadSyntax;
      }
      var others := ReadPredicate();
      r := if others.Ok? then Ok([term.value] + others.value) else BadSyntax;
    }

    method ReadFrom(fields: seq<string>) returns (r: Result<QueryData>)
      requires lexer.Valid()
      modifies lexer`pos, lexer`curr
      ensures Did(r, FromClause(old(lexer.State()), fields))
    {
      var ok := lexer.ConsumeKeyword("from");
      if !ok {
        return BadSyntax;
      }
      var tables := ReadNames();
      if tables.BadSyntax? {
        return BadSyntax;
      }
      var pred := Ok([]);
      if lexer.MatchKeyword("where") {
        ok := lexer.ConsumeKeyword("where");
        if !ok {
          return BadSyntax;
        }
        pred := ReadPredicate();
      }
      r := if pred.Ok? then Ok(QueryData(fields, tables.value, pred.value)) else BadSyntax;
    }

    method ReadQuery() returns (r: Result<QueryData>)
      requires lexer.Valid()
      modifies lexer`pos, lexer`curr
      ensures Did(r, Query(old(lexer.State())))
    {
      var ok := lexer.ConsumeKeyword("select");
      if !ok {
        return BadSyntax;
      }
      var fields := ReadNames();
      if fields.BadSyntax? {
        return BadSyntax;
      }
      r := ReadFrom(fields.value);
    }
  }

  method ParseQuery(text: string) returns (r: Result<QueryData>)
    ensures r == Parse(text)
  {
    var parser := new Parser();
    var ok := parser.lexer.Analyze(text);
    if !ok {
      return BadSyntax;
    }
    r := parser.ReadQuery();
  }
}
