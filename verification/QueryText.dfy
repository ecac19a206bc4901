/**
 Printing a query, and reading it back. Views are stored as printed queries, so this is what a
 view means when it is used: it works exactly when every constant is a non-negative integer,
 since strings are printed without quotes and the lexer has no negative numbers.
 */
module QueryTexts {
  import opened DbTypes
  import opened Predicates
  import opened Lexing
  import opened Parsing

  // ---------- printing ----------
  // quoted: with strings in quotes, as a query has to be typed in; the source prints them without.

  function DigitChar(d: nat): char
    requires d < 10
  {
    '0' + d as char
  }

  function Digits(n: nat): (s: string)
    ensures s != "" && forall k :: 0 <= k < |s| ==> IsDigit(s[k])
  {
    if n < 10 then [DigitChar(n)] else Digits(n / 10) + [DigitChar(n % 10)]
  }

  function ValueText(quoted: bool, v: Value): string {
    match v
    case IntVal(i) => if i >= 0 then Digits(i) else "-" + Digits(-i)
    case StrVal(s) => if quoted then "'" + (s + "'") else s
  }

  function ExprText(quoted: bool, e: Expr): string {
    match e
    case Const(v) => ValueText(quoted, v)
    case Field(f) => f
  }

  function TermText(quoted: bool, t: Term): string {
    ExprText(quoted, t.lhs) + "=" + ExprText(quoted, t.rhs)
  }

  /** A keyword between two spaces. */
  function Spaced(w: string, s: string): string {
    " " + (w + (" " + s))
  }

  function PredText(quoted: bool, pred: Pred): string {
    if pred == [] then ""
    else if |pred| == 1 then TermText(quoted, pred[0])
    else TermText(quoted, pred[0]) + Spaced("and", PredText(quoted, pred[1..]))
  }

  function NamesText(names: seq<string>): string {
    if names == [] then ""
    else if |names| == 1 then names[0]
    else names[0] + (", " + NamesText(names[1..]))
  }

  /** What stands behind the tables. */
  function WhereText(quoted: bool, q: QueryData): string {
    if q.pred == [] then "" else Spaced("where", PredText(quoted, q.pred))
  }

  function QueryText(quoted: bool, q: QueryData): string {
    "select" + (" " + (NamesText(q.fields) + Spaced("from", NamesText(q.tables) + WhereText(quoted, q))))
  }

  /** to_string's loops: every name with a separator behind it, the last one cut off. */
  function WithCommas(names: seq<string>): string {
    if names == [] then "" else WithCommas(names[..|names| - 1]) + names[|names| - 1] + ", "
  }

  lemma {:induction false} CommasBetween(names: seq<string>)
    requires names != []
    ensures WithCommas(names) == NamesText(names) + ", "
    decreases |names|
  {
    if |names| == 1 {
      assert names[..0] == [];
    } else {
      CommasFront(names[0], names[1..]);
      CommasBetween(names[1..]);
      CommasMoved(names[0], NamesText(names[1..]));
      FirstAndRest(names);
    }
  }

  lemma {:induction false} CommasFront(first: string, names: seq<string>)
    ensures WithCommas([first] + names) == first + ", " + WithCommas(names)
    decreases |names|
  {
    if names == [] {
      assert ([first] + names)[..0] == [];
    } else {
      var front, last := names[..|names| - 1], names[|names| - 1];
      assert ([first] + names)[..|names|] == [first] + front && ([first] + names)[|names|] == last;
      CommasFront(first, front);
      Assoc(first + ", ", WithCommas(front), last);
      Assoc(first + ", ", WithCommas(front) + last, ", ");
    }
  }

  lemma FirstAndRest(names: seq<string>)
    requires names != []
    ensures [names[0]] + names[1..] == names
  {
  }

  lemma CommasMoved(first: string, more: string)
    ensures (first + ", ") + (more + ", ") == (first + (", " + more)) + ", "
  {
    Assoc(first + ", ", more, ", ");
    Assoc(first, ", ", more);
  }

  lemma {:induction false} PredTextMore(quoted: bool, pred: Pred, t: Term)
    requires pred != []
    ensures PredText(quoted, pred + [t]) == PredText(quoted, pred) + Spaced("and", TermText(quoted, t))
    decreases |pred|
  {
    var more := pred + [t];
    if |pred| == 1 {
      assert more[1..] == [t];
    } else {
      assert more[1..] == pred[1..] + [t];
      PredTextMore(quoted, pred[1..], t);
      Assoc(TermText(quoted, pred[0]), Spaced("and", PredText(quoted, pred[1..])), Spaced("and", TermText(quoted, t)));
      SpacedMore("and", PredText(quoted, pred[1..]), Spaced("and", TermText(quoted, t)));
    }
  }

  lemma Assoc(a: string, b: string, c: string)
    ensures (a + b) + c == a + (b + c)
  {
  }

  lemma SpacedMore(w: string, s: string, more: string)
    ensures Spaced(w, s) + more == Spaced(w, s + more)
  {
    Assoc(" ", w + (" " + s), more);
    Assoc(w, " " + s, more);
    Assoc(" ", s, more);
  }

  lemma PredTextUpTo(quoted: bool, pred: Pred, i: nat)
    requires 0 < i < |pred|
    ensures PredText(quoted, pred[..i + 1]) == PredText(quoted, pred[..i]) + Spaced("and", TermText(quoted, pred[i]))
  {
    var front, t := pred[..i], pred[i];
    assert pred[..i + 1] == front + [t];
    PredTextMore(quoted, front, t);
  }

  /** Strings are printed as they are, negative integers with a sign, and a term with an equals sign. */
  lemma PrintedTerm(f: string, s: string, n: nat)
    ensures TermText(false, Term(Field(f), Const(StrVal(s)))) == f + "=" + s
    ensures n > 0 ==> TermText(false, Term(Field(f), Const(IntVal(0 - n)))) == f + "=" + ("-" + Digits(n))
  {
    Assoc(f, "=", s);
    Assoc(f, "=", "-" + Digits(n));
  }

  /** Between two names stands a comma, between two terms an "and". */
  lemma PrintedLists(names: seq<string>, f: string, pred: Pred, t: Term)
    ensures NamesText([f]) == f && PredText(false, [t]) == TermText(false, t)
    ensures names != [] ==> NamesText([f] + names) == f + ", " + NamesText(names)
    ensures pred != [] ==> PredText(false, [t] + pred) == TermText(false, t) + " and " + PredText(false, pred)
  {
    assert ([f] + names)[1..] == names && ([t] + pred)[1..] == pred;
    Assoc(f, ", ", NamesText(names));
    SpacedIs("and", PredText(false, pred));
    Assoc(TermText(false, t), " and ", PredText(false, pred));
  }

  lemma SpacedIs(w: string, s: string)
    ensures Spaced(w, s) == " " + w + " " + s
  {
    Assoc(" ", w, " " + s);
    Assoc(" " + w, " ", s);
  }

  lemma PrintedQuery(q: QueryData)
    ensures QueryText(false, q) == "select " + NamesText(q.fields) + (" from " + (NamesText(q.tables) + WhereText(false, q)))
    ensures WhereText(false, q) == if q.pred == [] then "" else " where " + PredText(false, q.pred)
  {
    FromBetween(NamesText(q.fields), NamesText(q.tables) + WhereText(false, q));
    if q.pred != [] {
      SpacedIs("where", PredText(false, q.pred));
      WhereBefore(PredText(false, q.pred));
    }
  }

  lemma WhereBefore(s: string)
    ensures " " + "where" + " " + s == " where " + s
  {
    assert " " + "where" + " " == " where ";
  }

  lemma FromBetween(fields: string, rest: string)
    ensures "select" + (" " + (fields + Spaced("from", rest))) == "select " + fields + (" from " + rest)
  {
    SpacedIs("from", rest);
    assert " " + "from" + " " == " from ";
    var from := " from " + rest;
    Assoc("select", " ", fields + from);
    assert "select" + " " == "select ";
    Assoc("select ", fields, from);
  }

  method NamesToString(names: seq<string>) returns (text: string)
    ensures text == NamesText(names)
  {
    text := "";
    var i := 0;
    while i < |names|
      invariant 0 <= i <= |names| && text == WithCommas(names[..i])
    {
      assert names[..i + 1][..i] == names[..i];
      text := text + names[i] + ", ";
      i := i + 1;
    }
    assert names[..i] == names;
    if names != [] {
      CommasBetween(names);
      text := text[..|text| - 2];
    }
  }

  method PredToString(pred: Pred) returns (text: string)
    ensures text == PredText(false, pred)
  {
    if pred == [] {
      return "";
    }
    text := TermText(false, pred[0]);
    var i := 1;
    while i < |pred|
      invariant 1 <= i <= |pred| && text == PredText(false, pred[..i])
    {
      PredTextUpTo(false, pred, i);
      text := text + Spaced("and", TermText(false, pred[i]));
      i := i + 1;
    }
    assert pred[..i] == pred;
  }

  /** query_data::to_string */
  method ToString(q: QueryData) returns (text: string)
    ensures text == QueryText(false, q)
  {
    var fields := NamesToString(q.fields);
    var tables := NamesToString(q.tables);
    var pred := PredToString(q.pred);
    assert q.pred != [] ==> '=' in TermText(false, q.pred[0]);
    var where := if pred != "" then Spaced("where", pred) else "";
    text := "select" + (" " + (fields + Spaced("from", tables + where)));
  }

  // ---------- single tokens ----------

  predicate IsLowerWordChar(c: char) {
    'a' <= c <= 'z' || IsDigit(c) || c == '_'
  }

  predicate IsWord(w: string) {
    w != "" && !IsDigit(w[0]) && forall k :: 0 <= k < |w| ==> IsLowerWordChar(w[k])
  }

  /** An identifier as the lexer delivers them. */
  predicate IsName(w: string) {
    IsWord(w) && w !in KEYWORDS
  }

  /** The text cannot be taken for more of a word or number. */
  predicate Stops(tail: string) {
    tail == "" || !IsWordChar(tail[0])
  }

  lemma WordToken(w: string, tail: string)
    requires IsWord(w) && Stops(tail)
    ensures NextToken(w + tail) == Ok(St(Word(w), tail))
  {
    var s := w + tail;
    assert s[0] == w[0];
    RunIs(s, IsSpace, 0);
    assert s[0..] == s;
    RunIs(s, IsWordChar, |w|);
    assert s[..|w|] == w && s[|w|..] == tail;
    assert LowerAll(w) == w;
  }

  /** Words are read in any case, as lower-case words. */
  lemma AnyCase(w: string, tail: string)
    requires w != "" && !('0' <= w[0] <= '9') && Stops(tail)
    requires forall k :: 0 <= k < |w| ==>
               'a' <= w[k] <= 'z' || 'A' <= w[k] <= 'Z' || '0' <= w[k] <= '9' || w[k] == '_'
    ensures
      var r := NextToken(w + tail);
      && r.Ok? && r.value.tok.Word? && r.value.rest == tail && |r.value.tok.w| == |w|
      && forall k :: 0 <= k < |w| ==>
           r.value.tok.w[k] == if 65 <= w[k] as int <= 90 then (w[k] as int + 32) as char else w[k]
  {
    var s := w + tail;
    assert s[0] == w[0];
    RunIs(s, IsSpace, 0);
    assert s[0..] == s;
    RunIs(s, IsWordChar, |w|);
    assert s[..|w|] == w && s[|w|..] == tail;
  }

  lemma {:induction false} ZeroInFront(d: string)
    requires d != "" && forall k :: 0 <= k < |d| ==> '0' <= d[k] <= '9'
    ensures ValueOf("0" + d) == ValueOf(d)
    decreases |d|
  {
    var n := |d| - 1;
    assert ("0" + d)[..n + 1] == "0" + d[..n] && ("0" + d)[n + 1] == d[n];
    if n > 0 {
      ZeroInFront(d[..n]);
    } else {
      assert d[..0] == "" && ("0" + d)[..1] == "0" && "0"[..0] == "";
    }
  }

  /** A zero in front of a number does not change it. */
  lemma AnyDigits(d: string, tail: string)
    requires d != "" && (forall k :: 0 <= k < |d| ==> '0' <= d[k] <= '9') && Stops(tail)
    ensures NextToken("0" + d + tail) == NextToken(d + tail) && NextToken(d + tail).Ok? && NextToken(d + tail).value.tok.Num?
  {
    DigitsToken(d, tail);
    DigitsToken("0" + d, tail);
    ZeroInFront(d);
  }

  lemma DigitsToken(d: string, tail: string)
    requires d != "" && (forall k :: 0 <= k < |d| ==> '0' <= d[k] <= '9') && Stops(tail)
    ensures NextToken(d + tail) == Ok(St(Num(ValueOf(d)), tail))
  {
    var s := d + tail;
    assert s[0] == d[0];
    RunIs(s, IsSpace, 0);
    assert s[0..] == s;
    RunIs(s, IsDigit, |d|);
    assert s[..|d|] == d && s[|d|..] == tail;
  }

  /** A quote without another one behind it is no token. */
  lemma OpenQuote(s: string)
    requires '\'' !in s
    ensures NextToken("'" + s) == BadSyntax
  {
    var t := "'" + s;
    RunIs(t, IsSpace, 0);
    assert t[0..] == t && t[1..] == s;
    RunIs(s, NoQuote, |s|);
  }

  /** Any white space in front of a token is passed over. */
  lemma AnySpace(c: char, s: string)
    requires c == ' ' || 9 <= c as int <= 13
    ensures NextToken([c] + s) == NextToken(s)
  {
    var t, n := [c] + s, Run(s, IsSpace);
    assert t[0] == c && t[1..] == s;
    assert Run(t, IsSpace) == n + 1;
    assert t[n + 1..] == s[n..];
  }

  lemma SpaceToken(s: string)
    ensures NextToken(" " + s) == NextToken(s)
    ensures (" " + s)[Run(" " + s, IsSpace)..] == s[Run(s, IsSpace)..]
  {
    var t, n := " " + s, Run(s, IsSpace);
    assert t[0] == ' ' && t[1..] == s;
    assert Run(t, IsSpace) == n + 1;
    assert t[n + 1..] == s[n..];
  }

  lemma DelimToken(c: char, s: string)
    requires !IsSpace(c) && !IsWordChar(c) && c != '\''
    ensures NextToken([c] + s) == Ok(St(Delim(c), s))
  {
    var t := [c] + s;
    RunIs(t, IsSpace, 0);
    assert t[0..] == t && t[1..] == s;
  }

  lemma {:induction false} DigitsValue(n: nat)
    ensures ValueOf(Digits(n)) == n
    decreases n
  {
    if n < 10 {
      assert Digits(n)[..0] == "";
    } else {
      DigitsValue(n / 10);
      assert Digits(n)[..|Digits(n)| - 1] == Digits(n / 10);
    }
  }

  lemma NumberToken(n: nat, tail: string)
    requires Stops(tail)
    ensures NextToken(Digits(n) + tail) == Ok(St(Num(n), tail))
  {
    DigitsToken(Digits(n), tail);
    DigitsValue(n);
  }

  lemma KeywordToken(w: string, s: string)
    requires IsWord(w)
    ensures NextToken(Spaced(w, s)) == Ok(St(Word(w), " " + s)) && NextToken(" " + s) == NextToken(s)
  {
    WordToken(w, " " + s);
    SpaceToken(w + (" " + s));
    SpaceToken(s);
  }

  lemma KeywordFront(w: string, s: string)
    requires IsWord(w)
    ensures Stops(Spaced(w, s)) && NoString(Spaced(w, s))
  {
    var word := w + (" " + s);
    assert word[0] == w[0];
    SpaceToken(word);
    assert Run(word, IsSpace) == 0 && word[0..] == word;
  }

  lemma WordsUsed()
    ensures IsWord("select") && IsWord("from") && IsWord("where") && IsWord("and")
  {
  }

  // ---------- reading back what was printed ----------

  predicate Names(names: seq<string>) {
    names != [] && forall k :: 0 <= k < |names| ==> IsName(names[k])
  }

  /** text begins with this list of names, and the reader is at st behind it. */
  ghost predicate ReadsNames(text: string, names: seq<string>, st: St) {
    NextToken(text).Ok? && NameList(NextToken(text).value) == Yes(names, st)
  }

  /** Reading a list of names in front of tail ends where reading tail starts. */
  lemma {:induction false} NamesRead(names: seq<string>, tail: string)
    requires Names(names) && Stops(tail) && NextToken(tail).Ok? && NextToken(tail).value.tok != Delim(',')
    ensures ReadsNames(NamesText(names) + tail, names, NextToken(tail).value)
    decreases |names|
  {
    if |names| == 1 {
      LastName(names, tail);
    } else {
      NamesRead(names[1..], tail);
      FirstName(names[0], names[1..], tail, NextToken(tail).value);
      assert names == [names[0]] + names[1..];
    }
  }

  lemma LastName(names: seq<string>, tail: string)
    requires Names(names) && |names| == 1 && Stops(tail) && NextToken(tail).Ok?
    requires NextToken(tail).value.tok != Delim(',')
    ensures ReadsNames(NamesText(names) + tail, names, NextToken(tail).value)
  {
    OneName(names[0], tail);
    assert names == [names[0]];
  }

  lemma OneName(w: string, tail: string)
    requires IsName(w) && Stops(tail) && NextToken(tail).Ok? && NextToken(tail).value.tok != Delim(',')
    ensures ReadsNames(w + tail, [w], NextToken(tail).value)
  {
    WordToken(w, tail);
  }

  lemma FirstName(first: string, rest: seq<string>, tail: string, st: St)
    requires IsName(first) && rest != [] && ReadsNames(NamesText(rest) + tail, rest, st)
    ensures ReadsNames(NamesText([first] + rest) + tail, [first] + rest, st)
  {
    var more := NamesText(rest) + tail;
    NameInFront(first, more, rest, st);
    NamesSplit(first, rest, tail);
    SameText(first + ([','] + (" " + more)), NamesText([first] + rest) + tail, [first] + rest, st);
  }

  lemma SameText(text: string, text': string, names: seq<string>, st: St)
    requires text == text' && ReadsNames(text, names, st)
    ensures ReadsNames(text', names, st)
  {
  }

  lemma NameInFront(w: string, more: string, names: seq<string>, st: St)
    requires IsName(w) && ReadsNames(more, names, st)
    ensures ReadsNames(w + ([','] + (" " + more)), [w] + names, st)
  {
    CommaRead(w, more);
    NameStep(w, [','] + (" " + more), " " + more, NextToken(more).value, names, st);
  }

  lemma NameStep(w: string, comma: string, space: string, st: St, names: seq<string>, st': St)
    requires IsName(w) && NextToken(comma) == Ok(St(Delim(','), space)) && NextToken(space) == Ok(st)
    requires NameList(st) == Yes(names, st')
    ensures NameList(St(Word(w), comma)) == Yes([w] + names, st')
  {
  }

  lemma NamesSplit(first: string, rest: seq<string>, tail: string)
    requires rest != []
    ensures NamesText([first] + rest) + tail == first + ([','] + (" " + (NamesText(rest) + tail)))
  {
    var more := NamesText(rest);
    assert ([first] + rest)[1..] == rest;
    Assoc(first, ", " + more, tail);
    Assoc(", ", more, tail);
    assert ", " == [','] + " ";
    Assoc([','], " ", more + tail);
  }

  lemma CommaRead(w: string, more: string)
    requires IsName(w)
    ensures NextToken(w + ([','] + (" " + more))) == Ok(St(Word(w), [','] + (" " + more)))
    ensures NextToken([','] + (" " + more)) == Ok(St(Delim(','), " " + more))
    ensures NextToken(" " + more) == NextToken(more)
  {
    WordToken(w, [','] + (" " + more));
    DelimToken(',', " " + more);
    SpaceToken(more);
  }

  predicate ExprNames(e: Expr) {
    e.Field? ==> IsName(e.name)
  }

  /** A constant that survives printing. */
  predicate ExprReads(quoted: bool, e: Expr) {
    e.Const? ==>
      match e.val
      case IntVal(i) => i >= 0
      case StrVal(s) => quoted && '\'' !in s
  }

  /** A string in quotes is read as that string. */
  lemma StringRead(s: string, tail: string)
    requires '\'' !in s
    ensures NextToken("'" + (s + "'") + tail) == Ok(St(Str(s), tail))
  {
    var t := "'" + (s + "'") + tail;
    RunIs(t, IsSpace, 0);
    assert t[0..] == t;
    assert t[1..][|s|] == '\'';
    RunIs(t[1..], NoQuote, |s|);
    assert t[1..1 + |s|] == s && t[|s| + 2..] == tail;
  }

  lemma ExpressionRead(quoted: bool, e: Expr, tail: string)
    requires ExprNames(e) && ExprReads(quoted, e) && Stops(tail) && NextToken(tail).Ok?
    ensures NextToken(ExprText(quoted, e) + tail).Ok?
    ensures Expression(NextToken(ExprText(quoted, e) + tail).value) == Yes(e, NextToken(tail).value)
  {
    match e
    case Field(f) => WordToken(f, tail);
    case Const(v) =>
      if v.IntVal? {
        NumberToken(v.i, tail);
      } else {
        StringRead(v.s, tail);
      }
  }

  /** The first thing in the text is no string. */
  predicate NoString(tail: string) {
    var t := tail[Run(tail, IsSpace)..];
    t == "" || t[0] != '\''
  }

  lemma NegativeLost(quoted: bool, i: int, tail: string)
    requires i < 0
    ensures NextToken(ValueText(quoted, IntVal(i)) + tail) == Ok(St(Delim('-'), Digits(-i) + tail))
  {
    assert "-" == ['-'];
    Assoc("-", Digits(-i), tail);
    DelimToken('-', Digits(-i) + tail);
  }

  /** Any other constant does not come back. */
  lemma ExpressionLost(quoted: bool, e: Expr, tail: string)
    requires !ExprReads(quoted, e) && NoString(tail) && NextToken(ExprText(quoted, e) + tail).Ok?
    ensures
      var r := Expression(NextToken(ExprText(quoted, e) + tail).value);
      r.Yes? ==> r.value != e
  {
    match e.val
    case IntVal(i) => NegativeLost(quoted, i, tail);
    case StrVal(s) =>
      if quoted {
        QuotedLost(s, tail);
      } else {
        StringLost(s, tail);
      }
  }

  /** A quote inside ends the string. */
  lemma QuotedLost(s: string, tail: string)
    requires '\'' in s && NextToken("'" + (s + "'") + tail).Ok?
    ensures NextToken("'" + (s + "'") + tail).value.tok != Str(s)
  {
    var t := "'" + (s + "'") + tail;
    RunIs(t, IsSpace, 0);
    assert t[0..] == t;
    var content := t[1..1 + Run(t[1..], NoQuote)];
    assert forall j :: 0 <= j < |content| ==> content[j] == t[1..][j];
  }

  /** If the first thing in s + tail is a quote, it is one of s. */
  lemma QuoteInFront(s: string, tail: string)
    requires NoString(tail)
    ensures
      var k := Run(s + tail, IsSpace);
      k < |s + tail| && (s + tail)[k] == '\'' ==> k < |s| && s[k] == '\''
  {
    var text := s + tail;
    var k := Run(text, IsSpace);
    if k >= |s| {
      forall j | 0 <= j < k - |s|
        ensures IsSpace(tail[j])
      {
        assert tail[j] == text[|s| + j];
      }
      assert k < |text| ==> tail[k - |s|] == text[k];
      RunIs(tail, IsSpace, k - |s|);
    }
  }

  /** The content of a string token has no quote, but the text of one does. */
  lemma StringLost(s: string, tail: string)
    requires NoString(tail) && NextToken(s + tail).Ok?
    ensures NextToken(s + tail).value.tok != Str(s)
  {
    var k := Run(s + tail, IsSpace);
    QuoteInFront(s, tail);
    var t := (s + tail)[k..];
    if t != "" && t[0] == '\'' {
      var content := t[1..1 + Run(t[1..], NoQuote)];
      assert forall j :: 0 <= j < |content| ==> content[j] == t[1..][j];
      assert '\'' !in content && '\'' in s;
    }
  }

  predicate TermNames(t: Term) {
    ExprNames(t.lhs) && ExprNames(t.rhs)
  }

  predicate TermReads(quoted: bool, t: Term) {
    ExprReads(quoted, t.lhs) && ExprReads(quoted, t.rhs)
  }

  lemma TermSplit(quoted: bool, t: Term, tail: string)
    ensures TermText(quoted, t) + tail == ExprText(quoted, t.lhs) + ("=" + (ExprText(quoted, t.rhs) + tail))
    ensures "=" + (ExprText(quoted, t.rhs) + tail) == ['='] + (ExprText(quoted, t.rhs) + tail)
    ensures Stops("=" + (ExprText(quoted, t.rhs) + tail)) && NoString("=" + (ExprText(quoted, t.rhs) + tail))
  {
    RunIs("=" + (ExprText(quoted, t.rhs) + tail), IsSpace, 0);
  }

  lemma TermRead(quoted: bool, t: Term, tail: string)
    requires TermNames(t) && TermReads(quoted, t) && Stops(tail) && NextToken(tail).Ok?
    ensures NextToken(TermText(quoted, t) + tail).Ok?
    ensures TermAt(NextToken(TermText(quoted, t) + tail).value) == Yes(t, NextToken(tail).value)
  {
    var right := ExprText(quoted, t.rhs) + tail;
    TermSplit(quoted, t, tail);
    DelimToken('=', right);
    ExpressionRead(quoted, t.rhs, tail);
    ExpressionRead(quoted, t.lhs, "=" + right);
  }

  lemma TermLost(quoted: bool, t: Term, tail: string)
    requires TermNames(t) && !TermReads(quoted, t) && NoString(tail) && NextToken(TermText(quoted, t) + tail).Ok?
    ensures
      var r := TermAt(NextToken(TermText(quoted, t) + tail).value);
      r.Yes? ==> r.value != t
  {
    var right := ExprText(quoted, t.rhs) + tail;
    TermSplit(quoted, t, tail);
    DelimToken('=', right);
    if !ExprReads(quoted, t.lhs) {
      ExpressionLost(quoted, t.lhs, "=" + right);
    } else {
      ExpressionRead(quoted, t.lhs, "=" + right);
      if NextToken(right).Ok? {
        ExpressionLost(quoted, t.rhs, tail);
      }
    }
  }

  predicate PredNames(pred: Pred) {
    forall k :: 0 <= k < |pred| ==> TermNames(pred[k])
  }

  predicate PredReads(quoted: bool, pred: Pred) {
    forall k :: 0 <= k < |pred| ==> TermReads(quoted, pred[k])
  }

  lemma AddNothing(s: string)
    ensures s + "" == s && NextToken("") == Ok(St(End, ""))
  {
  }

  lemma PredSplit(quoted: bool, pred: Pred) returns (tail: string)
    requires pred != []
    ensures PredText(quoted, pred) == TermText(quoted, pred[0]) + tail && Stops(tail) && NoString(tail)
    ensures |pred| == 1 ==> tail == "" && NextToken(tail) == Ok(St(End, ""))
    ensures |pred| > 1 ==> NextToken(tail) == Ok(St(Word("and"), " " + PredText(quoted, pred[1..])))
    ensures |pred| > 1 ==> NextToken(" " + PredText(quoted, pred[1..])) == NextToken(PredText(quoted, pred[1..]))
  {
    if |pred| == 1 {
      tail := "";
      AddNothing(TermText(quoted, pred[0]));
    } else {
      var more := PredText(quoted, pred[1..]);
      tail := Spaced("and", more);
      WordsUsed();
      KeywordToken("and", more);
      KeywordFront("and", more);
    }
  }

  lemma FirstTerm(quoted: bool, pred: Pred, tail: string) returns (st: St)
    requires pred != [] && TermNames(pred[0]) && TermReads(quoted, pred[0]) && PredText(quoted, pred) == TermText(quoted, pred[0]) + tail
    requires Stops(tail) && NextToken(tail).Ok?
    ensures NextToken(PredText(quoted, pred)) == Ok(st) && TermAt(st) == Yes(pred[0], NextToken(tail).value)
  {
    TermRead(quoted, pred[0], tail);
    st := NextToken(PredText(quoted, pred)).value;
  }

  lemma {:induction false} PredicateRead(quoted: bool, pred: Pred) returns (st: St)
    requires pred != [] && PredNames(pred) && PredReads(quoted, pred)
    ensures NextToken(PredText(quoted, pred)) == Ok(st) && Predicate(st) == Yes(pred, St(End, ""))
    decreases |pred|
  {
    if |pred| > 1 {
      var st1 := PredicateRead(quoted, pred[1..]);
      st := MoreTermsRead(quoted, pred, st1);
    } else {
      st := OneTermRead(quoted, pred);
    }
  }

  lemma OneTermRead(quoted: bool, pred: Pred) returns (st: St)
    requires |pred| == 1 && TermNames(pred[0]) && TermReads(quoted, pred[0])
    ensures NextToken(PredText(quoted, pred)) == Ok(st) && Predicate(st) == Yes(pred, St(End, ""))
  {
    var tail := PredSplit(quoted, pred);
    st := FirstTerm(quoted, pred, tail);
    LastTerm(st, pred[0]);
    assert pred == [pred[0]];
  }

  lemma MoreTermsRead(quoted: bool, pred: Pred, st1: St) returns (st: St)
    requires |pred| > 1 && TermNames(pred[0]) && TermReads(quoted, pred[0])
    requires NextToken(PredText(quoted, pred[1..])) == Ok(st1) && Predicate(st1) == Yes(pred[1..], St(End, ""))
    ensures NextToken(PredText(quoted, pred)) == Ok(st) && Predicate(st) == Yes(pred, St(End, ""))
  {
    var tail := PredSplit(quoted, pred);
    st := FirstTerm(quoted, pred, tail);
    BehindTerm(pred, " " + PredText(quoted, pred[1..]), st, st1);
  }

  lemma BehindTerm(pred: Pred, behind: string, st: St, st1: St)
    requires |pred| > 1 && TermAt(st) == Yes(pred[0], St(Word("and"), behind))
    requires NextToken(behind) == Ok(st1) && Predicate(st1) == Yes(pred[1..], St(End, ""))
    ensures Predicate(st) == Yes(pred, St(End, ""))
  {
    PredicateStep(st, pred[0], behind, st1, pred[1..], St(End, ""));
    assert pred == [pred[0]] + pred[1..];
  }

  lemma LastTerm(st: St, t: Term)
    requires TermAt(st) == Yes(t, St(End, ""))
    ensures Predicate(st) == Yes([t], St(End, ""))
  {
  }

  lemma PredicateStep(st: St, t: Term, behind: string, st1: St, terms: Pred, st2: St)
    requires TermAt(st) == Yes(t, St(Word("and"), behind)) && NextToken(behind) == Ok(st1) && Predicate(st1) == Yes(terms, st2)
    ensures Predicate(st) == Yes([t] + terms, st2)
  {
  }

  lemma {:induction false} PredicateLost(quoted: bool, pred: Pred, st: St)
    requires PredNames(pred) && !PredReads(quoted, pred) && NextToken(PredText(quoted, pred)) == Ok(st)
    ensures Predicate(st).Yes? ==> Predicate(st).value != pred
    decreases |pred|
  {
    if !TermReads(quoted, pred[0]) {
      FirstTermLost(quoted, pred, st);
    } else if |pred| > 1 {
      RestOfPredicate(quoted, pred);
      var more := NextToken(PredText(quoted, pred[1..]));
      if more.Ok? {
        PredicateLost(quoted, pred[1..], more.value);
      }
      LaterTermLost(quoted, pred, st, more);
    }
  }

  lemma RestOfPredicate(quoted: bool, pred: Pred)
    requires |pred| > 1 && PredNames(pred) && !PredReads(quoted, pred) && TermReads(quoted, pred[0])
    ensures PredNames(pred[1..]) && !PredReads(quoted, pred[1..])
  {
    assert forall k :: 0 < k < |pred| ==> pred[1..][k - 1] == pred[k];
  }

  lemma FirstTermLost(quoted: bool, pred: Pred, st: St)
    requires pred != [] && TermNames(pred[0]) && !TermReads(quoted, pred[0]) && NextToken(PredText(quoted, pred)) == Ok(st)
    ensures Predicate(st).Yes? ==> Predicate(st).value != pred
  {
    var tail := PredSplit(quoted, pred);
    TermLost(quoted, pred[0], tail);
    FirstOfPredicate(st);
  }

  lemma FirstOfPredicate(st: St)
    ensures Predicate(st).Yes? ==> TermAt(st).Yes? && Predicate(st).value[0] == TermAt(st).value
  {
  }

  lemma LaterTermLost(quoted: bool, pred: Pred, st: St, more: Result<St>)
    requires |pred| > 1 && TermNames(pred[0]) && TermReads(quoted, pred[0]) && NextToken(PredText(quoted, pred)) == Ok(st)
    requires more == NextToken(PredText(quoted, pred[1..]))
    requires more.Ok? && Predicate(more.value).Yes? ==> Predicate(more.value).value != pred[1..]
    ensures Predicate(st).Yes? ==> Predicate(st).value != pred
  {
    var tail := PredSplit(quoted, pred);
    var st' := FirstTerm(quoted, pred, tail);
    LostStep(pred, st, " " + PredText(quoted, pred[1..]), more);
  }

  lemma LostStep(pred: Pred, st: St, behind: string, more: Result<St>)
    requires pred != [] && TermAt(st) == Yes(pred[0], St(Word("and"), behind)) && NextToken(behind) == more
    requires more.Ok? && Predicate(more.value).Yes? ==> Predicate(more.value).value != pred[1..]
    ensures Predicate(st).Yes? ==> Predicate(st).value != pred
  {
    if more.Ok? && Predicate(more.value).Yes? {
      assert ([pred[0]] + Predicate(more.value).value)[1..] == Predicate(more.value).value;
    }
  }

  // ---------- the whole query ----------

  /** The names the grammar allows; there is a field and a table. */
  predicate QueryNames(q: QueryData) {
    Names(q.fields) && Names(q.tables) && PredNames(q.pred)
  }

  lemma WhereToken(quoted: bool, q: QueryData)
    ensures Stops(WhereText(quoted, q)) && NextToken(WhereText(quoted, q)).Ok? && NextToken(WhereText(quoted, q)).value.tok != Delim(',')
    ensures q.pred == [] ==> NextToken(WhereText(quoted, q)).value.tok == End
    ensures q.pred != [] ==> NextToken(WhereText(quoted, q)) == Ok(St(Word("where"), " " + PredText(quoted, q.pred)))
    ensures NextToken(" " + PredText(quoted, q.pred)) == NextToken(PredText(quoted, q.pred))
  {
    WordsUsed();
    KeywordToken("where", PredText(quoted, q.pred));
    KeywordFront("where", PredText(quoted, q.pred));
  }

  /** The tables and what stands behind them. */
  lemma TablesRead(quoted: bool, q: QueryData)
    requires QueryNames(q) && NextToken(WhereText(quoted, q)).Ok?
    ensures
      var text := NamesText(q.tables) + WhereText(quoted, q);
      && NextToken(text).Ok?
      && FromClause(St(Word("from"), " " + text), q.fields) ==
         match WhereClause(NextToken(WhereText(quoted, q)).value)
         case No => No
         case Yes(pred, st) => Yes(QueryData(q.fields, q.tables, pred), st)
  {
    WhereToken(quoted, q);
    NamesRead(q.tables, WhereText(quoted, q));
    SpaceToken(NamesText(q.tables) + WhereText(quoted, q));
  }

  lemma ParseSteps(text: string, behind: string, fields: seq<string>, st: St)
    requires NextToken(text) == Ok(St(Word("select"), behind)) && NextToken(behind).Ok?
    requires NameList(NextToken(behind).value) == Yes(fields, st)
    ensures Parse(text) == match FromClause(st, fields) case No => BadSyntax case Yes(q, _) => Ok(q)
  {
  }

  lemma FieldsRead(q: QueryData, tables: string)
    requires Names(q.fields)
    ensures
      var fields := NamesText(q.fields) + Spaced("from", tables);
      && NextToken("select" + (" " + fields)) == Ok(St(Word("select"), " " + fields)) && NextToken(" " + fields).Ok?
      && NameList(NextToken(" " + fields).value) == Yes(q.fields, St(Word("from"), " " + tables))
  {
    var fields := NamesText(q.fields) + Spaced("from", tables);
    WordsUsed();
    KeywordToken("from", tables);
    KeywordFront("from", tables);
    NamesRead(q.fields, Spaced("from", tables));
    WordToken("select", " " + fields);
    SpaceToken(fields);
  }

  /** Up to the where clause every printed query is read as it was meant. */
  lemma FrontRead(quoted: bool, q: QueryData)
    requires QueryNames(q) && NextToken(WhereText(quoted, q)).Ok?
    ensures
      match WhereClause(NextToken(WhereText(quoted, q)).value)
      case No => Parse(QueryText(quoted, q)) == BadSyntax
      case Yes(pred, _) => Parse(QueryText(quoted, q)) == Ok(QueryData(q.fields, q.tables, pred))
  {
    var tables := NamesText(q.tables) + WhereText(quoted, q);
    var fields := NamesText(q.fields) + Spaced("from", tables);
    TablesRead(quoted, q);
    FieldsRead(q, tables);
    ParseSteps("select" + (" " + fields), " " + fields, q.fields, St(Word("from"), " " + tables));
  }

  lemma TextRoundTrip(quoted: bool, q: QueryData)
    requires QueryNames(q)
    ensures Parse(QueryText(quoted, q)) == Ok(q) <==> PredReads(quoted, q.pred)
  {
    WhereToken(quoted, q);
    FrontRead(quoted, q);
    if q.pred != [] {
      if PredReads(quoted, q.pred) {
        var _ := PredicateRead(quoted, q.pred);
      } else if NextToken(PredText(quoted, q.pred)).Ok? {
        PredicateLost(quoted, q.pred, NextToken(PredText(quoted, q.pred)).value);
      }
    }
  }

  /** The constants of a predicate, in both sides of its terms. */
  ghost predicate IsConstant(pred: Pred, v: Value) {
    exists k :: 0 <= k < |pred| && (pred[k].lhs == Const(v) || pred[k].rhs == Const(v))
  }

  lemma AllRead(quoted: bool, pred: Pred)
    ensures PredReads(quoted, pred) <==> forall v :: IsConstant(pred, v) ==> ExprReads(quoted, Const(v))
  {
    if PredReads(quoted, pred) {
      assert forall k :: 0 <= k < |pred| ==> TermReads(quoted, pred[k]);
    } else {
      var k :| 0 <= k < |pred| && !TermReads(quoted, pred[k]);
      var e := if ExprReads(quoted, pred[k].lhs) then pred[k].rhs else pred[k].lhs;
      assert IsConstant(pred, e.val) && !ExprReads(quoted, Const(e.val));
    }
  }

  /** Printing and parsing gives the query back exactly when all its constants are non-negative integers. */
  lemma RoundTrip(q: QueryData)
    requires QueryNames(q)
    ensures Parse(QueryText(false, q)) == Ok(q) <==> forall v :: IsConstant(q.pred, v) ==> v.IntVal? && v.i >= 0
  {
    TextRoundTrip(false, q);
    AllRead(false, q.pred);
  }

  /** A query typed in with its strings in quotes is read as it was meant, unless an integer is negative or a string holds a quote. */
  lemma QuotedRoundTrip(q: QueryData)
    requires QueryNames(q)
    ensures Parse(QueryText(true, q)) == Ok(q) <==>
            forall v :: IsConstant(q.pred, v) ==> if v.IntVal? then v.i >= 0 else '\'' !in v.s
  {
    TextRoundTrip(true, q);
    AllRead(true, q.pred);
  }

  /** A quote, any text without one, and a quote are read as the string constant between them. */
  lemma StringConstantRead(s: string, tail: string)
    requires '\'' !in s && Stops(tail) && NextToken(tail).Ok?
    ensures
      var text := "'" + (s + "'") + tail;
      NextToken(text).Ok? && Expression(NextToken(text).value) == Yes(Const(StrVal(s)), NextToken(tail).value)
  {
    ExpressionRead(true, Const(StrVal(s)), tail);
  }
}
