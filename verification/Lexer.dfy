/**
 The lexer: from text to tokens. The functions say which token comes next and what text is left
 behind it; the class finds it character by character.
 */
module Lexing {
  import opened DbTypes

  const KEYWORDS := {
    "select", "from", "where", "and", "insert", "into", "values", "delete", "update", "set",
    "create", "table", "int", "varchar", "view", "as", "index", "on", "join"
  }

  datatype Result<T> = Ok(value: T) | BadSyntax

  datatype Token = Num(n: nat) | Word(w: string) | Str(s: string) | Delim(c: char) | End

  /** The current token and the text behind it. */
  datatype St = St(tok: Token, rest: string)

  // ---------- characters ----------

  predicate IsSpace(c: char) {
    c == ' ' || '\t' <= c <= '\r'
  }

  predicate IsDigit(c: char) {
    '0' <= c <= '9'
  }

  predicate IsAlpha(c: char) {
    'a' <= c <= 'z' || 'A' <= c <= 'Z'
  }

  predicate IsWordChar(c: char) {
    IsAlpha(c) || IsDigit(c) || c == '_'
  }

  predicate NoQuote(c: char) {
    c != '\''
  }

  function Lower(c: char): char {
    if 'A' <= c <= 'Z' then c - 'A' + 'a' else c
  }

  function LowerAll(s: string): (r: string)
    ensures |r| == |s| && forall k :: 0 <= k < |s| ==> r[k] == Lower(s[k])
  {
    seq(|s|, k requires 0 <= k < |s| => Lower(s[k]))
  }

  lemma LowerMore(s: string, k: nat)
    requires k < |s|
    ensures LowerAll(s[..k + 1]) == LowerAll(s[..k]) + [Lower(s[k])]
  {
  }

  /** How many characters at the front of s satisfy p. */
  function Run(s: string, p: char -> bool): (n: nat)
    ensures n <= |s| && forall k :: 0 <= k < n ==> p(s[k])
    ensures n < |s| ==> !p(s[n])
  {
    if s == "" || !p(s[0]) then 0 else 1 + Run(s[1..], p)
  }

  lemma RunIs(s: string, p: char -> bool, n: nat)
    requires n <= |s| && forall k :: 0 <= k < n ==> p(s[k])
    requires n < |s| ==> !p(s[n])
    ensures Run(s, p) == n
  {
  }

  function ValueOf(digits: string): nat
    requires forall k :: 0 <= k < |digits| ==> IsDigit(digits[k])
  {
    if digits == "" then 0
    else
      var last := digits[|digits| - 1];
      assert IsDigit(last);
      ValueOf(digits[..|digits| - 1]) * 10 + (last - '0') as int
  }

  lemma ValueMore(t: string, k: nat)
    requires k < |t| && forall j :: 0 <= j <= k ==> IsDigit(t[j])
    ensures ValueOf(t[..k + 1]) == ValueOf(t[..k]) * 10 + (t[k] - '0') as int
  {
    assert t[..k + 1][..k] == t[..k];
  }

  // ---------- the next token ----------

  /** next_token on the text that is left. */
  function NextToken(s: string): (r: Result<St>)
    ensures r.Ok? ==> |r.value.rest| <= |s| && (r.value.tok != End ==> |r.value.rest| < |s|)
  {
    var t := s[Run(s, IsSpace)..];
    if t == "" then Ok(St(End, ""))
    else if IsDigit(t[0]) then Number(t)
    else if IsAlpha(t[0]) || t[0] == '_' then WordAt(t)
    else if t[0] == '\'' then
      var n := Run(t[1..], NoQuote);
      if n == |t| - 1 then BadSyntax else Ok(St(Str(t[1..1 + n]), t[n + 2..]))
    else Ok(St(Delim(t[0]), t[1..]))
  }

  function Number(t: string): (r: Result<St>)
    requires t != "" && IsDigit(t[0])
    ensures r.Ok? && r.value.tok.Num? && |r.value.rest| < |t|
  {
    var n := Run(t, IsDigit);
    Ok(St(Num(ValueOf(t[..n])), t[n..]))
  }

  function WordAt(t: string): (r: Result<St>)
    requires t != "" && (IsAlpha(t[0]) || t[0] == '_')
    ensures r.Ok? && r.value.tok.Word? && |r.value.rest| < |t|
  {
    var n := Run(t, IsWordChar);
    Ok(St(Word(LowerAll(t[..n])), t[n..]))
  }

  // ---------- consuming a token ----------

  function TakeDelim(st: St, c: char): Result<St> {
    if st.tok == Delim(c) then NextToken(st.rest) else BadSyntax
  }

  function TakeKeyword(st: St, w: string): Result<St> {
    if st.tok == Word(w) then NextToken(st.rest) else BadSyntax
  }

  predicate AtId(st: St) {
    st.tok.Word? && st.tok.w !in KEYWORDS
  }

  // ---------- the lexer ----------

  class Lexer {
    var input: string
    var pos: nat
    var curr: Token

    ghost predicate Valid()
      reads this
    {
      pos <= |input|
    }

    ghost function State(): St
      requires Valid()
      reads this
    {
      St(curr, input[pos..])
    }

    constructor ()
      ensures Valid() && pos == 0
    {
      input, pos, curr := "", 0, End;
    }

    /** A fresh lexer starts at the front of the text; a used one goes on where it was. */
    method Analyze(text: string) returns (ok: bool)
      requires pos == 0
      modifies this
      ensures ok == NextToken(text).Ok? && (ok ==> Valid() && State() == NextToken(text).value)
    {
      input := text;
      assert input[0..] == text;
      ok := Advance();
    }

    method SkipWhitespace()
      requires Valid()
      modifies this`pos
      ensures Valid() && pos == old(pos) + Run(old(input[pos..]), IsSpace)
    {
      ghost var s := input[pos..];
      while pos < |input| && IsSpace(input[pos])
        invariant old(pos) <= pos <= |input| && pos - old(pos) <= Run(s, IsSpace)
      {
        assert s[pos - old(pos)] == input[pos];
        pos := pos + 1;
      }
      assert pos < |input| ==> s[pos - old(pos)] == input[pos];
    }

    method ReadString() returns (ok: bool)
      requires Valid() && pos < |input| && input[pos] == '\''
      modifies this`pos, this`curr
      ensures
        var t := old(input[pos..]);
        var n := Run(t[1..], NoQuote);
        ok == (n < |t| - 1) && (ok ==> Valid() && State() == St(Str(t[1..1 + n]), t[n + 2..]))
    {
      ghost var t := input[pos..];
      ghost var u, n := t[1..], Run(t[1..], NoQuote);
      pos := pos + 1;
      var start, text := pos, "";
      while pos < |input| && input[pos] != '\''
        invariant start <= pos <= start + n && text == u[..pos - start]
      {
        assert u[pos - start] == input[pos];
        text := text + [input[pos]];
        pos := pos + 1;
      }
      if pos >= |input| {
        return false;
      }
      assert u[pos - start] == input[pos];
      pos := pos + 1;
      curr := Str(text);
      assert input[pos..] == t[n + 2..] && text == t[1..1 + n];
      ok := true;
    }

    method ReadNumber()
      requires Valid() && pos < |input| && IsDigit(input[pos])
      modifies this`pos, this`curr
      ensures Valid() && Ok(State()) == Number(old(input[pos..]))
    {
      ghost var t := input[pos..];
      var start, value: nat := pos, 0;
      assert t[..0] == "";
      while pos < |input| && IsDigit(input[pos])
        invariant start <= pos <= |input| && pos - start <= Run(t, IsDigit)
        invariant value == ValueOf(t[..pos - start])
      {
        assert t[pos - start] == input[pos];
        ValueMore(t, pos - start);
        value := value * 10 + (input[pos] - '0') as int;
        pos := pos + 1;
      }
      assert pos < |input| ==> t[pos - start] == input[pos];
      curr := Num(value);
    }

    method ReadWord()
      requires Valid() && pos < |input| && (IsAlpha(input[pos]) || input[pos] == '_')
      modifies this`pos, this`curr
      ensures Valid() && Ok(State()) == WordAt(old(input[pos..]))
    {
      ghost var t := input[pos..];
      var start, word := pos, "";
      while pos < |input| && IsWordChar(input[pos])
        invariant start <= pos <= |input| && pos - start <= Run(t, IsWordChar)
        invariant word == LowerAll(t[..pos - start])
      {
        assert t[pos - start] == input[pos];
        LowerMore(t, pos - start);
        word := word + [Lower(input[pos])];
        pos := pos + 1;
      }
      assert pos < |input| ==> t[pos - start] == input[pos];
      curr := Word(word);
    }

    /** next_token: false where the source throws. */
    method Advance() returns (ok: bool)
      requires Valid()
      modifies this`pos, this`curr
      ensures ok == NextToken(old(input[pos..])).Ok?
      ensures (ok ==> Valid() && State() == NextToken(old(input[pos..])).value)
    {
      ghost var s := input[pos..];
      SkipWhitespace();
      assert input[pos..] == s[Run(s, IsSpace)..];
      ok := true;
      if pos >= |input| {
        curr := End;
      } else if IsDigit(input[pos]) {
        ReadNumber();
      } else if IsAlpha(input[pos]) || input[pos] == '_' {
        ReadWord();
      } else if input[pos] == '\'' {
        ok := ReadString();
      } else {
        curr := Delim(input[pos]);
        pos := pos + 1;
      }
    }

    predicate MatchDelimiter(c: char)
      reads this
    {
      curr == Delim(c)
    }

    predicate MatchKeyword(w: string)
      reads this
    {
      curr == Word(w)
    }

    predicate MatchId()
      reads this
    {
      curr.Word? && curr.w !in KEYWORDS
    }

    method ConsumeDelimiter(c: char) returns (ok: bool)
      requires Valid()
      modifies this`pos, this`curr
      ensures ok == TakeDelim(old(State()), c).Ok? && (ok ==> Valid() && State() == TakeDelim(old(State()), c).value)
    {
      if !MatchDelimiter(c) {
        return false;
      }
      ok := Advance();
    }

    method ConsumeKeyword(w: string) returns (ok: bool)
      requires Valid()
      modifies this`pos, this`curr
      ensures ok == TakeKeyword(old(State()), w).Ok?
      ensures (ok ==> Valid() && State() == TakeKeyword(old(State()), w).value)
    {
      if !MatchKeyword(w) {
        return false;
      }
      ok := Advance();
    }

    method ConsumeId() returns (r: Result<string>)
      requires Valid()
      modifies this`pos, this`curr
      ensures r.Ok? == (AtId(old(State())) && NextToken(old(State()).rest).Ok?)
      ensures r.Ok? ==> Valid() && r.value == old(State()).tok.w && State() == NextToken(old(State()).rest).value
    {
      if !MatchId() {
        return BadSyntax;
      }
      var word := curr.w;
      var ok := Advance();
      r := if ok then Ok(word) else BadSyntax;
    }

    /** A constant: a string in quotes or a number. */
    method ConsumeConstant() returns (r: Result<Value>)
      requires Valid()
      modifies this`pos, this`curr
      ensures r.Ok? == ((old(State()).tok.Str? || old(State()).tok.Num?) && NextToken(old(State()).rest).Ok?)
      ensures r.Ok? ==> Valid() && State() == NextToken(old(State()).rest).value
      ensures r.Ok? ==>
                r.value == (match old(State()).tok case Str(s) => StrVal(s) case Num(n) => IntVal(n) case _ => Zero)
    {
      if !curr.Str? && !curr.Num? {
        return BadSyntax;
      }
      var val := if curr.Str? then StrVal(curr.s) else IntVal(curr.n);
      var ok := Advance();
      r := if ok then Ok(val) else BadSyntax;
    }
  }
}
