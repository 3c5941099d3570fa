/** Which error a document gets where it goes wrong, and at which position (magna-gqlmin `parse/mod.rs`). */
module ParseErrors {
  import opened Basics
  import opened Syntax
  import opened TreeParser

  /** The token at `pos`, or the end of the input. */
  function TokenAt(s: Stream, pos: nat): Token
    requires pos < |s.tokens| || s.ending.AtEnd?
  {
    if pos < |s.tokens| then s.tokens[pos] else Token(Eof, "", Span(s.ending.offset, s.ending.offset))
  }

  /** The document begins with tokens of these kinds, and a token or the end follows. */
  predicate BeginsWith(s: Stream, kinds: seq<TokenKind>) {
    && |kinds| <= |s.tokens| && (|kinds| < |s.tokens| || s.ending.AtEnd?)
    && forall i :: 0 <= i < |kinds| ==> s.tokens[i].kind == kinds[i]
  }

  predicate FailsAt(s: Stream, pos: nat, kind: ErrorKind)
    requires pos < |s.tokens| || s.ending.AtEnd?
  {
    ParseDocument(s) == Fail(ParseError(TokenAt(s, pos).span, kind))
  }

  /** A source without a definition. */
  lemma {:induction false} NothingDefined(s: Stream)
    requires s.tokens == [] && s.ending.AtEnd?
    ensures ParseDocument(s) == Fail(ParseError(Span(0, s.length), UnexpectedEof))
  {
  }

  /** A definition begins with `{`, with one of three keywords or with `fragment`. */
  lemma {:induction false} NoDefinition(s: Stream)
    requires s.tokens != [] && s.tokens[0].kind != LBrace
    requires s.tokens[0].kind == NameToken ==>
      s.tokens[0].text !in {"query", "mutation", "subscription", "fragment"}
    ensures FailsAt(s, 0, UnknownDefinition)
  {
  }

  /** Errors in the selections of `{` are those of the document. */
  lemma {:induction false} InSelections(s: Stream)
    requires s.tokens != [] && s.tokens[0].kind == LBrace && ParseSelections(s, 1, s.tokens[0], []).Fail?
    ensures ParseDocument(s) == Fail(ParseSelections(s, 1, s.tokens[0], []).error)
  {
    hide ParseSelections;
    assert ParseSelectionSet(s, 0) == ParseSelections(s, 1, s.tokens[0], []);
    assert ParseDefinition(s, 0) == Fail(ParseSelections(s, 1, s.tokens[0], []).error);
  }

  /** `{ }` is reported from brace to brace. */
  lemma {:induction false} NothingSelected(s: Stream)
    requires BeginsWith(s, [LBrace, RBrace])
    ensures ParseDocument(s) == Fail(ParseError(Span(s.tokens[0].span.start, s.tokens[1].span.end), EmptySelectionSet))
  {
    assert s.tokens[0].kind == [LBrace, RBrace][0] && s.tokens[1].kind == [LBrace, RBrace][1];
    InSelections(s);
  }

  /** After `{` comes a name, `...` or the end of the selections. */
  lemma {:induction false} NoSelection(s: Stream)
    requires BeginsWith(s, [LBrace])
    ensures TokenAt(s, 1).kind == Eof ==> FailsAt(s, 1, UnclosedDelimiter)
    ensures TokenAt(s, 1).kind !in {NameToken, Spread, RBrace, Eof} ==> FailsAt(s, 1, ExpectedName)
  {
    assert s.tokens[0].kind == [LBrace][0];
    if TokenAt(s, 1).kind !in {NameToken, Spread, RBrace} {
      InSelections(s);
    }
  }

  predicate IsQuery(t: Token) {
    t.kind == NameToken && t.text == "query"
  }

  /** After `query` comes a name, variables, directives or selections. */
  lemma {:induction false} NoSelectionSet(s: Stream)
    requires BeginsWith(s, [NameToken]) && IsQuery(s.tokens[0])
    requires TokenAt(s, 1).kind !in {NameToken, LParen, TokenKind.At, LBrace}
    ensures FailsAt(s, 1, UnexpectedToken)
  {
    assert ParseOpName(s, 1) == Done(None, 1) && ParseOptVariables(s, 1) == Done(None, 1);
    assert ParseDirectives(s, 1, []) == Done([], 1);
    assert ParseBody(s, 1) == Fail(ParseError(TokenAt(s, 1).span, UnexpectedToken));
  }

  /** Errors in the variables of a query are its errors. */
  lemma {:induction false} InVariables(s: Stream)
    requires |s.tokens| >= 2 && IsQuery(s.tokens[0]) && s.tokens[1].kind == LParen
    ensures ParseVariables(s, 2, []).Fail? ==> ParseDocument(s) == Fail(ParseVariables(s, 2, []).error)
  {
    assert ParseOpName(s, 1) == Done(None, 1);
  }

  /** A variable definition is a `$`, a name, a colon and a type. */
  lemma {:induction false} NoVariable(s: Stream)
    requires BeginsWith(s, [NameToken, LParen]) && IsQuery(s.tokens[0])
    ensures TokenAt(s, 2).kind == Eof ==> FailsAt(s, 2, UnclosedDelimiter)
    ensures TokenAt(s, 2).kind !in {Dollar, RParen, Eof} ==> FailsAt(s, 2, ExpectedDollar)
  {
    assert s.tokens[1].kind == [NameToken, LParen][1];
    InVariables(s);
  }

  lemma {:induction false} NoVariableName(s: Stream)
    requires BeginsWith(s, [NameToken, LParen, Dollar]) && IsQuery(s.tokens[0])
    requires TokenAt(s, 3).kind != NameToken
    ensures FailsAt(s, 3, ExpectedName)
  {
    var kinds := [NameToken, LParen, Dollar];
    assert s.tokens[1].kind == kinds[1] && s.tokens[2].kind == kinds[2];
    assert ParseVariableHead(s, 2) == Fail(ParseError(TokenAt(s, 3).span, ExpectedName));
    InVariables(s);
  }

  lemma {:induction false} NoColon(s: Stream)
    requires BeginsWith(s, [NameToken, LParen, Dollar, NameToken]) && IsQuery(s.tokens[0])
    requires TokenAt(s, 4).kind != Colon
    ensures FailsAt(s, 4, ExpectedColon)
  {
    var kinds := [NameToken, LParen, Dollar, NameToken];
    assert s.tokens[1].kind == kinds[1] && s.tokens[2].kind == kinds[2] && s.tokens[3].kind == kinds[3];
    assert ParseVariableHead(s, 2) == Fail(ParseError(TokenAt(s, 4).span, ExpectedColon));
    InVariables(s);
  }

  lemma {:induction false} NoType(s: Stream)
    requires BeginsWith(s, [NameToken, LParen, Dollar, NameToken, Colon]) && IsQuery(s.tokens[0])
    requires TokenAt(s, 5).kind !in {NameToken, LBracket}
    ensures FailsAt(s, 5, ExpectedType)
  {
    var kinds := [NameToken, LParen, Dollar, NameToken, Colon];
    assert s.tokens[1].kind == kinds[1] && s.tokens[2].kind == kinds[2] && s.tokens[3].kind == kinds[3];
    assert s.tokens[4].kind == kinds[4];
    assert ParseType(s, 5) == Fail(ParseError(TokenAt(s, 5).span, ExpectedType));
    assert ParseVariableHead(s, 2) == Fail(ParseError(TokenAt(s, 5).span, ExpectedType));
    InVariables(s);
  }

  lemma {:induction false} TypeUnclosed(s: Stream)
    requires BeginsWith(s, [NameToken, LParen, Dollar, NameToken, Colon, LBracket, NameToken]) && IsQuery(s.tokens[0])
    requires TokenAt(s, 7).kind !in {RBracket, Bang}
    ensures FailsAt(s, 7, UnclosedDelimiter)
  {
    var kinds := [NameToken, LParen, Dollar, NameToken, Colon, LBracket, NameToken];
    assert s.tokens[1].kind == kinds[1] && s.tokens[2].kind == kinds[2] && s.tokens[3].kind == kinds[3];
    assert s.tokens[4].kind == kinds[4] && s.tokens[5].kind == kinds[5] && s.tokens[6].kind == kinds[6];
    assert ParseType(s, 6).Done? && ParseType(s, 6).pos == 7;
    assert ParseType(s, 5) == Fail(ParseError(TokenAt(s, 7).span, UnclosedDelimiter));
    assert ParseVariableHead(s, 2) == Fail(ParseError(TokenAt(s, 7).span, UnclosedDelimiter));
    InVariables(s);
  }

  /** A default value is a value, and holds no variable. */
  lemma {:induction false} NoDefault(s: Stream)
    requires BeginsWith(s, [NameToken, LParen, Dollar, NameToken, Colon, NameToken, Eq]) && IsQuery(s.tokens[0])
    requires TokenAt(s, 7).kind !in
      {IntValue, FloatValue, StringValue, BlockStringValue, NameToken, LBracket, LBrace}
    ensures FailsAt(s, 7, ExpectedValue)
  {
    var kinds := [NameToken, LParen, Dollar, NameToken, Colon, NameToken, Eq];
    assert s.tokens[1].kind == kinds[1] && s.tokens[2].kind == kinds[2] && s.tokens[3].kind == kinds[3];
    assert s.tokens[4].kind == kinds[4] && s.tokens[5].kind == kinds[5] && s.tokens[6].kind == kinds[6];
    assert ParseType(s, 5).Done? && ParseType(s, 5).pos == 6;
    assert ParseVariableHead(s, 2).Done? && ParseVariableHead(s, 2).pos == 6;
    assert ParseDefault(s, 6) == Fail(ParseError(TokenAt(s, 7).span, ExpectedValue));
    InVariables(s);
  }

  /** After `fragment` and a name comes `on`. */
  lemma {:induction false} NoOn(s: Stream)
    requires BeginsWith(s, [NameToken, NameToken]) && s.tokens[0].text == "fragment"
    requires TokenAt(s, 2).kind == NameToken ==> TokenAt(s, 2).text != "on"
    ensures FailsAt(s, 2, ExpectedOnKeyword)
  {
    assert s.tokens[0].kind == [NameToken, NameToken][0] && s.tokens[1].kind == [NameToken, NameToken][1];
  }

  lemma {:induction false} NoFragmentName(s: Stream)
    requires BeginsWith(s, [NameToken]) && s.tokens[0].text == "fragment" && TokenAt(s, 1).kind != NameToken
    ensures FailsAt(s, 1, ExpectedName)
  {
    assert s.tokens[0].kind == [NameToken][0];
  }

  /** Errors in the arguments of the first field of `{` are those of the document. */
  lemma {:induction false} InArguments(s: Stream)
    requires |s.tokens| >= 3 && s.tokens[0].kind == LBrace && s.tokens[1].kind == NameToken
    requires s.tokens[2].kind == LParen
    ensures ParseEntries(s, 3, RParen, false, []).Fail? ==>
      ParseDocument(s) == Fail(ParseEntries(s, 3, RParen, false, []).error)
  {
    assert ParseAlias(s, 1).Done? && ParseAlias(s, 1).pos == 2;
    if ParseEntries(s, 3, RParen, false, []).Fail? {
      assert ParseField(s, 1) == Fail(ParseEntries(s, 3, RParen, false, []).error);
      assert ParseSelection(s, 1) == Fail(ParseEntries(s, 3, RParen, false, []).error);
      InSelections(s);
    }
  }

  /** An argument is a name, a colon and a value. */
  lemma {:induction false} NoArgument(s: Stream)
    requires BeginsWith(s, [LBrace, NameToken, LParen])
    ensures TokenAt(s, 3).kind == Eof ==> FailsAt(s, 3, UnclosedDelimiter)
    ensures TokenAt(s, 3).kind !in {NameToken, RParen, Eof} ==> FailsAt(s, 3, ExpectedName)
  {
    var kinds := [LBrace, NameToken, LParen];
    assert s.tokens[0].kind == kinds[0] && s.tokens[1].kind == kinds[1] && s.tokens[2].kind == kinds[2];
    if TokenAt(s, 3).kind !in {NameToken, RParen, Eof} {
      assert ParseEntry(s, 3, false) == Fail(ParseError(TokenAt(s, 3).span, ExpectedName));
    }
    InArguments(s);
  }

  lemma {:induction false} NoArgumentValue(s: Stream)
    requires BeginsWith(s, [LBrace, NameToken, LParen, NameToken, Colon])
    requires TokenAt(s, 5).kind !in
      {IntValue, FloatValue, StringValue, BlockStringValue, NameToken, LBracket, LBrace, Dollar}
    ensures FailsAt(s, 5, ExpectedValue)
  {
    var kinds := [LBrace, NameToken, LParen, NameToken, Colon];
    assert s.tokens[0].kind == kinds[0] && s.tokens[1].kind == kinds[1] && s.tokens[2].kind == kinds[2];
    assert s.tokens[3].kind == kinds[3] && s.tokens[4].kind == kinds[4];
    assert ParseEntry(s, 3, false) == Fail(ParseError(TokenAt(s, 5).span, ExpectedValue));
    InArguments(s);
  }
}
