/** The grammar as a plain recursive-descent parser that builds trees: the reference for the
    arena parser. Every production consumes tokens or stops. */
module TreeParser {
  import opened Basics
  import opened Syntax

  datatype Parsed<+T> = Done(value: T, pos: nat) | Fail(error: ParseError) {
    predicate IsFailure() {
      Fail?
    }
    function PropagateFailure<U>(): Parsed<U>
      requires Fail?
    {
      Fail(error)
    }
    function Extract(): (T, nat)
      requires Done?
    {
      (value, pos)
    }
  }

  function Reject(t: Token, kind: ErrorKind): ParseError {
    ParseError(t.span, kind)
  }

  // ----- tokens -----

  function Peek(s: Stream, pos: nat): (r: Parsed<Token>)
    ensures r.Done? ==> r.pos == pos && (r.value.kind == Eof <==> pos >= |s.tokens|)
  {
    if pos < |s.tokens| then Done(s.tokens[pos], pos)
    else match s.ending
      case AtEnd(at) => Done(Token(Eof, "", Span(at, at)), pos)
      case Broken(e) => Fail(e)
  }

  function Expect(s: Stream, pos: nat, kind: TokenKind, err: ErrorKind): (r: Parsed<Token>)
    requires kind != Eof
    ensures r.Done? ==> r.pos == pos + 1 <= |s.tokens| && r.value == s.tokens[pos] && r.value.kind == kind
  {
    var (t, _) :- Peek(s, pos);
    if t.kind == kind then Done(t, pos + 1) else Fail(Reject(t, err))
  }

  function ParseName(s: Stream, pos: nat): (r: Parsed<Name>)
    ensures r.Done? ==> r.pos == pos + 1 <= |s.tokens|
  {
    var (t, _) :- Peek(s, pos);
    if t.kind != NameToken then Fail(Reject(t, ExpectedName)) else Done(Name(t.text, t.span), pos + 1)
  }

  // ----- types and values -----

  function ParseTypeAtom(s: Stream, pos: nat): (r: Parsed<Type>)
    ensures r.Done? ==> pos < r.pos <= |s.tokens|
    decreases |s.tokens| - pos, 0
  {
    var (t, _) :- Peek(s, pos);
    match t.kind
    case NameToken => Done(Named(Name(t.text, t.span)), pos + 1)
    case LBracket =>
      var (elem, p1) :- ParseType(s, pos + 1);
      var (_, p2) :- Expect(s, p1, RBracket, UnclosedDelimiter);
      Done(ListOf(elem), p2)
    case _ => Fail(Reject(t, ExpectedType))
  }

  function ParseType(s: Stream, pos: nat): (r: Parsed<Type>)
    ensures r.Done? ==> pos < r.pos <= |s.tokens|
    decreases |s.tokens| - pos, 1
  {
    var (inner, p) :- ParseTypeAtom(s, pos);
    var (next, _) :- Peek(s, p);
    if next.kind == Bang then Done(NonNull(inner), p + 1) else Done(inner, p)
  }

  function WordValue(t: Token): Value {
    if t.text == "true" then Boolean(true)
    else if t.text == "false" then Boolean(false)
    else if t.text == "null" then Null
    else Enum(Name(t.text, t.span))
  }

  /** A variable, a literal or an enum value. */
  function ParseScalar(s: Stream, pos: nat, isConst: bool): (r: Parsed<Value>)
    ensures r.Done? ==> pos < r.pos <= |s.tokens|
  {
    var (t, _) :- Peek(s, pos);
    match t.kind
    case Dollar =>
      if isConst then Fail(Reject(t, ExpectedValue))
      else
        var (name, p) :- ParseName(s, pos + 1);
        Done(Variable(name), p)
    case IntValue => Done(Int(t.text), pos + 1)
    case FloatValue => Done(Float(t.text), pos + 1)
    case StringValue => Done(String(t.text, false, t.span), pos + 1)
    case BlockStringValue => Done(String(t.text, true, t.span), pos + 1)
    case NameToken => Done(WordValue(t), pos + 1)
    case _ => Fail(Reject(t, ExpectedValue))
  }

  function ParseValue(s: Stream, pos: nat, isConst: bool): (r: Parsed<Value>)
    ensures r.Done? ==> pos < r.pos <= |s.tokens|
    decreases |s.tokens| - pos, 0
  {
    var (t, _) :- Peek(s, pos);
    match t.kind
    case LBracket =>
      var (items, p) :- ParseItems(s, pos + 1, isConst, []);
      Done(List(items), p)
    case LBrace =>
      var (fields, p) :- ParseEntries(s, pos + 1, RBrace, isConst, []);
      Done(Object(fields), p)
    case _ => ParseScalar(s, pos, isConst)
  }

  function ParseItems(s: Stream, pos: nat, isConst: bool, acc: seq<Value>): (r: Parsed<seq<Value>>)
    ensures r.Done? ==> pos < r.pos <= |s.tokens|
    decreases |s.tokens| - pos, 1
  {
    var (t, _) :- Peek(s, pos);
    if t.kind == RBracket then Done(acc, pos + 1)
    else if t.kind == Eof then Fail(Reject(t, UnclosedDelimiter))
    else
      var (v, p) :- ParseValue(s, pos, isConst);
      ParseItems(s, p, isConst, acc + [v])
  }

  /** `name : value` pairs up to the closing token. */
  function ParseEntries(s: Stream, pos: nat, close: TokenKind, isConst: bool, acc: seq<Entry>): (r: Parsed<seq<Entry>>)
    requires close != Eof
    ensures r.Done? ==> pos < r.pos <= |s.tokens|
    decreases |s.tokens| - pos, 1
  {
    var (t, _) :- Peek(s, pos);
    if t.kind == close then Done(acc, pos + 1)
    else if t.kind == Eof then Fail(Reject(t, UnclosedDelimiter))
    else
      var (e, p) :- ParseEntry(s, pos, isConst);
      ParseEntries(s, p, close, isConst, acc + [e])
  }

  function ParseEntry(s: Stream, pos: nat, isConst: bool): (r: Parsed<Entry>)
    ensures r.Done? ==> pos < r.pos <= |s.tokens|
    decreases |s.tokens| - pos, 0
  {
    var (name, p1) :- ParseName(s, pos);
    var (_, p2) :- Expect(s, p1, Colon, ExpectedColon);
    var (v, p3) :- ParseValue(s, p2, isConst);
    Done(Entry(name, v), p3)
  }

  // ----- arguments and directives -----

  function ParseArguments(s: Stream, pos: nat): (r: Parsed<seq<Entry>>)
    ensures r.Done? ==> pos < r.pos <= |s.tokens|
  {
    var (_, p) :- Expect(s, pos, LParen, UnexpectedToken);
    ParseEntries(s, p, RParen, false, [])
  }

  function ParseOptArguments(s: Stream, pos: nat): (r: Parsed<Option<seq<Entry>>>)
    requires pos <= |s.tokens|
    ensures r.Done? ==> pos <= r.pos <= |s.tokens|
  {
    var (t, _) :- Peek(s, pos);
    if t.kind == LParen then
      var (es, p) :- ParseArguments(s, pos);
      Done(Some(es), p)
    else
      Done(None, pos)
  }

  function ParseDirectives(s: Stream, pos: nat, acc: seq<Directive>): (r: Parsed<seq<Directive>>)
    requires pos <= |s.tokens|
    ensures r.Done? ==> pos <= r.pos <= |s.tokens|
    decreases |s.tokens| - pos
  {
    var (t, _) :- Peek(s, pos);
    if t.kind != At then Done(acc, pos)
    else
      var (d, p) :- ParseDirective(s, pos + 1);
      ParseDirectives(s, p, acc + [d])
  }

  /** After `@`. */
  function ParseDirective(s: Stream, pos: nat): (r: Parsed<Directive>)
    ensures r.Done? ==> pos < r.pos <= |s.tokens|
  {
    var (name, p1) :- ParseName(s, pos);
    var (args, p2) :- ParseOptArguments(s, p1);
    Done(Directive(name, args), p2)
  }

  // ----- selections -----

  function ParseSelectionSet(s: Stream, pos: nat): (r: Parsed<SelectionSet>)
    ensures r.Done? ==> pos < r.pos <= |s.tokens|
    decreases |s.tokens| - pos, 0
  {
    var (open, p) :- Expect(s, pos, LBrace, UnexpectedToken);
    ParseSelections(s, p, open, [])
  }

  function ParseSelections(s: Stream, pos: nat, open: Token, acc: seq<Selection>): (r: Parsed<SelectionSet>)
    requires pos <= |s.tokens|
    ensures r.Done? ==> pos < r.pos <= |s.tokens|
    decreases |s.tokens| - pos, 3
  {
    var (t, _) :- Peek(s, pos);
    if t.kind == RBrace then
      var span := Span(open.span.start, t.span.end);
      if acc == [] then Fail(ParseError(span, EmptySelectionSet)) else Done(SelectionSet(acc, span), pos + 1)
    else if t.kind == Eof then Fail(Reject(t, UnclosedDelimiter))
    else
      var (sel, p) :- ParseSelection(s, pos);
      ParseSelections(s, p, open, acc + [sel])
  }

  function ParseSelection(s: Stream, pos: nat): (r: Parsed<Selection>)
    requires pos <= |s.tokens|
    ensures r.Done? ==> pos < r.pos <= |s.tokens|
    decreases |s.tokens| - pos, 2
  {
    var (t, _) :- Peek(s, pos);
    if t.kind == Spread then ParseSpread(s, pos + 1)
    else if t.kind != NameToken then Fail(Reject(t, ExpectedName))
    else ParseField(s, pos)
  }

  /** Directives and then a selection set. */
  function ParseBody(s: Stream, pos: nat): (r: Parsed<(seq<Directive>, SelectionSet)>)
    requires pos <= |s.tokens|
    ensures r.Done? ==> pos < r.pos <= |s.tokens|
    decreases |s.tokens| - pos, 1
  {
    var (ds, p1) :- ParseDirectives(s, pos, []);
    var (set_, p2) :- ParseSelectionSet(s, p1);
    Done((ds, set_), p2)
  }

  /** After `...`: a fragment spread, or an inline fragment with or without a type condition. */
  function ParseSpread(s: Stream, pos: nat): (r: Parsed<Selection>)
    requires pos <= |s.tokens|
    ensures r.Done? ==> pos <= r.pos <= |s.tokens|
    decreases |s.tokens| - pos, 2
  {
    var (next, _) :- Peek(s, pos);
    if next.kind == NameToken && next.text == "on" then
      var (cond, p1) :- ParseName(s, pos + 1);
      var (body, p2) :- ParseBody(s, p1);
      Done(InlineFragment(Some(cond), body.0, body.1), p2)
    else if next.kind == NameToken then
      var (ds, p1) :- ParseDirectives(s, pos + 1, []);
      Done(FragmentSpread(Name(next.text, next.span), ds), p1)
    else
      var (body, p1) :- ParseBody(s, pos);
      Done(InlineFragment(None, body.0, body.1), p1)
  }

  function ParseAlias(s: Stream, pos: nat): (r: Parsed<(Option<Name>, Name)>)
    ensures r.Done? ==> pos < r.pos <= |s.tokens|
  {
    var (first, p1) :- ParseName(s, pos);
    var (t, _) :- Peek(s, p1);
    if t.kind == Colon then
      var (real_, p2) :- ParseName(s, p1 + 1);
      Done((Some(first), real_), p2)
    else
      Done((None, first), p1)
  }

  function ParseField(s: Stream, pos: nat): (r: Parsed<Selection>)
    ensures r.Done? ==> pos < r.pos <= |s.tokens|
    decreases |s.tokens| - pos, 1
  {
    var (names, p1) :- ParseAlias(s, pos);
    var (args, p2) :- ParseOptArguments(s, p1);
    var (tail, p3) :- ParseTail(s, p2);
    Done(Field(names.0, names.1, args, tail.0, tail.1), p3)
  }

  /** Directives and then an optional selection set. */
  function ParseTail(s: Stream, pos: nat): (r: Parsed<(seq<Directive>, Option<SelectionSet>)>)
    requires pos <= |s.tokens|
    ensures r.Done? ==> pos <= r.pos <= |s.tokens|
    decreases |s.tokens| - pos, 1
  {
    var (ds, p1) :- ParseDirectives(s, pos, []);
    var (t, _) :- Peek(s, p1);
    if t.kind == LBrace then
      var (set_, p2) :- ParseSelectionSet(s, p1);
      Done((ds, Some(set_)), p2)
    else
      Done((ds, None), p1)
  }

  // ----- definitions -----

  function ParseDefault(s: Stream, pos: nat): (r: Parsed<Option<Value>>)
    requires pos <= |s.tokens|
    ensures r.Done? ==> pos <= r.pos <= |s.tokens|
  {
    var (t, _) :- Peek(s, pos);
    if t.kind == Eq then
      var (v, p) :- ParseValue(s, pos + 1, true);
      Done(Some(v), p)
    else
      Done(None, pos)
  }

  function ParseVariable(s: Stream, pos: nat): (r: Parsed<VariableDefinition>)
    ensures r.Done? ==> pos < r.pos <= |s.tokens|
  {
    var (start, p1) :- ParseVariableHead(s, pos);
    var (default_, p2) :- ParseDefault(s, p1);
    var (ds, p3) :- ParseDirectives(s, p2, []);
    Done(VariableDefinition(start.0, start.1, default_, ds), p3)
  }

  /** `$name : Type`. */
  function ParseVariableHead(s: Stream, pos: nat): (r: Parsed<(Name, Type)>)
    ensures r.Done? ==> pos < r.pos <= |s.tokens|
  {
    var (_, p1) :- Expect(s, pos, Dollar, ExpectedDollar);
    var (name, p2) :- ParseName(s, p1);
    var (_, p3) :- Expect(s, p2, Colon, ExpectedColon);
    var (ty, p4) :- ParseType(s, p3);
    Done((name, ty), p4)
  }

  function ParseVariables(s: Stream, pos: nat, acc: seq<VariableDefinition>): (r: Parsed<seq<VariableDefinition>>)
    ensures r.Done? ==> pos < r.pos <= |s.tokens|
    decreases |s.tokens| - pos
  {
    var (t, _) :- Peek(s, pos);
    if t.kind == RParen then Done(acc, pos + 1)
    else if t.kind == Eof then Fail(Reject(t, UnclosedDelimiter))
    else
      var (v, p) :- ParseVariable(s, pos);
      ParseVariables(s, p, acc + [v])
  }

  function ParseShorthand(s: Stream, pos: nat): (r: Parsed<Definition>)
    ensures r.Done? ==> pos < r.pos <= |s.tokens|
  {
    var (t, _) :- Peek(s, pos);
    var (set_, p) :- ParseSelectionSet(s, pos);
    Done(Shorthand(set_, Span(t.span.start, set_.span.end)), p)
  }

  function ParseOpName(s: Stream, pos: nat): (r: Parsed<Option<Name>>)
    requires pos <= |s.tokens|
    ensures r.Done? ==> pos <= r.pos <= |s.tokens|
  {
    var (t, _) :- Peek(s, pos);
    if t.kind == NameToken then Done(Some(Name(t.text, t.span)), pos + 1) else Done(None, pos)
  }

  function ParseOptVariables(s: Stream, pos: nat): (r: Parsed<Option<seq<VariableDefinition>>>)
    requires pos <= |s.tokens|
    ensures r.Done? ==> pos <= r.pos <= |s.tokens|
  {
    var (t, _) :- Peek(s, pos);
    if t.kind == LParen then
      var (vs, p) :- ParseVariables(s, pos + 1, []);
      Done(Some(vs), p)
    else
      Done(None, pos)
  }

  /** `kw` is the keyword token, already consumed. */
  function ParseOperation(s: Stream, pos: nat, kw: Token): (r: Parsed<Definition>)
    requires pos <= |s.tokens|
    ensures r.Done? ==> pos < r.pos <= |s.tokens|
  {
    if OperationOf(kw.text) == None then Fail(Reject(kw, ExpectedOperationKind))
    else
      var (name, p1) :- ParseOpName(s, pos);
      var (vars, p2) :- ParseOptVariables(s, p1);
      var (body, p3) :- ParseBody(s, p2);
      Done(Operation(OperationOf(kw.text).value, name, vars, body.0, body.1, Span(kw.span.start, body.1.span.end)), p3)
  }

  function ParseFragment(s: Stream, pos: nat, kw: Token): (r: Parsed<Definition>)
    requires pos <= |s.tokens|
    ensures r.Done? ==> pos < r.pos <= |s.tokens|
  {
    var (name, p1) :- ParseName(s, pos);
    var (on, _) :- Peek(s, p1);
    if !(on.kind == NameToken && on.text == "on") then Fail(Reject(on, ExpectedOnKeyword))
    else
      var (cond, p2) :- ParseName(s, p1 + 1);
      var (body, p3) :- ParseBody(s, p2);
      Done(Fragment(name, cond, body.0, body.1, Span(kw.span.start, body.1.span.end)), p3)
  }

  function ParseDefinition(s: Stream, pos: nat): (r: Parsed<Definition>)
    requires pos <= |s.tokens|
    ensures r.Done? ==> pos < r.pos <= |s.tokens|
  {
    var (t, _) :- Peek(s, pos);
    if t.kind == LBrace then ParseShorthand(s, pos)
    else if t.kind == NameToken && OperationOf(t.text).Some? then ParseOperation(s, pos + 1, t)
    else if t.kind == NameToken && t.text == "fragment" then ParseFragment(s, pos + 1, t)
    else Fail(Reject(t, UnknownDefinition))
  }

  function ParseDefinitions(s: Stream, pos: nat, acc: seq<Definition>): (r: Parsed<seq<Definition>>)
    requires pos <= |s.tokens|
    ensures r.Done? ==> r.pos == |s.tokens|
    decreases |s.tokens| - pos
  {
    var (t, _) :- Peek(s, pos);
    if t.kind == Eof then
      if acc == [] then Fail(ParseError(Span(0, s.length), UnexpectedEof)) else Done(acc, pos)
    else
      var (d, p) :- ParseDefinition(s, pos);
      ParseDefinitions(s, p, acc + [d])
  }

  function ParseDocument(s: Stream): (r: Parsed<seq<Definition>>) {
    ParseDefinitions(s, 0, [])
  }
}
