/** The one-token-lookahead parser that fills the arena (magna-gqlmin `parse/mod.rs`). Each
    production is proved to do exactly what the tree grammar does and to lay the tree out. */
module ArenaParser {
  import opened Basics
  import opened Syntax
  import opened Arena
  import Grammar = TreeParser

  lemma {:induction false} LayList(items: seq<Value>, base: nat)
    ensures var l := Close(LayItems(items, base), base);
      LayValue(List(items), base) == Laid(ListRange(l.value), l.nodes)
  {
  }

  lemma {:induction false} ValueUnfolds(s: Stream, pos: nat, isConst: bool)
    ensures var t, r := Grammar.Peek(s, pos), Grammar.ParseValue(s, pos, isConst);
      && (t.Fail? ==> r == Grammar.Fail(t.error))
      && (t.Done? && t.value.kind == LBracket ==>
            var g := Grammar.ParseItems(s, pos + 1, isConst, []);
            r == if g.Fail? then Grammar.Fail(g.error) else Grammar.Done(List(g.value), g.pos))
      && (t.Done? && t.value.kind == LBrace ==>
            var g := Grammar.ParseEntries(s, pos + 1, RBrace, isConst, []);
            r == if g.Fail? then Grammar.Fail(g.error) else Grammar.Done(Object(g.value), g.pos))
      && (t.Done? && t.value.kind != LBracket && t.value.kind != LBrace ==> r == Grammar.ParseScalar(s, pos, isConst))
  {
    hide Grammar.ParseItems, Grammar.ParseEntries, Grammar.ParseScalar, Grammar.Peek;
  }

  lemma {:induction false} DirectivesUnfold(s: Stream, pos: nat, acc: seq<Directive>)
    requires pos <= |s.tokens|
    ensures var t, r := Grammar.Peek(s, pos), Grammar.ParseDirectives(s, pos, acc);
      && (t.Fail? ==> r == Grammar.Fail(t.error))
      && (t.Done? && t.value.kind != At ==> r == Grammar.Done(acc, pos))
      && (t.Done? && t.value.kind == At ==>
            var g := Grammar.ParseDirective(s, pos + 1);
            r == if g.Fail? then Grammar.Fail(g.error) else Grammar.ParseDirectives(s, g.pos, acc + [g.value]))
  {
    hide Grammar.ParseDirective, Grammar.Peek;
  }

  lemma {:induction false} TailLaid(ds: seq<Directive>, base: nat)
    ensures var d := Close(LayDirectives(ds, base), base); LayTail(ds, None, base) == Laid((d.value, None), d.nodes)
  {
  }

  lemma {:induction false} TailLaidWith(ds: seq<Directive>, set_: SelectionSet, base: nat)
    ensures var d := Close(LayDirectives(ds, base), base);
      var l := LaySet(set_, base + |d.nodes|);
      LayTail(ds, Some(set_), base) == Laid((d.value, Some(l.value)), d.nodes + l.nodes)
  {
    hide LayDirectives, LaySet, Close;
  }

  lemma {:induction false} LayObject(fields: seq<Entry>, base: nat)
    ensures var l := Close(LayFields(fields, base), base);
      LayValue(Object(fields), base) == Laid(ObjectRange(l.value), l.nodes)
  {
  }

  class Parser {
    const s: Stream
    var cursor: nat
    var peeked: Option<Token>
    var nodes: seq<Node>
    var scratch: seq<Node>

    constructor (s: Stream)
      ensures this.s == s && Valid() && Pos() == 0 && nodes == [] && scratch == []
    {
      this.s := s;
      cursor, peeked, nodes, scratch := 0, None, [], [];
    }

    /** The lookahead, if any, is the token before the lexer's cursor, or the end of input. */
    ghost predicate Valid()
      reads this`cursor, this`peeked
    {
      && cursor <= |s.tokens|
      && (peeked.Some? ==>
            if peeked.value.kind == Eof then Grammar.Peek(s, cursor) == Grammar.Done(peeked.value, cursor)
            else cursor > 0 && peeked.value == s.tokens[cursor - 1])
    }

    /** The number of tokens consumed. */
    ghost function Pos(): (p: nat)
      requires Valid()
      ensures p <= |s.tokens|
      reads this`cursor, this`peeked
    {
      if peeked.Some? && peeked.value.kind != Eof then cursor - 1 else cursor
    }

    /** `pos` tokens consumed, `added` appended to the arena, scratch stack as before. */
    ghost predicate Reached(pos: nat, before: seq<Node>, added: seq<Node>, stack: seq<Node>)
      reads this
    {
      Valid() && Pos() == pos && nodes == before + added && scratch == stack
    }

    // ----- tokens -----

    method NextToken() returns (r: Result<Token, ParseError>)
      requires Valid() && peeked == None
      modifies this`cursor
      ensures r.Err? ==> Grammar.Peek(s, old(cursor)) == Grammar.Fail(r.error)
      ensures r.Ok? ==> Grammar.Peek(s, old(cursor)) == Grammar.Done(r.value, old(cursor))
      ensures cursor == if old(cursor) < |s.tokens| then old(cursor) + 1 else old(cursor)
    {
      if cursor < |s.tokens| {
        r := Ok(s.tokens[cursor]);
        cursor := cursor + 1;
      } else {
        match s.ending {
          case AtEnd(at) => r := Ok(Token(Eof, "", Span(at, at)));
          case Broken(e) => r := Err(e);
        }
      }
    }

    method PeekToken() returns (r: Result<Token, ParseError>)
      requires Valid()
      modifies this`cursor, this`peeked
      ensures r.Err? ==> Grammar.Peek(s, old(Pos())) == Grammar.Fail(r.error)
      ensures r.Ok? ==> Grammar.Peek(s, old(Pos())) == Grammar.Done(r.value, old(Pos()))
      ensures r.Ok? ==> Valid() && Pos() == old(Pos()) && peeked == Some(r.value)
    {
      if peeked.Some? {
        return Ok(peeked.value);
      }
      var t :- NextToken();
      peeked := Some(t);
      r := Ok(t);
    }

    method BumpToken() returns (r: Result<Token, ParseError>)
      requires Valid()
      modifies this`cursor, this`peeked
      ensures r.Err? ==> Grammar.Peek(s, old(Pos())) == Grammar.Fail(r.error)
      ensures r.Ok? ==> Grammar.Peek(s, old(Pos())) == Grammar.Done(r.value, old(Pos()))
      ensures r.Ok? ==> Valid() && Pos() == old(Pos()) + (if r.value.kind == Eof then 0 else 1)
      ensures old(peeked).Some? ==> r == Ok(old(peeked).value)
    {
      if peeked.Some? {
        r := Ok(peeked.value);
        peeked := None;
      } else {
        r := NextToken();
      }
    }

    method Expect(kind: TokenKind, err: ErrorKind) returns (r: Result<Token, ParseError>)
      requires Valid() && kind != Eof
      modifies this`cursor, this`peeked
      ensures r.Err? ==> Grammar.Expect(s, old(Pos()), kind, err) == Grammar.Fail(r.error)
      ensures r.Ok? ==> Valid() && Grammar.Expect(s, old(Pos()), kind, err) == Grammar.Done(r.value, Pos())
    {
      hide Grammar.Peek, Valid, Pos;
      var t :- PeekToken();
      if t.kind == kind {
        r := BumpToken();
      } else {
        r := Err(ParseError(t.span, err));
      }
    }

    method ParseName() returns (r: Result<Name, ParseError>)
      requires Valid()
      modifies this`cursor, this`peeked
      ensures r.Err? ==> Grammar.ParseName(s, old(Pos())) == Grammar.Fail(r.error)
      ensures r.Ok? ==> Valid() && Grammar.ParseName(s, old(Pos())) == Grammar.Done(r.value, Pos())
    {
      hide Grammar.Peek, Valid, Pos;
      var t :- PeekToken();
      if t.kind != NameToken {
        return Err(ParseError(t.span, ExpectedName));
      }
      var _ := BumpToken();
      r := Ok(Name(t.text, t.span));
    }

    // ----- lists -----

    function OpenList(): nat
      reads this
    {
      |scratch|
    }

    /** A list under construction: its elements are on the scratch stack, what is inside them is
        in the arena. */
    ghost predicate Building(before: seq<Node>, stack: seq<Node>, list: Items)
      reads this
    {
      nodes == before + list.nodes && scratch == stack + list.items
    }

    /** Push one element, after `inner` was appended to the arena for it. */
    method Push(node: Node, ghost before: seq<Node>, ghost stack: seq<Node>, ghost list: Items, ghost inner: seq<Node>)
      requires nodes == before + list.nodes + inner && scratch == stack + list.items
      modifies this`scratch
      ensures Building(before, stack, Items(list.items + [node], list.nodes + inner))
    {
      scratch := scratch + [node];
    }

    /** Drain the elements of the list into the arena, in one piece. */
    method CloseList(start: nat, ghost before: seq<Node>, ghost stack: seq<Node>, ghost list: Items)
      returns (range: NodeRange)
      requires Building(before, stack, list) && start == |stack|
      modifies this`nodes, this`scratch
      ensures range == Close(list, |before|).value
      ensures nodes == before + Close(list, |before|).nodes && scratch == stack
    {
      range := NodeRange(|nodes|, |scratch| - start);
      nodes := nodes + scratch[start..];
      scratch := scratch[..start];
    }

    // ----- types and values -----

    method ParseTypeAtom() returns (r: Result<Type, ParseError>)
      requires Valid()
      modifies this`cursor, this`peeked
      ensures r.Err? ==> Grammar.ParseTypeAtom(s, old(Pos())) == Grammar.Fail(r.error)
      ensures r.Ok? ==> Valid() && Grammar.ParseTypeAtom(s, old(Pos())) == Grammar.Done(r.value, Pos())
      decreases |s.tokens| - Pos(), 0
    {
      hide Grammar.Peek, Grammar.Expect, Grammar.ParseType, Valid, Pos;
      var t :- PeekToken();
      match t.kind {
        case NameToken =>
          var _ := BumpToken();
          r := Ok(Named(Name(t.text, t.span)));
        case LBracket =>
          var _ := BumpToken();
          var elem :- ParseType();
          var _ :- Expect(RBracket, UnclosedDelimiter);
          r := Ok(ListOf(elem));
        case _ =>
          r := Err(ParseError(t.span, ExpectedType));
      }
    }

    method ParseType() returns (r: Result<Type, ParseError>)
      requires Valid()
      modifies this`cursor, this`peeked
      ensures r.Err? ==> Grammar.ParseType(s, old(Pos())) == Grammar.Fail(r.error)
      ensures r.Ok? ==> Valid() && Grammar.ParseType(s, old(Pos())) == Grammar.Done(r.value, Pos())
      decreases |s.tokens| - Pos(), 1
    {
      hide Grammar.Peek, Grammar.ParseTypeAtom, Valid, Pos;
      var inner :- ParseTypeAtom();
      var next :- PeekToken();
      if next.kind == Bang {
        var _ := BumpToken();
        r := Ok(NonNull(inner));
      } else {
        r := Ok(inner);
      }
    }

    method ParseScalar(isConst: bool, ghost base: nat) returns (r: Result<ArenaValue, ParseError>)
      requires Valid()
      modifies this`cursor, this`peeked
      ensures r.Err? ==> Grammar.ParseScalar(s, old(Pos()), isConst) == Grammar.Fail(r.error)
      ensures r.Ok? ==>
        var g := Grammar.ParseScalar(s, old(Pos()), isConst);
        g.Done? && Valid() && Pos() == g.pos && LayValue(g.value, base) == Laid(r.value, [])
    {
      hide Grammar.ParseName, Grammar.Peek, LayItems, LayFields, Valid, Pos;
      var t :- PeekToken();
      match t.kind {
        case Dollar =>
          if isConst {
            return Err(ParseError(t.span, ExpectedValue));
          }
          var _ := BumpToken();
          var name :- ParseName();
          r := Ok(VariableValue(name));
        case IntValue =>
          var _ := BumpToken();
          r := Ok(IntLiteral(t.text));
        case FloatValue =>
          var _ := BumpToken();
          r := Ok(FloatLiteral(t.text));
        case StringValue =>
          var _ := BumpToken();
          r := Ok(StringLiteral(t.text, false, t.span));
        case BlockStringValue =>
          var _ := BumpToken();
          r := Ok(StringLiteral(t.text, true, t.span));
        case NameToken =>
          var _ := BumpToken();
          r := Ok(WordLiteral(t));
        case _ =>
          r := Err(ParseError(t.span, ExpectedValue));
      }
    }

    method ParseValue(isConst: bool) returns (r: Result<ArenaValue, ParseError>)
      requires Valid()
      modifies this
      ensures r.Err? ==> Grammar.ParseValue(s, old(Pos()), isConst) == Grammar.Fail(r.error)
      ensures r.Ok? ==>
        var g := Grammar.ParseValue(s, old(Pos()), isConst);
        && g.Done?
        && r.value == LayValue(g.value, |old(nodes)|).value
        && Reached(g.pos, old(nodes), LayValue(g.value, |old(nodes)|).nodes, old(scratch))
      decreases |s.tokens| - Pos(), 0
    {
      hide Grammar.ParseValue, Grammar.ParseItems, Grammar.ParseEntries, Grammar.ParseScalar, Grammar.Peek,
        LayValue, LayItems, LayFields, Close, Valid, Pos;
      ghost var at, base := Pos(), |nodes|;
      ValueUnfolds(s, at, isConst);
      var t :- PeekToken();
      if t.kind == LBracket {
        var _ := BumpToken();
        var range :- ParseListItems(isConst);
        LayList(Grammar.ParseItems(s, at + 1, isConst, []).value, base);
        r := Ok(ListRange(range));
      } else if t.kind == LBrace {
        var _ := BumpToken();
        var range :- ParseObjectFields(isConst);
        LayObject(Grammar.ParseEntries(s, at + 1, RBrace, isConst, []).value, base);
        r := Ok(ObjectRange(range));
      } else {
        r := ParseScalar(isConst, base);
      }
    }

    method TakeItem(isConst: bool, ghost before: seq<Node>, ghost stack: seq<Node>,
                    ghost acc: seq<Value>) returns (r: Result<(), ParseError>)
      requires Valid() && Building(before, stack, LayItems(acc, |before|))
      modifies this
      ensures r.Err? ==> Grammar.ParseValue(s, old(Pos()), isConst) == Grammar.Fail(r.error)
      ensures r.Ok? ==>
        var g := Grammar.ParseValue(s, old(Pos()), isConst);
        g.Done? && Valid() && Pos() == g.pos && Building(before, stack, LayItems(acc + [g.value], |before|))
      decreases |s.tokens| - Pos(), 1
    {
      hide Grammar.ParseValue, LayValue, LayItems, Valid, Pos;
      ghost var at, list := Pos(), LayItems(acc, |before|);
      var v :- ParseValue(isConst);
      ghost var g := Grammar.ParseValue(s, at, isConst).value;
      ItemsNext(acc, g, |before|);
      Push(ValueItem(v), before, stack, list, LayValue(g, |before| + |list.nodes|).nodes);
      r := Ok(());
    }

    method ParseListItems(isConst: bool) returns (r: Result<NodeRange, ParseError>)
      requires Valid()
      modifies this
      ensures r.Err? ==> Grammar.ParseItems(s, old(Pos()), isConst, []) == Grammar.Fail(r.error)
      ensures r.Ok? ==>
        var g := Grammar.ParseItems(s, old(Pos()), isConst, []);
        && g.Done?
        && r.value == Close(LayItems(g.value, |old(nodes)|), |old(nodes)|).value
        && Reached(g.pos, old(nodes), Close(LayItems(g.value, |old(nodes)|), |old(nodes)|).nodes, old(scratch))
      decreases |s.tokens| - Pos(), 2
    {
      hide Grammar.ParseValue, Grammar.Peek, LayValue, Close, Valid, Pos;
      var start := OpenList();
      ghost var acc: seq<Value> := [];
      ghost var base := |nodes|;
      assert LayItems(acc, base) == Items([], []);
      assert Building(old(nodes), old(scratch), LayItems(acc, base));
      hide LayItems, Building;
      while true
        invariant Valid() && Pos() >= old(Pos())
        invariant Building(old(nodes), old(scratch), LayItems(acc, base))
        invariant Grammar.ParseItems(s, Pos(), isConst, acc) == Grammar.ParseItems(s, old(Pos()), isConst, [])
        decreases |s.tokens| - Pos()
      {
        var t :- PeekToken();
        if t.kind == RBracket {
          var _ := BumpToken();
          break;
        }
        if t.kind == Eof {
          return Err(ParseError(t.span, UnclosedDelimiter));
        }
        ghost var at := Pos();
        var _ :- TakeItem(isConst, old(nodes), old(scratch), acc);
        acc := acc + [Grammar.ParseValue(s, at, isConst).value];
      }
      var range := CloseList(start, old(nodes), old(scratch), LayItems(acc, base));
      r := Ok(range);
    }

    /** `name : value`, an element of an argument list or of an object literal. */
    method ParseEntry(isConst: bool) returns (r: Result<(Name, ArenaValue), ParseError>)
      requires Valid()
      modifies this
      ensures r.Err? ==> Grammar.ParseEntry(s, old(Pos()), isConst) == Grammar.Fail(r.error)
      ensures r.Ok? ==>
        var g := Grammar.ParseEntry(s, old(Pos()), isConst);
        && g.Done?
        && r.value == (g.value.name, LayValue(g.value.value, |old(nodes)|).value)
        && Reached(g.pos, old(nodes), LayValue(g.value.value, |old(nodes)|).nodes, old(scratch))
      decreases |s.tokens| - Pos(), 1
    {
      hide Grammar.ParseValue, Grammar.ParseName, Grammar.Expect, LayValue, Valid, Pos;
      var name :- ParseName();
      var _ :- Expect(Colon, ExpectedColon);
      var v :- ParseValue(isConst);
      r := Ok((name, v));
    }

    method TakeField(isConst: bool, ghost before: seq<Node>, ghost stack: seq<Node>,
                     ghost acc: seq<Entry>) returns (r: Result<(), ParseError>)
      requires Valid() && Building(before, stack, LayFields(acc, |before|))
      modifies this
      ensures r.Err? ==> Grammar.ParseEntry(s, old(Pos()), isConst) == Grammar.Fail(r.error)
      ensures r.Ok? ==>
        var g := Grammar.ParseEntry(s, old(Pos()), isConst);
        g.Done? && Valid() && Pos() == g.pos && Building(before, stack, LayFields(acc + [g.value], |before|))
      decreases |s.tokens| - Pos(), 2
    {
      hide Grammar.ParseEntry, LayValue, LayFields, Valid, Pos;
      ghost var at, list := Pos(), LayFields(acc, |before|);
      var entry :- ParseEntry(isConst);
      ghost var g := Grammar.ParseEntry(s, at, isConst).value;
      FieldsNext(acc, g, |before|);
      Push(ObjectFieldItem(entry.0, entry.1), before, stack, list, LayValue(g.value, |before| + |list.nodes|).nodes);
      r := Ok(());
    }

    method ParseObjectFields(isConst: bool) returns (r: Result<NodeRange, ParseError>)
      requires Valid()
      modifies this
      ensures r.Err? ==> Grammar.ParseEntries(s, old(Pos()), RBrace, isConst, []) == Grammar.Fail(r.error)
      ensures r.Ok? ==>
        var g := Grammar.ParseEntries(s, old(Pos()), RBrace, isConst, []);
        && g.Done?
        && r.value == Close(LayFields(g.value, |old(nodes)|), |old(nodes)|).value
        && Reached(g.pos, old(nodes), Close(LayFields(g.value, |old(nodes)|), |old(nodes)|).nodes, old(scratch))
      decreases |s.tokens| - Pos(), 3
    {
      hide Grammar.ParseEntry, Grammar.Peek, LayValue, Close, Valid, Pos;
      var start := OpenList();
      ghost var acc: seq<Entry> := [];
      ghost var base := |nodes|;
      assert LayFields(acc, base) == Items([], []);
      assert Building(old(nodes), old(scratch), LayFields(acc, base));
      hide LayFields, Building;
      while true
        invariant Valid() && Pos() >= old(Pos())
        invariant Building(old(nodes), old(scratch), LayFields(acc, base))
        invariant Grammar.ParseEntries(s, Pos(), RBrace, isConst, acc) ==
          Grammar.ParseEntries(s, old(Pos()), RBrace, isConst, [])
        decreases |s.tokens| - Pos()
      {
        var t :- PeekToken();
        if t.kind == RBrace {
          var _ := BumpToken();
          break;
        }
        if t.kind == Eof {
          return Err(ParseError(t.span, UnclosedDelimiter));
        }
        ghost var at := Pos();
        var _ :- TakeField(isConst, old(nodes), old(scratch), acc);
        acc := acc + [Grammar.ParseEntry(s, at, isConst).value];
      }
      var range := CloseList(start, old(nodes), old(scratch), LayFields(acc, base));
      r := Ok(range);
    }

    // ----- arguments and directives -----

    method ParseArguments() returns (r: Result<NodeRange, ParseError>)
      requires Valid()
      modifies this
      ensures r.Err? ==> Grammar.ParseArguments(s, old(Pos())) == Grammar.Fail(r.error)
      ensures r.Ok? ==>
        var g := Grammar.ParseArguments(s, old(Pos()));
        && g.Done?
        && r.value == Close(LayArgs(g.value, |old(nodes)|), |old(nodes)|).value
        && Reached(g.pos, old(nodes), Close(LayArgs(g.value, |old(nodes)|), |old(nodes)|).nodes, old(scratch))
    {
      hide Grammar.ParseEntries, Grammar.Expect, LayArgs, Close, Valid, Pos;
      var _ :- Expect(LParen, UnexpectedToken);
      r := ParseArgumentItems();
    }

    method TakeArgument(ghost before: seq<Node>, ghost stack: seq<Node>,
                        ghost acc: seq<Entry>) returns (r: Result<(), ParseError>)
      requires Valid() && Building(before, stack, LayArgs(acc, |before|))
      modifies this
      ensures r.Err? ==> Grammar.ParseEntry(s, old(Pos()), false) == Grammar.Fail(r.error)
      ensures r.Ok? ==>
        var g := Grammar.ParseEntry(s, old(Pos()), false);
        g.Done? && Valid() && Pos() == g.pos && Building(before, stack, LayArgs(acc + [g.value], |before|))
    {
      hide Grammar.ParseEntry, LayValue, LayArgs, Valid, Pos;
      ghost var at, list := Pos(), LayArgs(acc, |before|);
      var entry :- ParseEntry(false);
      ghost var g := Grammar.ParseEntry(s, at, false).value;
      ArgsNext(acc, g, |before|);
      Push(ArgumentItem(entry.0, entry.1), before, stack, list, LayValue(g.value, |before| + |list.nodes|).nodes);
      r := Ok(());
    }

    method ParseArgumentItems() returns (r: Result<NodeRange, ParseError>)
      requires Valid()
      modifies this
      ensures r.Err? ==> Grammar.ParseEntries(s, old(Pos()), RParen, false, []) == Grammar.Fail(r.error)
      ensures r.Ok? ==>
        var g := Grammar.ParseEntries(s, old(Pos()), RParen, false, []);
        && g.Done?
        && r.value == Close(LayArgs(g.value, |old(nodes)|), |old(nodes)|).value
        && Reached(g.pos, old(nodes), Close(LayArgs(g.value, |old(nodes)|), |old(nodes)|).nodes, old(scratch))
    {
      hide Grammar.ParseEntry, Grammar.Peek, LayValue, Close, Valid, Pos;
      var start := OpenList();
      ghost var acc: seq<Entry> := [];
      ghost var base := |nodes|;
      assert LayArgs(acc, base) == Items([], []);
      assert Building(old(nodes), old(scratch), LayArgs(acc, base));
      hide LayArgs, Building;
      while true
        invariant Valid() && Pos() >= old(Pos())
        invariant Building(old(nodes), old(scratch), LayArgs(acc, base))
        invariant Grammar.ParseEntries(s, Pos(), RParen, false, acc) ==
          Grammar.ParseEntries(s, old(Pos()), RParen, false, [])
        decreases |s.tokens| - Pos()
      {
        var t :- PeekToken();
        if t.kind == RParen {
          var _ := BumpToken();
          break;
        }
        if t.kind == Eof {
          return Err(ParseError(t.span, UnclosedDelimiter));
        }
        ghost var at := Pos();
        var _ :- TakeArgument(old(nodes), old(scratch), acc);
        acc := acc + [Grammar.ParseEntry(s, at, false).value];
      }
      var range := CloseList(start, old(nodes), old(scratch), LayArgs(acc, base));
      r := Ok(range);
    }

    method ParseOptArguments() returns (r: Result<NodeRange, ParseError>)
      requires Valid()
      modifies this
      ensures r.Err? ==> Grammar.ParseOptArguments(s, old(Pos())) == Grammar.Fail(r.error)
      ensures r.Ok? ==>
        var g := Grammar.ParseOptArguments(s, old(Pos()));
        && g.Done?
        && r.value == LayArguments(g.value, |old(nodes)|).value
        && Reached(g.pos, old(nodes), LayArguments(g.value, |old(nodes)|).nodes, old(scratch))
    {
      hide Grammar.ParseArguments, Grammar.Peek, LayArgs, Close, Valid, Pos;
      var t :- PeekToken();
      if t.kind == LParen {
        r := ParseArguments();
      } else {
        r := Ok(EMPTY);
      }
    }

    /** After `@`. */
    method TakeDirective(ghost before: seq<Node>, ghost stack: seq<Node>,
                         ghost acc: seq<Directive>) returns (r: Result<(), ParseError>)
      requires Valid() && Building(before, stack, LayDirectives(acc, |before|))
      modifies this
      ensures r.Err? ==> Grammar.ParseDirective(s, old(Pos())) == Grammar.Fail(r.error)
      ensures r.Ok? ==>
        var g := Grammar.ParseDirective(s, old(Pos()));
        g.Done? && Valid() && Pos() == g.pos && Building(before, stack, LayDirectives(acc + [g.value], |before|))
    {
      hide Grammar.ParseName, Grammar.ParseOptArguments, LayArguments, LayDirectives, Valid, Pos;
      ghost var list := LayDirectives(acc, |before|);
      var name :- ParseName();
      ghost var at := Pos();
      var args :- ParseOptArguments();
      ghost var g := Directive(name, Grammar.ParseOptArguments(s, at).value);
      DirectivesNext(acc, g, |before|);
      Push(DirectiveItem(name, args), before, stack, list, LayArguments(g.arguments, |before| + |list.nodes|).nodes);
      r := Ok(());
    }

    method ParseDirectives() returns (r: Result<NodeRange, ParseError>)
      requires Valid()
      modifies this
      ensures r.Err? ==> Grammar.ParseDirectives(s, old(Pos()), []) == Grammar.Fail(r.error)
      ensures r.Ok? ==>
        var g := Grammar.ParseDirectives(s, old(Pos()), []);
        && g.Done?
        && r.value == Close(LayDirectives(g.value, |old(nodes)|), |old(nodes)|).value
        && Reached(g.pos, old(nodes), Close(LayDirectives(g.value, |old(nodes)|), |old(nodes)|).nodes, old(scratch))
    {
      hide Grammar.ParseDirectives, Grammar.ParseDirective, Grammar.Peek, LayArguments, Close, Valid, Pos;
      var start := OpenList();
      ghost var acc: seq<Directive> := [];
      ghost var base := |nodes|;
      assert LayDirectives(acc, base) == Items([], []);
      assert Building(old(nodes), old(scratch), LayDirectives(acc, base));
      hide LayDirectives, Building;
      while true
        invariant Valid() && Pos() >= old(Pos())
        invariant Building(old(nodes), old(scratch), LayDirectives(acc, base))
        invariant Grammar.ParseDirectives(s, Pos(), acc) == Grammar.ParseDirectives(s, old(Pos()), [])
        decreases |s.tokens| - Pos()
      {
        DirectivesUnfold(s, Pos(), acc);
        var t :- PeekToken();
        if t.kind != At {
          break;
        }
        var _ := BumpToken();
        ghost var at := Pos();
        var _ :- TakeDirective(old(nodes), old(scratch), acc);
        acc := acc + [Grammar.ParseDirective(s, at).value];
      }
      var range := CloseList(start, old(nodes), old(scratch), LayDirectives(acc, base));
      r := Ok(range);
    }

    // ----- selections -----

    method ParseSelectionSet() returns (r: Result<ArenaSet, ParseError>)
      requires Valid()
      modifies this
      ensures r.Err? ==> Grammar.ParseSelectionSet(s, old(Pos())) == Grammar.Fail(r.error)
      ensures r.Ok? ==>
        var g := Grammar.ParseSelectionSet(s, old(Pos()));
        && g.Done?
        && r.value == LaySet(g.value, |old(nodes)|).value
        && Reached(g.pos, old(nodes), LaySet(g.value, |old(nodes)|).nodes, old(scratch))
      decreases |s.tokens| - Pos(), 0
    {
      hide Grammar.ParseSelections, Grammar.Expect, LaySet, Valid, Pos;
      var open :- Expect(LBrace, UnexpectedToken);
      r := ParseSelections(open);
    }

    method TakeSelection(ghost before: seq<Node>, ghost stack: seq<Node>,
                         ghost acc: seq<Selection>) returns (r: Result<(), ParseError>)
      requires Valid() && Building(before, stack, LaySelections(acc, |before|))
      modifies this
      ensures r.Err? ==> Grammar.ParseSelection(s, old(Pos())) == Grammar.Fail(r.error)
      ensures r.Ok? ==>
        var g := Grammar.ParseSelection(s, old(Pos()));
        g.Done? && Valid() && Pos() == g.pos && Building(before, stack, LaySelections(acc + [g.value], |before|))
      decreases |s.tokens| - Pos(), 3
    {
      hide Grammar.ParseSelection, LaySelection, LaySelections, Valid, Pos;
      ghost var at, list := Pos(), LaySelections(acc, |before|);
      var sel :- ParseSelection();
      ghost var g := Grammar.ParseSelection(s, at).value;
      SelectionsNext(acc, g, |before|);
      Push(SelectionItem(sel), before, stack, list, LaySelection(g, |before| + |list.nodes|).nodes);
      r := Ok(());
    }

    method ParseSelections(open: Token) returns (r: Result<ArenaSet, ParseError>)
      requires Valid()
      modifies this
      ensures r.Err? ==> Grammar.ParseSelections(s, old(Pos()), open, []) == Grammar.Fail(r.error)
      ensures r.Ok? ==>
        var g := Grammar.ParseSelections(s, old(Pos()), open, []);
        && g.Done?
        && r.value == LaySet(g.value, |old(nodes)|).value
        && Reached(g.pos, old(nodes), LaySet(g.value, |old(nodes)|).nodes, old(scratch))
      decreases |s.tokens| - Pos(), 4
    {
      hide Grammar.ParseSelection, Grammar.Peek, LaySelection, Close, Valid, Pos;
      var start := OpenList();
      ghost var acc: seq<Selection> := [];
      ghost var base := |nodes|;
      assert LaySelections(acc, base) == Items([], []);
      assert Building(old(nodes), old(scratch), LaySelections(acc, base));
      hide LaySelections, Building;
      while true
        invariant Valid() && Pos() >= old(Pos())
        invariant Building(old(nodes), old(scratch), LaySelections(acc, base))
        invariant Grammar.ParseSelections(s, Pos(), open, acc) == Grammar.ParseSelections(s, old(Pos()), open, [])
        decreases |s.tokens| - Pos()
      {
        var t :- PeekToken();
        if t.kind == RBrace {
          var _ := BumpToken();
          var span := Span(open.span.start, t.span.end);
          if |scratch| == start {
            return Err(ParseError(span, EmptySelectionSet));
          }
          var range := CloseList(start, old(nodes), old(scratch), LaySelections(acc, base));
          return Ok(ArenaSet(range, span));
        }
        if t.kind == Eof {
          return Err(ParseError(t.span, UnclosedDelimiter));
        }
        ghost var at := Pos();
        var _ :- TakeSelection(old(nodes), old(scratch), acc);
        acc := acc + [Grammar.ParseSelection(s, at).value];
      }
    }

    method ParseSelection() returns (r: Result<ArenaSelection, ParseError>)
      requires Valid()
      modifies this
      ensures r.Err? ==> Grammar.ParseSelection(s, old(Pos())) == Grammar.Fail(r.error)
      ensures r.Ok? ==>
        var g := Grammar.ParseSelection(s, old(Pos()));
        && g.Done?
        && r.value == LaySelection(g.value, |old(nodes)|).value
        && Reached(g.pos, old(nodes), LaySelection(g.value, |old(nodes)|).nodes, old(scratch))
      decreases |s.tokens| - Pos(), 2
    {
      hide Grammar.ParseSpread, Grammar.ParseField, Grammar.Peek, LaySelection, Valid, Pos;
      var t :- PeekToken();
      if t.kind == Spread {
        var _ := BumpToken();
        r := ParseSpread();
      } else if t.kind != NameToken {
        r := Err(ParseError(t.span, ExpectedName));
      } else {
        r := ParseField();
      }
    }

    method ParseSpread() returns (r: Result<ArenaSelection, ParseError>)
      requires Valid()
      modifies this
      ensures r.Err? ==> Grammar.ParseSpread(s, old(Pos())) == Grammar.Fail(r.error)
      ensures r.Ok? ==>
        var g := Grammar.ParseSpread(s, old(Pos()));
        && g.Done?
        && r.value == LaySelection(g.value, |old(nodes)|).value
        && Reached(g.pos, old(nodes), LaySelection(g.value, |old(nodes)|).nodes, old(scratch))
      decreases |s.tokens| - Pos(), 2
    {
      hide Grammar.ParseName, Grammar.ParseDirectives, Grammar.ParseBody, Grammar.Peek, LayDirectives, LayBody, Close,
        Valid, Pos;
      var next :- PeekToken();
      if next.kind == NameToken && next.text == "on" {
        var _ := BumpToken();
        var cond :- ParseName();
        var body :- ParseBody();
        r := Ok(InlineNode(Some(cond), body.0, body.1));
      } else if next.kind == NameToken {
        var _ := BumpToken();
        var ds :- ParseDirectives();
        r := Ok(SpreadNode(Name(next.text, next.span), ds));
      } else {
        var body :- ParseBody();
        r := Ok(InlineNode(None, body.0, body.1));
      }
    }

    method ParseBody() returns (r: Result<(NodeRange, ArenaSet), ParseError>)
      requires Valid()
      modifies this
      ensures r.Err? ==> Grammar.ParseBody(s, old(Pos())) == Grammar.Fail(r.error)
      ensures r.Ok? ==>
        var g := Grammar.ParseBody(s, old(Pos()));
        && g.Done?
        && r.value == LayBody(g.value.0, g.value.1, |old(nodes)|).value
        && Reached(g.pos, old(nodes), LayBody(g.value.0, g.value.1, |old(nodes)|).nodes, old(scratch))
      decreases |s.tokens| - Pos(), 1
    {
      hide Grammar.ParseDirectives, Grammar.ParseSelectionSet, LayDirectives, LaySet, Close, Valid, Pos;
      var ds :- ParseDirectives();
      var inner :- ParseSelectionSet();
      r := Ok((ds, inner));
    }

    method ParseTail() returns (r: Result<(NodeRange, Option<ArenaSet>), ParseError>)
      requires Valid()
      modifies this
      ensures r.Err? ==> Grammar.ParseTail(s, old(Pos())) == Grammar.Fail(r.error)
      ensures r.Ok? ==>
        var g := Grammar.ParseTail(s, old(Pos()));
        && g.Done?
        && r.value == LayTail(g.value.0, g.value.1, |old(nodes)|).value
        && Reached(g.pos, old(nodes), LayTail(g.value.0, g.value.1, |old(nodes)|).nodes, old(scratch))
      decreases |s.tokens| - Pos(), 1
    {
      hide Grammar.ParseDirectives, Grammar.ParseSelectionSet, Grammar.Peek, LayDirectives, LaySet, LayTail, Close,
        Valid, Pos;
      ghost var base, at := |nodes|, Pos();
      var ds :- ParseDirectives();
      ghost var gds := Grammar.ParseDirectives(s, at, []);
      var t :- PeekToken();
      TailLaid(gds.value, base);
      if t.kind == LBrace {
        var inner :- ParseSelectionSet();
        TailLaidWith(gds.value, Grammar.ParseSelectionSet(s, gds.pos).value, base);
        r := Ok((ds, Some(inner)));
      } else {
        r := Ok((ds, None));
      }
    }

    method ParseAlias() returns (r: Result<(Option<Name>, Name), ParseError>)
      requires Valid()
      modifies this`cursor, this`peeked
      ensures r.Err? ==> Grammar.ParseAlias(s, old(Pos())) == Grammar.Fail(r.error)
      ensures r.Ok? ==> Valid() && Grammar.ParseAlias(s, old(Pos())) == Grammar.Done(r.value, Pos())
    {
      hide Grammar.ParseName, Grammar.Peek, Valid, Pos;
      var first :- ParseName();
      var t :- PeekToken();
      if t.kind == Colon {
        var _ := BumpToken();
        var real_ :- ParseName();
        r := Ok((Some(first), real_));
      } else {
        r := Ok((None, first));
      }
    }

    method ParseField() returns (r: Result<ArenaSelection, ParseError>)
      requires Valid()
      modifies this
      ensures r.Err? ==> Grammar.ParseField(s, old(Pos())) == Grammar.Fail(r.error)
      ensures r.Ok? ==>
        var g := Grammar.ParseField(s, old(Pos()));
        && g.Done?
        && r.value == LaySelection(g.value, |old(nodes)|).value
        && Reached(g.pos, old(nodes), LaySelection(g.value, |old(nodes)|).nodes, old(scratch))
      decreases |s.tokens| - Pos(), 1
    {
      hide Grammar.ParseAlias, Grammar.ParseOptArguments, Grammar.ParseTail, LayArguments, LayTail, Valid, Pos;
      var names :- ParseAlias();
      var args :- ParseOptArguments();
      var tail :- ParseTail();
      r := Ok(FieldNode(names.0, names.1, args, tail.0, tail.1));
    }

    // ----- definitions -----

    method ParseDefault() returns (r: Result<Option<ArenaValue>, ParseError>)
      requires Valid()
      modifies this
      ensures r.Err? ==> Grammar.ParseDefault(s, old(Pos())) == Grammar.Fail(r.error)
      ensures r.Ok? ==>
        var g := Grammar.ParseDefault(s, old(Pos()));
        && g.Done?
        && r.value == LayDefault(g.value, |old(nodes)|).value
        && Reached(g.pos, old(nodes), LayDefault(g.value, |old(nodes)|).nodes, old(scratch))
    {
      hide Grammar.ParseValue, Grammar.Peek, LayValue, Valid, Pos;
      var t :- PeekToken();
      if t.kind == Eq {
        var _ := BumpToken();
        var v :- ParseValue(true);
        r := Ok(Some(v));
      } else {
        r := Ok(None);
      }
    }

    /** `$name : Type`. */
    method ParseVariableHead() returns (r: Result<(Name, Type), ParseError>)
      requires Valid()
      modifies this`cursor, this`peeked
      ensures r.Err? ==> Grammar.ParseVariableHead(s, old(Pos())) == Grammar.Fail(r.error)
      ensures r.Ok? ==> Valid() && Grammar.ParseVariableHead(s, old(Pos())) == Grammar.Done(r.value, Pos())
    {
      hide Grammar.ParseName, Grammar.ParseType, Grammar.Expect, Valid, Pos;
      var _ :- Expect(Dollar, ExpectedDollar);
      var name :- ParseName();
      var _ :- Expect(Colon, ExpectedColon);
      var ty :- ParseType();
      r := Ok((name, ty));
    }

    method ParseVariable() returns (r: Result<Node, ParseError>)
      requires Valid()
      modifies this
      ensures r.Err? ==> Grammar.ParseVariable(s, old(Pos())) == Grammar.Fail(r.error)
      ensures r.Ok? ==>
        var g := Grammar.ParseVariable(s, old(Pos()));
        && g.Done?
        && r.value == LayVariable(g.value, |old(nodes)|).value
        && Reached(g.pos, old(nodes), LayVariable(g.value, |old(nodes)|).nodes, old(scratch))
    {
      hide Grammar.ParseVariableHead, Grammar.ParseDefault, Grammar.ParseDirectives, LayDefault, LayDirectives, Close,
        Valid, Pos;
      var start :- ParseVariableHead();
      var default_ :- ParseDefault();
      var ds :- ParseDirectives();
      r := Ok(VariableItem(start.0, start.1, default_, ds));
    }

    method TakeVariable(ghost before: seq<Node>, ghost stack: seq<Node>,
                        ghost acc: seq<VariableDefinition>) returns (r: Result<(), ParseError>)
      requires Valid() && Building(before, stack, LayVariables(acc, |before|))
      modifies this
      ensures r.Err? ==> Grammar.ParseVariable(s, old(Pos())) == Grammar.Fail(r.error)
      ensures r.Ok? ==>
        var g := Grammar.ParseVariable(s, old(Pos()));
        g.Done? && Valid() && Pos() == g.pos && Building(before, stack, LayVariables(acc + [g.value], |before|))
    {
      hide Grammar.ParseVariable, LayVariable, LayVariables, Valid, Pos;
      ghost var at, list := Pos(), LayVariables(acc, |before|);
      var v :- ParseVariable();
      ghost var g := Grammar.ParseVariable(s, at).value;
      VariablesNext(acc, g, |before|);
      Push(v, before, stack, list, LayVariable(g, |before| + |list.nodes|).nodes);
      r := Ok(());
    }

    method ParseVariables() returns (r: Result<NodeRange, ParseError>)
      requires Valid()
      modifies this
      ensures r.Err? ==> Grammar.ParseVariables(s, old(Pos()), []) == Grammar.Fail(r.error)
      ensures r.Ok? ==>
        var g := Grammar.ParseVariables(s, old(Pos()), []);
        && g.Done?
        && r.value == Close(LayVariables(g.value, |old(nodes)|), |old(nodes)|).value
        && Reached(g.pos, old(nodes), Close(LayVariables(g.value, |old(nodes)|), |old(nodes)|).nodes, old(scratch))
    {
      hide Grammar.ParseVariable, Grammar.Peek, LayVariable, Close, Valid, Pos;
      var start := OpenList();
      ghost var acc: seq<VariableDefinition> := [];
      ghost var base := |nodes|;
      assert LayVariables(acc, base) == Items([], []);
      assert Building(old(nodes), old(scratch), LayVariables(acc, base));
      hide LayVariables, Building;
      while true
        invariant Valid() && Pos() >= old(Pos())
        invariant Building(old(nodes), old(scratch), LayVariables(acc, base))
        invariant Grammar.ParseVariables(s, Pos(), acc) == Grammar.ParseVariables(s, old(Pos()), [])
        decreases |s.tokens| - Pos()
      {
        var t :- PeekToken();
        if t.kind == RParen {
          var _ := BumpToken();
          break;
        }
        if t.kind == Eof {
          return Err(ParseError(t.span, UnclosedDelimiter));
        }
        ghost var at := Pos();
        var _ :- TakeVariable(old(nodes), old(scratch), acc);
        acc := acc + [Grammar.ParseVariable(s, at).value];
      }
      var range := CloseList(start, old(nodes), old(scratch), LayVariables(acc, base));
      r := Ok(range);
    }

    method ParseOptVariables() returns (r: Result<NodeRange, ParseError>)
      requires Valid()
      modifies this
      ensures r.Err? ==> Grammar.ParseOptVariables(s, old(Pos())) == Grammar.Fail(r.error)
      ensures r.Ok? ==>
        var g := Grammar.ParseOptVariables(s, old(Pos()));
        && g.Done?
        && r.value == LayOptVariables(g.value, |old(nodes)|).value
        && Reached(g.pos, old(nodes), LayOptVariables(g.value, |old(nodes)|).nodes, old(scratch))
    {
      hide Grammar.ParseVariables, Grammar.Peek, LayVariables, Close, Valid, Pos;
      var t :- PeekToken();
      if t.kind == LParen {
        var _ := BumpToken();
        r := ParseVariables();
      } else {
        r := Ok(EMPTY);
      }
    }

    method ParseOpName() returns (r: Result<Option<Name>, ParseError>)
      requires Valid()
      modifies this`cursor, this`peeked
      ensures r.Err? ==> Grammar.ParseOpName(s, old(Pos())) == Grammar.Fail(r.error)
      ensures r.Ok? ==> Valid() && Grammar.ParseOpName(s, old(Pos())) == Grammar.Done(r.value, Pos())
    {
      hide Grammar.Peek, Valid, Pos;
      var t :- PeekToken();
      if t.kind == NameToken {
        var _ := BumpToken();
        r := Ok(Some(Name(t.text, t.span)));
      } else {
        r := Ok(None);
      }
    }

    method ParseShorthand() returns (r: Result<ArenaDefinition, ParseError>)
      requires Valid()
      modifies this
      ensures r.Err? ==> Grammar.ParseShorthand(s, old(Pos())) == Grammar.Fail(r.error)
      ensures r.Ok? ==>
        var g := Grammar.ParseShorthand(s, old(Pos()));
        && g.Done?
        && r.value == LayDefinition(g.value, |old(nodes)|).value
        && Reached(g.pos, old(nodes), LayDefinition(g.value, |old(nodes)|).nodes, old(scratch))
    {
      hide Grammar.ParseSelectionSet, Grammar.Peek, LaySelections, Valid, Pos;
      var t :- PeekToken();
      var inner :- ParseSelectionSet();
      r := Ok(OperationNode(Query, None, EMPTY, EMPTY, inner, Span(t.span.start, inner.span.end), true));
    }

    /** The keyword is the lookahead. */
    method ParseOperation() returns (r: Result<ArenaDefinition, ParseError>)
      requires Valid() && peeked.Some? && peeked.value.kind != Eof
      modifies this
      ensures r.Err? ==> Grammar.ParseOperation(s, old(Pos()) + 1, old(peeked).value) == Grammar.Fail(r.error)
      ensures r.Ok? ==>
        var g := Grammar.ParseOperation(s, old(Pos()) + 1, old(peeked).value);
        && g.Done?
        && r.value == LayDefinition(g.value, |old(nodes)|).value
        && Reached(g.pos, old(nodes), LayDefinition(g.value, |old(nodes)|).nodes, old(scratch))
    {
      hide Grammar.ParseOpName, Grammar.ParseOptVariables, Grammar.ParseBody, LayOptVariables, LayBody, Valid, Pos;
      var kw := peeked.value;
      var _ := BumpToken();
      var kind := OperationOf(kw.text);
      if kind == None {
        return Err(ParseError(kw.span, ExpectedOperationKind));
      }
      var name :- ParseOpName();
      var vars :- ParseOptVariables();
      var body :- ParseBody();
      r := Ok(OperationNode(kind.value, name, vars, body.0, body.1, Span(kw.span.start, body.1.span.end), false));
    }

    /** The keyword is the lookahead. */
    method ParseFragment() returns (r: Result<ArenaDefinition, ParseError>)
      requires Valid() && peeked.Some? && peeked.value.kind != Eof
      modifies this
      ensures r.Err? ==> Grammar.ParseFragment(s, old(Pos()) + 1, old(peeked).value) == Grammar.Fail(r.error)
      ensures r.Ok? ==>
        var g := Grammar.ParseFragment(s, old(Pos()) + 1, old(peeked).value);
        && g.Done?
        && r.value == LayDefinition(g.value, |old(nodes)|).value
        && Reached(g.pos, old(nodes), LayDefinition(g.value, |old(nodes)|).nodes, old(scratch))
    {
      hide Grammar.ParseName, Grammar.ParseBody, Grammar.Peek, LayBody, Valid, Pos;
      var kw := peeked.value;
      var _ := BumpToken();
      var name :- ParseName();
      var on :- PeekToken();
      if !(on.kind == NameToken && on.text == "on") {
        return Err(ParseError(on.span, ExpectedOnKeyword));
      }
      var _ := BumpToken();
      var cond :- ParseName();
      var body :- ParseBody();
      r := Ok(FragmentNode(name, cond, body.0, body.1, Span(kw.span.start, body.1.span.end)));
    }

    method ParseDefinition() returns (r: Result<ArenaDefinition, ParseError>)
      requires Valid()
      modifies this
      ensures r.Err? ==> Grammar.ParseDefinition(s, old(Pos())) == Grammar.Fail(r.error)
      ensures r.Ok? ==>
        var g := Grammar.ParseDefinition(s, old(Pos()));
        && g.Done?
        && r.value == LayDefinition(g.value, |old(nodes)|).value
        && Reached(g.pos, old(nodes), LayDefinition(g.value, |old(nodes)|).nodes, old(scratch))
    {
      hide Grammar.ParseShorthand, Grammar.ParseOperation, Grammar.ParseFragment, LayDefinition, Valid, Pos,
        OperationOf;
      var t :- PeekToken();
      if t.kind == LBrace {
        r := ParseShorthand();
      } else if t.kind == NameToken && OperationOf(t.text).Some? {
        r := ParseOperation();
      } else if t.kind == NameToken && t.text == "fragment" {
        r := ParseFragment();
      } else {
        r := Err(ParseError(t.span, UnknownDefinition));
      }
    }

    method TakeDefinition(ghost before: seq<Node>, ghost stack: seq<Node>,
                          ghost acc: seq<Definition>) returns (r: Result<(), ParseError>)
      requires Valid() && Building(before, stack, LayDefinitions(acc, |before|))
      modifies this
      ensures r.Err? ==> Grammar.ParseDefinition(s, old(Pos())) == Grammar.Fail(r.error)
      ensures r.Ok? ==>
        var g := Grammar.ParseDefinition(s, old(Pos()));
        g.Done? && Valid() && Pos() == g.pos && Building(before, stack, LayDefinitions(acc + [g.value], |before|))
    {
      hide Grammar.ParseDefinition, LayDefinition, LayDefinitions, Valid, Pos;
      ghost var at, list := Pos(), LayDefinitions(acc, |before|);
      var d :- ParseDefinition();
      ghost var g := Grammar.ParseDefinition(s, at).value;
      DefinitionsNext(acc, g, |before|);
      Push(DefinitionItem(d), before, stack, list, LayDefinition(g, |before| + |list.nodes|).nodes);
      r := Ok(());
    }

    /** A fresh parser accepts what the grammar accepts, fails with the same error, and hands
        over the layout of the grammar's tree, with nothing left on the scratch stack. */
    method ParseDocument() returns (r: Result<Document, ParseError>)
      requires Valid() && Pos() == 0 && nodes == [] && scratch == []
      modifies this
      ensures r.Err? ==> Grammar.ParseDocument(s) == Grammar.Fail(r.error)
      ensures r.Ok? ==>
        var g := Grammar.ParseDocument(s);
        g.Done? && r.value == LayDocument(g.value) && scratch == []
    {
      hide Grammar.ParseDefinition, Grammar.Peek, LayDefinition, Close, Valid, Pos;
      var start := OpenList();
      ghost var acc: seq<Definition> := [];
      assert LayDefinitions(acc, 0) == Items([], []);
      hide LayDefinitions;
      while true
        invariant Valid()
        invariant Building([], [], LayDefinitions(acc, 0))
        invariant Grammar.ParseDefinitions(s, Pos(), acc) == Grammar.ParseDefinitions(s, 0, [])
        decreases |s.tokens| - Pos()
      {
        var t :- PeekToken();
        if t.kind == Eof {
          break;
        }
        ghost var at := Pos();
        var _ :- TakeDefinition([], [], acc);
        acc := acc + [Grammar.ParseDefinition(s, at).value];
      }
      if |scratch| == start {
        return Err(ParseError(Span(0, s.length), UnexpectedEof));
      }
      var range := CloseList(start, [], [], LayDefinitions(acc, 0));
      r := Ok(Document(range, nodes));
      nodes := [];
    }
  }

  function WordLiteral(t: Token): (v: ArenaValue)
    ensures v == LayValue(Grammar.WordValue(t), 0).value
  {
    if t.text == "true" then BooleanLiteral(true)
    else if t.text == "false" then BooleanLiteral(false)
    else if t.text == "null" then NullLiteral
    else EnumLiteral(Name(t.text, t.span))
  }
}
