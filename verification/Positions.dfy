/** Where the parts of a tree stand: for every accepted document, each name and string carries the span of
    its own token, and each selection set and definition runs from its first token to its last
    (magna-gqlmin `parse/mod.rs`). */
module Positions {
  import opened Basics
  import opened Syntax
  import opened TreeParser
  import opened Printer
  import Soundness

  /** What a tree says about the position of a token: nothing, its span, or where it begins or ends. */
  datatype Place = Anywhere | At(span: Span) | From(offset: nat) | Until(offset: nat)

  datatype Placed = Placed(lexeme: Lexeme, place: Place)

  function Free(lexeme: Lexeme): Placed {
    Placed(lexeme, Anywhere)
  }

  function Sign(kind: TokenKind): Placed {
    Placed(Mark(kind), Anywhere)
  }

  function Pin(name: Name): Placed {
    Placed(Word(name.value), Place.At(name.span))
  }

  // ----- the tokens of a tree, with what it says about their positions -----

  function PlaceValue(v: Value): seq<Placed>
    decreases v, 0
  {
    match v
    case Variable(name) => [Sign(Dollar), Pin(name)]
    case Int(text) => [Free(Lexeme(IntValue, text))]
    case Float(text) => [Free(Lexeme(FloatValue, text))]
    case String(raw, block, span) =>
      [Placed(Lexeme(if block then BlockStringValue else StringValue, raw), Place.At(span))]
    case Boolean(b) => [Free(Word(if b then "true" else "false"))]
    case Null => [Free(Word("null"))]
    case Enum(name) => [Pin(name)]
    case List(items) => [Sign(LBracket)] + (PlaceItems(items) + [Sign(RBracket)])
    case Object(fields) => [Sign(LBrace)] + (PlaceEntries(fields) + [Sign(RBrace)])
  }

  function PlaceItems(vs: seq<Value>): seq<Placed>
    decreases vs, 1
  {
    if vs == [] then [] else PlaceValue(vs[0]) + PlaceItems(vs[1..])
  }

  function PlaceEntry(e: Entry): seq<Placed>
    decreases e, 1
  {
    [Pin(e.name), Sign(Colon)] + PlaceValue(e.value)
  }

  function PlaceEntries(es: seq<Entry>): seq<Placed>
    decreases es, 1
  {
    if es == [] then [] else PlaceEntry(es[0]) + PlaceEntries(es[1..])
  }

  function PlaceType(t: Type): seq<Placed> {
    match t
    case Named(name) => [Pin(name)]
    case ListOf(elem) => [Sign(LBracket)] + (PlaceType(elem) + [Sign(RBracket)])
    case NonNull(inner) => PlaceType(inner) + [Sign(Bang)]
  }

  function PlaceArguments(args: Option<seq<Entry>>): seq<Placed> {
    match args
    case None => []
    case Some(es) => [Sign(LParen)] + (PlaceEntries(es) + [Sign(RParen)])
  }

  function PlaceDirective(d: Directive): seq<Placed> {
    [Sign(TokenKind.At), Pin(d.name)] + PlaceArguments(d.arguments)
  }

  function PlaceDirectives(ds: seq<Directive>): seq<Placed> {
    if ds == [] then [] else PlaceDirective(ds[0]) + PlaceDirectives(ds[1..])
  }

  function PlaceSet(set_: SelectionSet): seq<Placed>
    decreases set_, 2
  {
    [Placed(Mark(LBrace), From(set_.span.start))] +
    (PlaceSelections(set_.selections) + [Placed(Mark(RBrace), Until(set_.span.end))])
  }

  function PlaceSelections(sels: seq<Selection>): seq<Placed>
    decreases sels, 1
  {
    if sels == [] then [] else PlaceSelection(sels[0]) + PlaceSelections(sels[1..])
  }

  function PlaceBody(ds: seq<Directive>, set_: SelectionSet): seq<Placed>
    decreases set_, 3
  {
    PlaceDirectives(ds) + PlaceSet(set_)
  }

  function PlaceTail(ds: seq<Directive>, inner: Option<SelectionSet>): seq<Placed>
    decreases inner, 4
  {
    match inner
    case None => PlaceDirectives(ds)
    case Some(set_) => PlaceDirectives(ds) + PlaceSet(set_)
  }

  function PlaceAlias(alias: Option<Name>, name: Name): seq<Placed> {
    match alias
    case None => [Pin(name)]
    case Some(a) => [Pin(a), Sign(Colon), Pin(name)]
  }

  function PlaceSelection(sel: Selection): seq<Placed>
    decreases sel, 0
  {
    match sel
    case Field(alias, name, arguments, directives, inner) =>
      PlaceAlias(alias, name) + PlaceArguments(arguments) + PlaceTail(directives, inner)
    case FragmentSpread(name, directives) => [Sign(Spread), Pin(name)] + PlaceDirectives(directives)
    case InlineFragment(cond, directives, inner) => PlaceCondition(cond) + PlaceBody(directives, inner)
  }

  function PlaceCondition(cond: Option<Name>): seq<Placed> {
    match cond
    case None => [Sign(Spread)]
    case Some(c) => [Sign(Spread), Free(Word("on")), Pin(c)]
  }

  function PlaceDefault(default_: Option<Value>): seq<Placed> {
    match default_
    case None => []
    case Some(v) => [Sign(Eq)] + PlaceValue(v)
  }

  function PlaceVariable(v: VariableDefinition): seq<Placed> {
    [Sign(Dollar), Pin(v.name), Sign(Colon)] + PlaceType(v.varType) + PlaceDefault(v.default) +
      PlaceDirectives(v.directives)
  }

  function PlaceVariables(vs: seq<VariableDefinition>): seq<Placed> {
    if vs == [] then [] else PlaceVariable(vs[0]) + PlaceVariables(vs[1..])
  }

  function PlaceOptVariables(vs: Option<seq<VariableDefinition>>): seq<Placed> {
    match vs
    case None => []
    case Some(defs) => [Sign(LParen)] + (PlaceVariables(defs) + [Sign(RParen)])
  }

  function PlaceOpName(name: Option<Name>): seq<Placed> {
    match name
    case None => []
    case Some(n) => [Pin(n)]
  }

  function PlaceDefinition(def: Definition): seq<Placed> {
    match def
    case Shorthand(set_, _) => PlaceSet(set_)
    case Operation(kind, name, variables, directives, set_, span) =>
      [Placed(Word(Keyword(kind)), From(span.start))] + PlaceOpName(name) + PlaceOptVariables(variables) +
      PlaceBody(directives, set_)
    case Fragment(name, cond, directives, set_, span) =>
      [Placed(Word("fragment"), From(span.start)), Pin(name), Free(Word("on")), Pin(cond)] + PlaceBody(directives, set_)
  }

  /** A definition ends with its selection set, and a query without a keyword is one. */
  predicate EndsWithItsSet(def: Definition) {
    def.span.end == def.selectionSet.span.end && (def.Shorthand? ==> def.span == def.selectionSet.span)
  }

  function PlaceDocument(defs: seq<Definition>): seq<Placed> {
    if defs == [] then [] else PlaceDefinition(defs[0]) + PlaceDocument(defs[1..])
  }

  // ----- tokens in their places -----

  predicate Sits(p: Placed, t: Token) {
    && p.lexeme == Shape(t)
    && match p.place
       case Anywhere => true
       case At(span) => span == t.span
       case From(offset) => offset == t.span.start
       case Until(offset) => offset == t.span.end
  }

  /** The tokens from `a` to `b` are those of `ps`, and stand where it says. */
  ghost predicate Fits(s: Stream, a: nat, b: nat, ps: seq<Placed>) {
    && a <= b <= |s.tokens| && |ps| == b - a
    && forall i :: 0 <= i < |ps| ==> Sits(ps[i], s.tokens[a+i])
  }

  lemma {:induction false} FitsOne(s: Stream, a: nat, p: Placed)
    requires a < |s.tokens| && Sits(p, s.tokens[a])
    ensures Fits(s, a, a + 1, [p])
  {
  }

  lemma {:induction false} FitsTwo(s: Stream, a: nat, p: Placed, q: Placed)
    requires a + 1 < |s.tokens| && Sits(p, s.tokens[a]) && Sits(q, s.tokens[a+1])
    ensures Fits(s, a, a + 2, [p, q])
  {
  }

  lemma {:induction false} FitsThree(s: Stream, a: nat, p: Placed, q: Placed, r: Placed)
    requires a + 2 < |s.tokens| && Sits(p, s.tokens[a]) && Sits(q, s.tokens[a+1]) && Sits(r, s.tokens[a+2])
    ensures Fits(s, a, a + 3, [p, q, r])
  {
  }

  lemma {:induction false} FitsNone(s: Stream, a: nat)
    requires a <= |s.tokens|
    ensures Fits(s, a, a, [])
  {
  }

  lemma {:induction false} FitsBoth(s: Stream, a: nat, b: nat, c: nat, ps: seq<Placed>, qs: seq<Placed>)
    requires Fits(s, a, b, ps) && Fits(s, b, c, qs)
    ensures Fits(s, a, c, ps + qs)
  {
    var all := ps + qs;
    forall i | 0 <= i < |all| ensures Sits(all[i], s.tokens[a+i]) {
      if i >= |ps| {
        assert Sits(qs[i-|ps|], s.tokens[b+(i-|ps|)]);
      }
    }
  }

  // ----- values and types -----

  lemma {:induction false} ScalarPlaced(s: Stream, pos: nat, isConst: bool)
    requires ParseScalar(s, pos, isConst).Done?
    ensures var r := ParseScalar(s, pos, isConst); Fits(s, pos, r.pos, PlaceValue(r.value))
  {
    hide PlaceItems, PlaceEntries, Fits;
    var r := ParseScalar(s, pos, isConst);
    if r.value.Variable? {
      FitsTwo(s, pos, Sign(Dollar), Pin(r.value.name));
    } else {
      FitsOne(s, pos, PlaceValue(r.value)[0]);
    }
  }

  lemma {:induction false} ValuePlaced(s: Stream, pos: nat, isConst: bool)
    requires ParseValue(s, pos, isConst).Done?
    ensures var r := ParseValue(s, pos, isConst); Fits(s, pos, r.pos, PlaceValue(r.value))
    decreases |s.tokens| - pos, 0
  {
    hide PlaceItems, PlaceEntries, Fits, ParseItems, ParseEntries, ParseScalar;
    var r := ParseValue(s, pos, isConst);
    if s.tokens[pos].kind == LBracket {
      FitsOne(s, pos, Sign(LBracket));
      ItemsPlaced(s, pos + 1, isConst, []);
      FitsBoth(s, pos, pos + 1, r.pos, [Sign(LBracket)], PlaceItems(r.value.items) + [Sign(RBracket)]);
    } else if s.tokens[pos].kind == LBrace {
      FitsOne(s, pos, Sign(LBrace));
      EntriesPlaced(s, pos + 1, RBrace, isConst, []);
      FitsBoth(s, pos, pos + 1, r.pos, [Sign(LBrace)], PlaceEntries(r.value.fields) + [Sign(RBrace)]);
    } else {
      ScalarPlaced(s, pos, isConst);
    }
  }

  lemma {:induction false} ItemsPlaced(s: Stream, pos: nat, isConst: bool, acc: seq<Value>)
    requires ParseItems(s, pos, isConst, acc).Done?
    ensures var r := ParseItems(s, pos, isConst, acc);
      && |acc| <= |r.value| && r.value[..|acc|] == acc
      && Fits(s, pos, r.pos, PlaceItems(r.value[|acc|..]) + [Sign(RBracket)])
    decreases |s.tokens| - pos, 1
  {
    hide Fits, ParseValue, PlaceValue;
    var r := ParseItems(s, pos, isConst, acc);
    if s.tokens[pos].kind == RBracket {
      FitsOne(s, pos, Sign(RBracket));
      assert r.value[|acc|..] == [];
      assert [] + [Sign(RBracket)] == [Sign(RBracket)];
    } else {
      var v := ParseValue(s, pos, isConst);
      ValuePlaced(s, pos, isConst);
      ItemsPlaced(s, v.pos, isConst, acc + [v.value]);
      Soundness.Peel(r.value, acc, v.value);
      var rest := r.value[|acc|..];
      FitsBoth(s, pos, v.pos, r.pos, PlaceValue(v.value), PlaceItems(rest[1..]) + [Sign(RBracket)]);
      assert PlaceItems(rest) + [Sign(RBracket)] == PlaceValue(v.value) + (PlaceItems(rest[1..]) + [Sign(RBracket)]);
    }
  }

  lemma {:induction false} EntryPlaced(s: Stream, pos: nat, isConst: bool)
    requires ParseEntry(s, pos, isConst).Done?
    ensures var r := ParseEntry(s, pos, isConst); Fits(s, pos, r.pos, PlaceEntry(r.value))
    decreases |s.tokens| - pos, 1
  {
    hide Fits, ParseValue, PlaceValue;
    var r := ParseEntry(s, pos, isConst);
    FitsTwo(s, pos, Pin(r.value.name), Sign(Colon));
    ValuePlaced(s, pos + 2, isConst);
    FitsBoth(s, pos, pos + 2, r.pos, [Pin(r.value.name), Sign(Colon)], PlaceValue(r.value.value));
  }

  lemma {:induction false} EntriesPlaced(s: Stream, pos: nat, close: TokenKind, isConst: bool, acc: seq<Entry>)
    requires close != Eof && !CarriesText(close) && ParseEntries(s, pos, close, isConst, acc).Done?
    ensures var r := ParseEntries(s, pos, close, isConst, acc);
      && |acc| <= |r.value| && r.value[..|acc|] == acc
      && Fits(s, pos, r.pos, PlaceEntries(r.value[|acc|..]) + [Sign(close)])
    decreases |s.tokens| - pos, 2
  {
    hide Fits, ParseEntry, PlaceEntry;
    var r := ParseEntries(s, pos, close, isConst, acc);
    if s.tokens[pos].kind == close {
      FitsOne(s, pos, Sign(close));
      assert r.value[|acc|..] == [];
      assert [] + [Sign(close)] == [Sign(close)];
    } else {
      var e := ParseEntry(s, pos, isConst);
      EntryPlaced(s, pos, isConst);
      EntriesPlaced(s, e.pos, close, isConst, acc + [e.value]);
      Soundness.Peel(r.value, acc, e.value);
      var rest := r.value[|acc|..];
      FitsBoth(s, pos, e.pos, r.pos, PlaceEntry(e.value), PlaceEntries(rest[1..]) + [Sign(close)]);
      assert PlaceEntries(rest) + [Sign(close)] == PlaceEntry(e.value) + (PlaceEntries(rest[1..]) + [Sign(close)]);
    }
  }

  lemma {:induction false} TypeAtomPlaced(s: Stream, pos: nat)
    requires ParseTypeAtom(s, pos).Done?
    ensures var r := ParseTypeAtom(s, pos); Fits(s, pos, r.pos, PlaceType(r.value))
    decreases |s.tokens| - pos, 0
  {
    hide Fits, ParseType;
    var r := ParseTypeAtom(s, pos);
    if s.tokens[pos].kind == LBracket {
      var elem := ParseType(s, pos + 1);
      TypePlaced(s, pos + 1);
      FitsOne(s, pos, Sign(LBracket));
      FitsOne(s, elem.pos, Sign(RBracket));
      FitsBoth(s, pos + 1, elem.pos, r.pos, PlaceType(elem.value), [Sign(RBracket)]);
      FitsBoth(s, pos, pos + 1, r.pos, [Sign(LBracket)], PlaceType(elem.value) + [Sign(RBracket)]);
    } else {
      FitsOne(s, pos, Pin(r.value.name));
    }
  }

  lemma {:induction false} TypePlaced(s: Stream, pos: nat)
    requires ParseType(s, pos).Done?
    ensures var r := ParseType(s, pos); Fits(s, pos, r.pos, PlaceType(r.value))
    decreases |s.tokens| - pos, 1
  {
    hide Fits, ParseTypeAtom;
    var r := ParseType(s, pos);
    var atom := ParseTypeAtom(s, pos);
    TypeAtomPlaced(s, pos);
    if r.pos > atom.pos {
      FitsOne(s, atom.pos, Sign(Bang));
      FitsBoth(s, pos, atom.pos, r.pos, PlaceType(atom.value), [Sign(Bang)]);
    }
  }

  // ----- arguments and directives -----

  lemma {:induction false} OptArgumentsPlaced(s: Stream, pos: nat)
    requires pos <= |s.tokens| && ParseOptArguments(s, pos).Done?
    ensures var r := ParseOptArguments(s, pos); Fits(s, pos, r.pos, PlaceArguments(r.value))
  {
    hide Fits, ParseEntries, PlaceEntries;
    var r := ParseOptArguments(s, pos);
    if r.value.Some? {
      FitsOne(s, pos, Sign(LParen));
      EntriesPlaced(s, pos + 1, RParen, false, []);
      assert r.value.value[0..] == r.value.value;
      FitsBoth(s, pos, pos + 1, r.pos, [Sign(LParen)], PlaceEntries(r.value.value) + [Sign(RParen)]);
    } else {
      FitsNone(s, pos);
    }
  }

  lemma {:induction false} DirectivePlaced(s: Stream, pos: nat)
    requires pos < |s.tokens| && s.tokens[pos].kind == TokenKind.At && ParseDirective(s, pos + 1).Done?
    ensures var r := ParseDirective(s, pos + 1); Fits(s, pos, r.pos, PlaceDirective(r.value))
  {
    hide Fits, ParseOptArguments, PlaceArguments;
    var r := ParseDirective(s, pos + 1);
    FitsTwo(s, pos, Sign(TokenKind.At), Pin(r.value.name));
    OptArgumentsPlaced(s, pos + 2);
    FitsBoth(s, pos, pos + 2, r.pos, [Sign(TokenKind.At), Pin(r.value.name)], PlaceArguments(r.value.arguments));
  }

  lemma {:induction false} DirectivesPlaced(s: Stream, pos: nat, acc: seq<Directive>)
    requires pos <= |s.tokens| && ParseDirectives(s, pos, acc).Done?
    ensures var r := ParseDirectives(s, pos, acc);
      && |acc| <= |r.value| && r.value[..|acc|] == acc
      && Fits(s, pos, r.pos, PlaceDirectives(r.value[|acc|..]))
    decreases |s.tokens| - pos
  {
    hide Fits, ParseDirective, PlaceDirective;
    var r := ParseDirectives(s, pos, acc);
    if pos < |s.tokens| && s.tokens[pos].kind == TokenKind.At {
      var d := ParseDirective(s, pos + 1);
      DirectivePlaced(s, pos);
      DirectivesPlaced(s, d.pos, acc + [d.value]);
      Soundness.Peel(r.value, acc, d.value);
      FitsBoth(s, pos, d.pos, r.pos, PlaceDirective(d.value), PlaceDirectives(r.value[|acc|..][1..]));
    } else {
      FitsNone(s, pos);
      assert r.value[|acc|..] == [];
    }
  }

  lemma {:induction false} AllDirectivesPlaced(s: Stream, pos: nat)
    requires pos <= |s.tokens| && ParseDirectives(s, pos, []).Done?
    ensures var r := ParseDirectives(s, pos, []); Fits(s, pos, r.pos, PlaceDirectives(r.value))
  {
    hide Fits, ParseDirectives, PlaceDirectives;
    DirectivesPlaced(s, pos, []);
    assert ParseDirectives(s, pos, []).value[0..] == ParseDirectives(s, pos, []).value;
  }

  // ----- selections -----

  lemma {:induction false} SetPlaced(s: Stream, pos: nat)
    requires ParseSelectionSet(s, pos).Done?
    ensures var r := ParseSelectionSet(s, pos); Fits(s, pos, r.pos, PlaceSet(r.value))
    decreases |s.tokens| - pos, 0
  {
    hide Fits, ParseSelections, PlaceSelections;
    var r := ParseSelectionSet(s, pos);
    SelectionsPlaced(s, pos + 1, s.tokens[pos], []);
    assert r.value.selections[0..] == r.value.selections;
    var open, close := Placed(Mark(LBrace), From(r.value.span.start)), Placed(Mark(RBrace), Until(r.value.span.end));
    FitsOne(s, pos, open);
    FitsBoth(s, pos, pos + 1, r.pos, [open], PlaceSelections(r.value.selections) + [close]);
  }

  lemma {:induction false} SelectionsPlaced(s: Stream, pos: nat, open: Token, acc: seq<Selection>)
    requires pos <= |s.tokens| && ParseSelections(s, pos, open, acc).Done?
    ensures var r := ParseSelections(s, pos, open, acc);
      && r.value.span.start == open.span.start
      && |acc| <= |r.value.selections| && r.value.selections[..|acc|] == acc
      && Fits(s, pos, r.pos,
              PlaceSelections(r.value.selections[|acc|..]) + [Placed(Mark(RBrace), Until(r.value.span.end))])
    decreases |s.tokens| - pos, 4
  {
    hide Fits, ParseSelection, PlaceSelection;
    var r := ParseSelections(s, pos, open, acc);
    var close := Placed(Mark(RBrace), Until(r.value.span.end));
    if s.tokens[pos].kind == RBrace {
      FitsOne(s, pos, close);
      assert r.value.selections[|acc|..] == [];
      assert [] + [close] == [close];
    } else {
      var sel := ParseSelection(s, pos);
      SelectionPlaced(s, pos);
      SelectionsPlaced(s, sel.pos, open, acc + [sel.value]);
      Soundness.Peel(r.value.selections, acc, sel.value);
      var rest := r.value.selections[|acc|..];
      FitsBoth(s, pos, sel.pos, r.pos, PlaceSelection(sel.value), PlaceSelections(rest[1..]) + [close]);
      assert PlaceSelections(rest) + [close] == PlaceSelection(sel.value) + (PlaceSelections(rest[1..]) + [close]);
    }
  }

  lemma {:induction false} BodyPlaced(s: Stream, pos: nat)
    requires pos <= |s.tokens| && ParseBody(s, pos).Done?
    ensures var r := ParseBody(s, pos); Fits(s, pos, r.pos, PlaceBody(r.value.0, r.value.1))
    decreases |s.tokens| - pos, 1
  {
    hide Fits, ParseDirectives, PlaceDirectives, ParseSelectionSet, PlaceSet;
    var r := ParseBody(s, pos);
    var d := ParseDirectives(s, pos, []);
    AllDirectivesPlaced(s, pos);
    SetPlaced(s, d.pos);
    FitsBoth(s, pos, d.pos, r.pos, PlaceDirectives(r.value.0), PlaceSet(r.value.1));
  }

  lemma {:induction false} TailPlaced(s: Stream, pos: nat)
    requires pos <= |s.tokens| && ParseTail(s, pos).Done?
    ensures var r := ParseTail(s, pos); Fits(s, pos, r.pos, PlaceTail(r.value.0, r.value.1))
    decreases |s.tokens| - pos, 1
  {
    hide Fits, ParseDirectives, PlaceDirectives, ParseSelectionSet, PlaceSet;
    var r := ParseTail(s, pos);
    var d := ParseDirectives(s, pos, []);
    AllDirectivesPlaced(s, pos);
    if r.value.1.Some? {
      SetPlaced(s, d.pos);
      FitsBoth(s, pos, d.pos, r.pos, PlaceDirectives(r.value.0), PlaceSet(r.value.1.value));
    }
  }

  lemma {:induction false} SpreadPlaced(s: Stream, pos: nat)
    requires pos < |s.tokens| && s.tokens[pos].kind == Spread && ParseSpread(s, pos + 1).Done?
    ensures var r := ParseSpread(s, pos + 1); Fits(s, pos, r.pos, PlaceSelection(r.value))
    decreases |s.tokens| - pos, 2
  {
    hide Fits, ParseDirectives, PlaceDirectives, ParseBody, PlaceBody;
    var r := ParseSpread(s, pos + 1);
    if r.value.FragmentSpread? {
      FitsTwo(s, pos, Sign(Spread), Pin(r.value.name));
      AllDirectivesPlaced(s, pos + 2);
      FitsBoth(s, pos, pos + 2, r.pos, [Sign(Spread), Pin(r.value.name)], PlaceDirectives(r.value.directives));
    } else {
      var body := PlaceBody(r.value.directives, r.value.selections);
      if r.value.typeCondition.Some? {
        FitsThree(s, pos, Sign(Spread), Free(Word("on")), Pin(r.value.typeCondition.value));
        BodyPlaced(s, pos + 3);
        FitsBoth(s, pos, pos + 3, r.pos, PlaceCondition(r.value.typeCondition), body);
      } else {
        FitsOne(s, pos, Sign(Spread));
        BodyPlaced(s, pos + 1);
        FitsBoth(s, pos, pos + 1, r.pos, [Sign(Spread)], body);
      }
    }
  }

  lemma {:induction false} AliasPlaced(s: Stream, pos: nat)
    requires ParseAlias(s, pos).Done?
    ensures var r := ParseAlias(s, pos); Fits(s, pos, r.pos, PlaceAlias(r.value.0, r.value.1))
  {
    hide Fits;
    var r := ParseAlias(s, pos);
    if r.value.0.Some? {
      FitsThree(s, pos, Pin(r.value.0.value), Sign(Colon), Pin(r.value.1));
    } else {
      FitsOne(s, pos, Pin(r.value.1));
    }
  }

  lemma {:induction false} FieldPlaced(s: Stream, pos: nat)
    requires ParseField(s, pos).Done?
    ensures var r := ParseField(s, pos); Fits(s, pos, r.pos, PlaceSelection(r.value))
    decreases |s.tokens| - pos, 2
  {
    hide Fits, ParseAlias, ParseOptArguments, ParseTail, PlaceAlias, PlaceArguments, PlaceTail;
    var r := ParseField(s, pos);
    var p1 := ParseAlias(s, pos).pos;
    var p2 := ParseOptArguments(s, p1).pos;
    AliasPlaced(s, pos);
    OptArgumentsPlaced(s, p1);
    TailPlaced(s, p2);
    var a, b, c := PlaceAlias(r.value.alias, r.value.name), PlaceArguments(r.value.arguments),
      PlaceTail(r.value.directives, r.value.selectionSet);
    FitsBoth(s, pos, p1, p2, a, b);
    FitsBoth(s, pos, p2, r.pos, a + b, c);
  }

  lemma {:induction false} SelectionPlaced(s: Stream, pos: nat)
    requires pos <= |s.tokens| && ParseSelection(s, pos).Done?
    ensures var r := ParseSelection(s, pos); Fits(s, pos, r.pos, PlaceSelection(r.value))
    decreases |s.tokens| - pos, 3
  {
    hide Fits, ParseSpread, ParseField, PlaceSelection;
    if s.tokens[pos].kind == Spread {
      SpreadPlaced(s, pos);
    } else {
      FieldPlaced(s, pos);
    }
  }

  // ----- definitions -----

  lemma {:induction false} DefaultPlaced(s: Stream, pos: nat)
    requires pos <= |s.tokens| && ParseDefault(s, pos).Done?
    ensures var r := ParseDefault(s, pos); Fits(s, pos, r.pos, PlaceDefault(r.value))
  {
    hide Fits, ParseValue, PlaceValue;
    var r := ParseDefault(s, pos);
    if r.value.Some? {
      FitsOne(s, pos, Sign(Eq));
      ValuePlaced(s, pos + 1, true);
      FitsBoth(s, pos, pos + 1, r.pos, [Sign(Eq)], PlaceValue(r.value.value));
    } else {
      FitsNone(s, pos);
    }
  }

  lemma {:induction false} VariablePlaced(s: Stream, pos: nat)
    requires ParseVariable(s, pos).Done?
    ensures var r := ParseVariable(s, pos); Fits(s, pos, r.pos, PlaceVariable(r.value))
  {
    hide Fits, ParseType, ParseDefault, ParseDirectives, PlaceType, PlaceDefault, PlaceDirectives;
    var r := ParseVariable(s, pos);
    var p1 := ParseVariableHead(s, pos).pos;
    var p2 := ParseDefault(s, p1).pos;
    var v := r.value;
    var head := [Sign(Dollar), Pin(v.name), Sign(Colon)];
    FitsThree(s, pos, Sign(Dollar), Pin(v.name), Sign(Colon));
    TypePlaced(s, pos + 3);
    DefaultPlaced(s, p1);
    AllDirectivesPlaced(s, p2);
    FitsBoth(s, pos, pos + 3, p1, head, PlaceType(v.varType));
    FitsBoth(s, pos, p1, p2, head + PlaceType(v.varType), PlaceDefault(v.default));
    FitsBoth(s, pos, p2, r.pos, head + PlaceType(v.varType) + PlaceDefault(v.default), PlaceDirectives(v.directives));
  }

  lemma {:induction false} VariablesPlaced(s: Stream, pos: nat, acc: seq<VariableDefinition>)
    requires ParseVariables(s, pos, acc).Done?
    ensures var r := ParseVariables(s, pos, acc);
      && |acc| <= |r.value| && r.value[..|acc|] == acc
      && Fits(s, pos, r.pos, PlaceVariables(r.value[|acc|..]) + [Sign(RParen)])
    decreases |s.tokens| - pos
  {
    hide Fits, ParseVariable, PlaceVariable;
    var r := ParseVariables(s, pos, acc);
    if s.tokens[pos].kind == RParen {
      FitsOne(s, pos, Sign(RParen));
      assert r.value[|acc|..] == [];
      assert [] + [Sign(RParen)] == [Sign(RParen)];
    } else {
      var v := ParseVariable(s, pos);
      VariablePlaced(s, pos);
      VariablesPlaced(s, v.pos, acc + [v.value]);
      Soundness.Peel(r.value, acc, v.value);
      var rest := r.value[|acc|..];
      FitsBoth(s, pos, v.pos, r.pos, PlaceVariable(v.value), PlaceVariables(rest[1..]) + [Sign(RParen)]);
      assert PlaceVariables(rest) + [Sign(RParen)] ==
        PlaceVariable(v.value) + (PlaceVariables(rest[1..]) + [Sign(RParen)]);
    }
  }

  lemma {:induction false} OptVariablesPlaced(s: Stream, pos: nat)
    requires pos <= |s.tokens| && ParseOptVariables(s, pos).Done?
    ensures var r := ParseOptVariables(s, pos); Fits(s, pos, r.pos, PlaceOptVariables(r.value))
  {
    hide Fits, ParseVariables, PlaceVariables;
    var r := ParseOptVariables(s, pos);
    if r.value.Some? {
      FitsOne(s, pos, Sign(LParen));
      VariablesPlaced(s, pos + 1, []);
      assert r.value.value[0..] == r.value.value;
      FitsBoth(s, pos, pos + 1, r.pos, [Sign(LParen)], PlaceVariables(r.value.value) + [Sign(RParen)]);
    } else {
      FitsNone(s, pos);
    }
  }

  lemma {:induction false} OpNamePlaced(s: Stream, pos: nat)
    requires pos <= |s.tokens| && ParseOpName(s, pos).Done?
    ensures var r := ParseOpName(s, pos); Fits(s, pos, r.pos, PlaceOpName(r.value))
  {
    hide Fits;
    var r := ParseOpName(s, pos);
    if r.value.Some? {
      FitsOne(s, pos, Pin(r.value.value));
    } else {
      FitsNone(s, pos);
    }
  }

  lemma {:induction false} OperationPlaced(s: Stream, pos: nat)
    requires pos < |s.tokens| && s.tokens[pos].kind == NameToken && ParseOperation(s, pos + 1, s.tokens[pos]).Done?
    ensures var r := ParseOperation(s, pos + 1, s.tokens[pos]);
      Fits(s, pos, r.pos, PlaceDefinition(r.value)) && EndsWithItsSet(r.value)
  {
    hide Fits, ParseOpName, ParseOptVariables, ParseBody, PlaceOpName, PlaceOptVariables, PlaceBody;
    var r := ParseOperation(s, pos + 1, s.tokens[pos]);
    var p1 := ParseOpName(s, pos + 1).pos;
    var p2 := ParseOptVariables(s, p1).pos;
    var d := r.value;
    var kw := [Placed(Word(Keyword(d.kind)), From(d.span.start))];
    assert s.tokens[pos].text == Keyword(d.kind);
    FitsOne(s, pos, kw[0]);
    OpNamePlaced(s, pos + 1);
    OptVariablesPlaced(s, p1);
    BodyPlaced(s, p2);
    FitsBoth(s, pos, pos + 1, p1, kw, PlaceOpName(d.opName));
    FitsBoth(s, pos, p1, p2, kw + PlaceOpName(d.opName), PlaceOptVariables(d.variables));
    FitsBoth(s, pos, p2, r.pos, kw + PlaceOpName(d.opName) + PlaceOptVariables(d.variables),
             PlaceBody(d.directives, d.selectionSet));
  }

  lemma {:induction false} FragmentPlaced(s: Stream, pos: nat)
    requires pos < |s.tokens| && s.tokens[pos].kind == NameToken && s.tokens[pos].text == "fragment"
    requires ParseFragment(s, pos + 1, s.tokens[pos]).Done?
    ensures var r := ParseFragment(s, pos + 1, s.tokens[pos]);
      Fits(s, pos, r.pos, PlaceDefinition(r.value)) && EndsWithItsSet(r.value)
  {
    hide Fits, ParseBody, PlaceBody;
    var r := ParseFragment(s, pos + 1, s.tokens[pos]);
    var d := r.value;
    var a, b := [Placed(Word("fragment"), From(d.span.start)), Pin(d.name)], [Free(Word("on")), Pin(d.typeCondition)];
    FitsTwo(s, pos, a[0], a[1]);
    FitsTwo(s, pos + 2, b[0], b[1]);
    FitsBoth(s, pos, pos + 2, pos + 4, a, b);
    BodyPlaced(s, pos + 4);
    FitsBoth(s, pos, pos + 4, r.pos, a + b, PlaceBody(d.directives, d.selectionSet));
    assert a + b == [Placed(Word("fragment"), From(d.span.start)), Pin(d.name), Free(Word("on")), Pin(d.typeCondition)];
  }

  lemma {:induction false} DefinitionPlaced(s: Stream, pos: nat)
    requires pos <= |s.tokens| && ParseDefinition(s, pos).Done?
    ensures var r := ParseDefinition(s, pos); Fits(s, pos, r.pos, PlaceDefinition(r.value)) && EndsWithItsSet(r.value)
  {
    hide Fits, ParseSelectionSet, ParseOperation, ParseFragment, PlaceBody, PlaceOptVariables;
    if s.tokens[pos].kind == LBrace {
      SetPlaced(s, pos);
      SetStarts(s, pos);
      hide PlaceSet;
    } else if OperationOf(s.tokens[pos].text).Some? {
      OperationPlaced(s, pos);
    } else {
      FragmentPlaced(s, pos);
    }
  }

  lemma {:induction false} SetStarts(s: Stream, pos: nat)
    requires ParseSelectionSet(s, pos).Done?
    ensures pos < |s.tokens| && ParseSelectionSet(s, pos).value.span.start == s.tokens[pos].span.start
  {
    hide ParseSelections;
    SelectionsPlaced(s, pos + 1, s.tokens[pos], []);
  }

  lemma {:induction false} DefinitionsPlaced(s: Stream, pos: nat, acc: seq<Definition>)
    requires pos <= |s.tokens| && ParseDefinitions(s, pos, acc).Done?
    ensures var r := ParseDefinitions(s, pos, acc);
      && |acc| <= |r.value| && r.value[..|acc|] == acc
      && Fits(s, pos, |s.tokens|, PlaceDocument(r.value[|acc|..]))
      && forall i :: |acc| <= i < |r.value| ==> EndsWithItsSet(r.value[i])
    decreases |s.tokens| - pos
  {
    hide Fits, ParseDefinition, PlaceDefinition, EndsWithItsSet;
    var r := ParseDefinitions(s, pos, acc);
    if pos == |s.tokens| {
      FitsNone(s, pos);
      assert r.value[|acc|..] == [];
    } else {
      var d := ParseDefinition(s, pos);
      DefinitionPlaced(s, pos);
      DefinitionsPlaced(s, d.pos, acc + [d.value]);
      Soundness.Peel(r.value, acc, d.value);
      assert r.value[|acc|] == r.value[|acc|..][0];
      FitsBoth(s, pos, d.pos, |s.tokens|, PlaceDefinition(d.value), PlaceDocument(r.value[|acc|..][1..]));
    }
  }

  /** In an accepted document every name and string has the span of its token, every selection set runs
      from its opening to its closing brace, and every definition from its first token to its last. */
  lemma {:induction false} DocumentPlaced(s: Stream)
    requires ParseDocument(s).Done?
    ensures var defs := ParseDocument(s).value;
      && Fits(s, 0, |s.tokens|, PlaceDocument(defs))
      && forall i :: 0 <= i < |defs| ==> EndsWithItsSet(defs[i])
  {
    hide Fits, ParseDefinitions, PlaceDocument, EndsWithItsSet;
    DefinitionsPlaced(s, 0, []);
    assert ParseDocument(s).value[0..] == ParseDocument(s).value;
  }
}
