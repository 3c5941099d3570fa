/** Every well-formed tree, printed as tokens at any positions, parses back to itself. */
module Roundtrip {
  import opened Basics
  import opened Syntax
  import opened TreeParser
  import opened Printer
  import opened Soundness

  // ----- trees without positions -----

  const NOWHERE := Span(0, 0)

  function PlainName(n: Name): Name {
    Name(n.value, NOWHERE)
  }

  function PlainOptName(n: Option<Name>): Option<Name> {
    if n.None? then None else Some(PlainName(n.value))
  }

  function PlainValue(v: Value): Value
    decreases v, 0
  {
    match v
    case Variable(name) => Variable(PlainName(name))
    case String(raw, block, _) => String(raw, block, NOWHERE)
    case Enum(name) => Enum(PlainName(name))
    case List(items) => List(PlainItems(items))
    case Object(fields) => Object(PlainEntries(fields))
    case _ => v
  }

  function PlainItems(vs: seq<Value>): seq<Value>
    decreases vs, 1
  {
    seq(|vs|, i requires 0 <= i < |vs| => PlainValue(vs[i]))
  }

  function PlainEntry(e: Entry): Entry
    decreases e, 0
  {
    Entry(PlainName(e.name), PlainValue(e.value))
  }

  function PlainEntries(es: seq<Entry>): seq<Entry>
    decreases es, 1
  {
    seq(|es|, i requires 0 <= i < |es| => PlainEntry(es[i]))
  }

  function PlainType(t: Type): Type {
    match t
    case Named(name) => Named(PlainName(name))
    case ListOf(elem) => ListOf(PlainType(elem))
    case NonNull(inner) => NonNull(PlainType(inner))
  }

  function PlainArguments(args: Option<seq<Entry>>): Option<seq<Entry>> {
    if args.None? then None else Some(PlainEntries(args.value))
  }

  function PlainDirective(d: Directive): Directive {
    Directive(PlainName(d.name), PlainArguments(d.arguments))
  }

  function PlainDirectives(ds: seq<Directive>): seq<Directive> {
    seq(|ds|, i requires 0 <= i < |ds| => PlainDirective(ds[i]))
  }

  function PlainSet(set_: SelectionSet): SelectionSet
    decreases set_, 2
  {
    SelectionSet(PlainSelections(set_.selections), NOWHERE)
  }

  function PlainSelections(sels: seq<Selection>): seq<Selection>
    decreases sels, 1
  {
    seq(|sels|, i requires 0 <= i < |sels| => PlainSelection(sels[i]))
  }

  function PlainOptSet(set_: Option<SelectionSet>): Option<SelectionSet>
    decreases set_, 3
  {
    match set_
    case None => None
    case Some(inner) => Some(PlainSet(inner))
  }

  function PlainSelection(sel: Selection): Selection
    decreases sel, 0
  {
    match sel
    case Field(alias, name, arguments, directives, selectionSet) =>
      Field(PlainOptName(alias), PlainName(name), PlainArguments(arguments), PlainDirectives(directives),
            PlainOptSet(selectionSet))
    case FragmentSpread(name, directives) => FragmentSpread(PlainName(name), PlainDirectives(directives))
    case InlineFragment(cond, directives, inner) =>
      InlineFragment(PlainOptName(cond), PlainDirectives(directives), PlainSet(inner))
  }

  function PlainDefault(default_: Option<Value>): Option<Value> {
    if default_.None? then None else Some(PlainValue(default_.value))
  }

  function PlainVariable(v: VariableDefinition): VariableDefinition {
    VariableDefinition(PlainName(v.name), PlainType(v.varType), PlainDefault(v.default), PlainDirectives(v.directives))
  }

  function PlainVariables(vs: seq<VariableDefinition>): seq<VariableDefinition> {
    seq(|vs|, i requires 0 <= i < |vs| => PlainVariable(vs[i]))
  }

  function PlainOptVariables(vs: Option<seq<VariableDefinition>>): Option<seq<VariableDefinition>> {
    if vs.None? then None else Some(PlainVariables(vs.value))
  }

  function PlainDefinition(def: Definition): Definition {
    match def
    case Shorthand(set_, _) => Shorthand(PlainSet(set_), NOWHERE)
    case Operation(kind, name, variables, directives, set_, _) =>
      Operation(kind, PlainOptName(name), PlainOptVariables(variables), PlainDirectives(directives), PlainSet(set_),
                NOWHERE)
    case Fragment(name, cond, directives, set_, _) =>
      Fragment(PlainName(name), PlainName(cond), PlainDirectives(directives), PlainSet(set_), NOWHERE)
  }

  function PlainDocument(defs: seq<Definition>): seq<Definition> {
    seq(|defs|, i requires 0 <= i < |defs| => PlainDefinition(defs[i]))
  }

  // ----- printed text in a stream -----

  predicate Ends(s: Stream) {
    s.ending.AtEnd?
  }

  function KindAt(s: Stream, pos: nat): TokenKind {
    if pos < |s.tokens| then s.tokens[pos].kind else Eof
  }

  ghost predicate Prints(s: Stream, pos: nat, ls: seq<Lexeme>) {
    pos + |ls| <= |s.tokens| && Text(s, pos, pos + |ls|) == ls
  }

  lemma {:induction false} PrintsSplit(s: Stream, pos: nat, a: seq<Lexeme>, b: seq<Lexeme>)
    requires Prints(s, pos, a + b)
    ensures Prints(s, pos, a) && Prints(s, pos + |a|, b)
  {
    TextSplit(s, pos, pos + |a|, pos + |a| + |b|);
    assert (a + b)[..|a|] == a && (a + b)[|a|..] == b;
  }

  lemma {:induction false} PrintsFits(s: Stream, pos: nat, ls: seq<Lexeme>)
    requires Prints(s, pos, ls)
    ensures pos + |ls| <= |s.tokens|
  {
  }

  lemma {:induction false} PrintsHead(s: Stream, pos: nat, ls: seq<Lexeme>)
    requires Prints(s, pos, ls) && ls != []
    ensures pos < |s.tokens| && Shape(s.tokens[pos]) == ls[0] && KindAt(s, pos) == ls[0].kind
    ensures Prints(s, pos + 1, ls[1..])
  {
    TextCons(s, pos, pos + |ls|);
    assert ls == [ls[0]] + ls[1..];
    PrintsSplit(s, pos, [ls[0]], ls[1..]);
  }

  lemma {:induction false} Peeks(s: Stream, pos: nat)
    requires Ends(s)
    ensures Peek(s, pos).Done? && Peek(s, pos).value.kind == KindAt(s, pos)
    ensures pos < |s.tokens| ==> Peek(s, pos).value == s.tokens[pos]
  {
  }

  // ----- values -----

  lemma {:induction false} ValueStart(v: Value)
    ensures PrintValue(v) != []
    ensures PrintValue(v)[0].kind !in {RBracket, RBrace, RParen, Eof}
  {
  }

  lemma {:induction false} VariableValueReturns(s: Stream, pos: nat, v: Value)
    requires Ends(s) && v.Variable? && Prints(s, pos, PrintValue(v))
    ensures var r := ParseValue(s, pos, false);
      r.Done? && r.pos == pos + |PrintValue(v)| && PlainValue(r.value) == PlainValue(v)
  {
    hide Prints, ParseItems, ParseEntries, PlainItems, PlainEntries;
    PrintsHead(s, pos, PrintValue(v));
    PrintsHead(s, pos + 1, PrintValue(v)[1..]);
  }

  lemma {:induction false} ScalarReturns(s: Stream, pos: nat, v: Value, isConst: bool)
    requires Ends(s) && FineValue(v, isConst) && Prints(s, pos, PrintValue(v)) && !v.List? && !v.Object?
    ensures var r := ParseValue(s, pos, isConst);
      r.Done? && r.pos == pos + |PrintValue(v)| && PlainValue(r.value) == PlainValue(v)
  {
    if v.Variable? {
      hide Prints, ParseValue, PrintValue, PlainValue;
      VariableValueReturns(s, pos, v);
    } else {
      hide Prints, ParseItems, ParseEntries, PrintItems, PrintEntries, PlainItems, PlainEntries;
      PrintsHead(s, pos, PrintValue(v));
    }
  }

  lemma {:induction false} ValueReturns(s: Stream, pos: nat, v: Value, isConst: bool)
    requires Ends(s) && FineValue(v, isConst) && Prints(s, pos, PrintValue(v))
    ensures var r := ParseValue(s, pos, isConst);
      r.Done? && r.pos == pos + |PrintValue(v)| && PlainValue(r.value) == PlainValue(v)
    decreases v, 0
  {
    hide Prints, ParseItems, ParseEntries, PrintItems, PrintEntries, PlainItems, PlainEntries, FineItems, FineEntries;
    match v
    case List(items) =>
      var rest := PrintItems(items) + [Mark(RBracket)];
      assert PrintValue(v) == [Mark(LBracket)] + rest;
      PrintsHead(s, pos, PrintValue(v));
      assert PrintValue(v)[1..] == rest;
      AllItemsReturn(s, pos + 1, items, isConst);
    case Object(fields) =>
      var rest := PrintEntries(fields) + [Mark(RBrace)];
      assert PrintValue(v) == [Mark(LBrace)] + rest;
      PrintsHead(s, pos, PrintValue(v));
      assert PrintValue(v)[1..] == rest;
      AllEntriesReturn(s, pos + 1, fields, RBrace, isConst);
    case _ =>
      ScalarReturns(s, pos, v, isConst);
  }

  lemma {:induction false} PlainItemsSplit(a: seq<Value>, x: Value, vs: seq<Value>)
    requires vs != [] && PlainValue(x) == PlainValue(vs[0])
    ensures PlainItems(a + [x]) + PlainItems(vs[1..]) == PlainItems(a) + PlainItems(vs)
  {
    hide PlainValue;
  }

  lemma {:induction false} ItemsReturn(s: Stream, pos: nat, vs: seq<Value>, isConst: bool, acc: seq<Value>)
    requires Ends(s) && FineItems(vs, isConst) && Prints(s, pos, PrintItems(vs) + [Mark(RBracket)])
    ensures var r := ParseItems(s, pos, isConst, acc);
      r.Done? && r.pos == pos + |PrintItems(vs)| + 1 && PlainItems(r.value) == PlainItems(acc) + PlainItems(vs)
    decreases vs, 1
  {
    hide Prints, ParseValue, PrintValue, PlainValue, FineValue;
    var all := PrintItems(vs) + [Mark(RBracket)];
    if vs == [] {
      PrintsHead(s, pos, all);
    } else {
      var first, rest := PrintValue(vs[0]), PrintItems(vs[1..]) + [Mark(RBracket)];
      assert all == first + rest;
      PrintsSplit(s, pos, first, rest);
      ValueStart(vs[0]);
      PrintsHead(s, pos, first);
      ValueReturns(s, pos, vs[0], isConst);
      var v := ParseValue(s, pos, isConst);
      ItemsReturn(s, v.pos, vs[1..], isConst, acc + [v.value]);
      PlainItemsSplit(acc, v.value, vs);
    }
  }

  lemma {:induction false} EntryReturns(s: Stream, pos: nat, e: Entry, isConst: bool)
    requires Ends(s) && FineEntry(e, isConst) && Prints(s, pos, PrintEntry(e))
    ensures var r := ParseEntry(s, pos, isConst);
      r.Done? && r.pos == pos + |PrintEntry(e)| && PlainEntry(r.value) == PlainEntry(e)
    decreases e, 1
  {
    hide Prints, ParseValue, PrintValue, PlainValue, FineValue;
    var all := PrintEntry(e);
    PrintsHead(s, pos, all);
    PrintsHead(s, pos + 1, all[1..]);
    assert all[1..][1..] == PrintValue(e.value);
    ValueReturns(s, pos + 2, e.value, isConst);
  }

  lemma {:induction false} PlainEntriesSplit(a: seq<Entry>, x: Entry, es: seq<Entry>)
    requires es != [] && PlainEntry(x) == PlainEntry(es[0])
    ensures PlainEntries(a + [x]) + PlainEntries(es[1..]) == PlainEntries(a) + PlainEntries(es)
  {
    hide PlainEntry;
  }

  lemma {:induction false} EntriesReturn(s: Stream, pos: nat, es: seq<Entry>, close: TokenKind, isConst: bool,
                                         acc: seq<Entry>)
    requires close in {RBrace, RParen}
    requires Ends(s) && FineEntries(es, isConst) && Prints(s, pos, PrintEntries(es) + [Mark(close)])
    ensures var r := ParseEntries(s, pos, close, isConst, acc);
      r.Done? && r.pos == pos + |PrintEntries(es)| + 1 && PlainEntries(r.value) == PlainEntries(acc) + PlainEntries(es)
    decreases es, 2
  {
    hide Prints, ParseEntry, PlainEntry, FineEntry, PrintValue;
    var all := PrintEntries(es) + [Mark(close)];
    if es == [] {
      PrintsHead(s, pos, all);
    } else {
      var first, rest := PrintEntry(es[0]), PrintEntries(es[1..]) + [Mark(close)];
      assert all == first + rest;
      PrintsSplit(s, pos, first, rest);
      PrintsHead(s, pos, first);
      EntryReturns(s, pos, es[0], isConst);
      var e := ParseEntry(s, pos, isConst);
      EntriesReturn(s, e.pos, es[1..], close, isConst, acc + [e.value]);
      PlainEntriesSplit(acc, e.value, es);
    }
  }

  lemma {:induction false} AllItemsReturn(s: Stream, pos: nat, vs: seq<Value>, isConst: bool)
    requires Ends(s) && FineItems(vs, isConst) && Prints(s, pos, PrintItems(vs) + [Mark(RBracket)])
    ensures var r := ParseItems(s, pos, isConst, []);
      r.Done? && r.pos == pos + |PrintItems(vs)| + 1 && PlainItems(r.value) == PlainItems(vs)
    decreases vs, 2
  {
    assert PlainItems([]) + PlainItems(vs) == PlainItems(vs);
    hide Prints, ParseItems, PrintItems, PlainItems, FineItems;
    ItemsReturn(s, pos, vs, isConst, []);
  }

  lemma {:induction false} AllEntriesReturn(s: Stream, pos: nat, es: seq<Entry>, close: TokenKind, isConst: bool)
    requires close in {RBrace, RParen}
    requires Ends(s) && FineEntries(es, isConst) && Prints(s, pos, PrintEntries(es) + [Mark(close)])
    ensures var r := ParseEntries(s, pos, close, isConst, []);
      r.Done? && r.pos == pos + |PrintEntries(es)| + 1 && PlainEntries(r.value) == PlainEntries(es)
    decreases es, 3
  {
    assert PlainEntries([]) + PlainEntries(es) == PlainEntries(es);
    hide Prints, ParseEntries, PrintEntries, PlainEntries, FineEntries;
    EntriesReturn(s, pos, es, close, isConst, []);
  }

  // ----- types -----

  lemma {:induction false} TypeAtomReturns(s: Stream, pos: nat, t: Type)
    requires Ends(s) && FineType(t) && !t.NonNull? && Prints(s, pos, PrintType(t))
    ensures var r := ParseTypeAtom(s, pos);
      r.Done? && r.pos == pos + |PrintType(t)| && PlainType(r.value) == PlainType(t)
    decreases t, 0
  {
    hide Prints, ParseType;
    PrintsHead(s, pos, PrintType(t));
    if t.ListOf? {
      assert PrintType(t) == [Mark(LBracket)] + (PrintType(t.elem) + [Mark(RBracket)]);
      assert PrintType(t)[1..] == PrintType(t.elem) + [Mark(RBracket)];
      PrintsSplit(s, pos + 1, PrintType(t.elem), [Mark(RBracket)]);
      PrintsHead(s, pos + 1 + |PrintType(t.elem)|, [Mark(RBracket)]);
      TypeReturns(s, pos + 1, t.elem);
    }
  }

  lemma {:induction false} TypeReturns(s: Stream, pos: nat, t: Type)
    requires Ends(s) && FineType(t) && Prints(s, pos, PrintType(t)) && KindAt(s, pos + |PrintType(t)|) != Bang
    ensures var r := ParseType(s, pos);
      r.Done? && r.pos == pos + |PrintType(t)| && PlainType(r.value) == PlainType(t)
    decreases t, 1
  {
    hide Prints, ParseTypeAtom;
    Peeks(s, pos + |PrintType(t)|);
    if t.NonNull? {
      PrintsSplit(s, pos, PrintType(t.inner), [Mark(Bang)]);
      PrintsHead(s, pos + |PrintType(t.inner)|, [Mark(Bang)]);
      TypeAtomReturns(s, pos, t.inner);
    } else {
      TypeAtomReturns(s, pos, t);
    }
  }

  // ----- arguments and directives -----

  lemma {:induction false} OptArgumentsReturn(s: Stream, pos: nat, args: Option<seq<Entry>>)
    requires Ends(s) && FineArguments(args) && Prints(s, pos, PrintArguments(args))
    requires args.None? ==> KindAt(s, pos) != LParen
    ensures pos <= |s.tokens|
    ensures var r := ParseOptArguments(s, pos);
      r.Done? && r.pos == pos + |PrintArguments(args)| && PlainArguments(r.value) == PlainArguments(args)
  {
    hide Prints, Peek, ParseEntries, PrintEntries, PlainEntries, FineEntries;
    PrintsFits(s, pos, PrintArguments(args));
    Peeks(s, pos);
    if args.Some? {
      var all := PrintArguments(args);
      PrintsHead(s, pos, all);
      assert all[1..] == PrintEntries(args.value) + [Mark(RParen)];
      AllEntriesReturn(s, pos + 1, args.value, RParen, false);
    }
  }

  lemma {:induction false} DirectiveReturns(s: Stream, pos: nat, d: Directive)
    requires Ends(s) && FineArguments(d.arguments) && Prints(s, pos, PrintDirective(d))
    requires KindAt(s, pos + |PrintDirective(d)|) != LParen
    ensures var r := ParseDirective(s, pos);
      r.Done? && r.pos == pos + |PrintDirective(d)| && PlainDirective(r.value) == PlainDirective(d)
  {
    hide Prints, ParseOptArguments, PlainArguments, FineArguments;
    var all := PrintDirective(d);
    PrintsHead(s, pos, all);
    assert all[1..] == PrintArguments(d.arguments);
    OptArgumentsReturn(s, pos + 1, d.arguments);
  }

  lemma {:induction false} PlainDirectivesSplit(a: seq<Directive>, x: Directive, ds: seq<Directive>)
    requires ds != [] && PlainDirective(x) == PlainDirective(ds[0])
    ensures PlainDirectives(a + [x]) + PlainDirectives(ds[1..]) == PlainDirectives(a) + PlainDirectives(ds)
  {
    hide PlainDirective;
  }

  lemma {:induction false} DirectivesStart(ds: seq<Directive>)
    ensures ds != [] ==> PrintDirectives(ds) != [] && PrintDirectives(ds)[0] == Mark(At)
    ensures ds == [] ==> PrintDirectives(ds) == []
  {
  }

  lemma {:induction false} KindAfter(s: Stream, pos: nat, ds: seq<Directive>)
    requires Prints(s, pos, PrintDirectives(ds))
    ensures KindAt(s, pos) == if ds == [] then KindAt(s, pos + |PrintDirectives(ds)|) else At
  {
    hide PrintDirective;
    DirectivesStart(ds);
    if ds != [] {
      PrintsHead(s, pos, PrintDirectives(ds));
    }
  }

  lemma {:induction false} DirectivesReturn(s: Stream, pos: nat, ds: seq<Directive>, acc: seq<Directive>)
    requires Ends(s) && FineDirectives(ds) && Prints(s, pos, PrintDirectives(ds)) && pos <= |s.tokens|
    requires KindAt(s, pos + |PrintDirectives(ds)|) !in {At, LParen}
    ensures var r := ParseDirectives(s, pos, acc);
      r.Done? && r.pos == pos + |PrintDirectives(ds)| && PlainDirectives(r.value) ==
        PlainDirectives(acc) + PlainDirectives(ds)
    decreases |ds|
  {
    hide Prints, ParseDirective, PrintDirective, PlainDirective, FineArguments;
    Peeks(s, pos);
    if ds != [] {
      var first, rest := [Mark(At)] + PrintDirective(ds[0]), PrintDirectives(ds[1..]);
      PrintsSplit(s, pos, first, rest);
      PrintsHead(s, pos, first);
      assert first[1..] == PrintDirective(ds[0]);
      KindAfter(s, pos + |first|, ds[1..]);
      DirectiveReturns(s, pos + 1, ds[0]);
      var d := ParseDirective(s, pos + 1);
      DirectivesReturn(s, d.pos, ds[1..], acc + [d.value]);
      PlainDirectivesSplit(acc, d.value, ds);
    }
  }

  lemma {:induction false} AllDirectivesReturn(s: Stream, pos: nat, ds: seq<Directive>)
    requires Ends(s) && FineDirectives(ds) && Prints(s, pos, PrintDirectives(ds))
    requires KindAt(s, pos + |PrintDirectives(ds)|) !in {At, LParen}
    ensures pos <= |s.tokens|
    ensures var r := ParseDirectives(s, pos, []);
      r.Done? && r.pos == pos + |PrintDirectives(ds)| && PlainDirectives(r.value) == PlainDirectives(ds)
  {
    assert PlainDirectives([]) == [];
    hide Prints, ParseDirectives, PrintDirectives, PlainDirectives, FineDirectives;
    PrintsFits(s, pos, PrintDirectives(ds));
    DirectivesReturn(s, pos, ds, []);
  }

  // ----- selections -----

  lemma {:induction false} SelectionStart(sel: Selection)
    ensures PrintSelection(sel) != []
    ensures PrintSelection(sel)[0].kind in {NameToken, Spread}
  {
    hide PrintArguments, PrintTail, PrintDirectives, PrintBody;
  }

  lemma {:induction false} SelectionsStart(sels: seq<Selection>)
    ensures sels != [] ==> PrintSelections(sels) != [] && PrintSelections(sels)[0].kind in {NameToken, Spread}
  {
    hide PrintSelection;
    if sels != [] {
      SelectionStart(sels[0]);
    }
  }

  lemma {:induction false} SetReturns(s: Stream, pos: nat, set_: SelectionSet)
    requires Ends(s) && FineSet(set_) && Prints(s, pos, PrintSet(set_))
    ensures var r := ParseSelectionSet(s, pos);
      r.Done? && r.pos == pos + |PrintSet(set_)| && PlainSet(r.value) == PlainSet(set_)
    decreases set_, 2
  {
    assert PlainSelections([]) == [];
    hide Prints, ParseSelections, PrintSelections, PlainSelections, FineSelections;
    var all := PrintSet(set_);
    PrintsHead(s, pos, all);
    assert all[1..] == PrintSelections(set_.selections) + [Mark(RBrace)];
    SelectionsReturn(s, pos + 1, s.tokens[pos], set_.selections, []);
  }

  lemma {:induction false} PlainSelectionsSplit(a: seq<Selection>, x: Selection, sels: seq<Selection>)
    requires sels != [] && PlainSelection(x) == PlainSelection(sels[0])
    ensures PlainSelections(a + [x]) + PlainSelections(sels[1..]) == PlainSelections(a) + PlainSelections(sels)
  {
    hide PlainSelection;
  }

  lemma {:induction false} SelectionsReturn(s: Stream, pos: nat, open: Token, sels: seq<Selection>, acc: seq<Selection>)
    requires Ends(s) && FineSelections(sels) && (acc != [] || sels != []) && pos <= |s.tokens|
    requires Prints(s, pos, PrintSelections(sels) + [Mark(RBrace)])
    ensures var r := ParseSelections(s, pos, open, acc);
      && r.Done? && r.pos == pos + |PrintSelections(sels)| + 1
      && PlainSelections(r.value.selections) == PlainSelections(acc) + PlainSelections(sels)
    decreases sels, 1
  {
    hide Prints, ParseSelection, PrintSelection, PlainSelection, FineSelection;
    var all := PrintSelections(sels) + [Mark(RBrace)];
    if sels == [] {
      PrintsHead(s, pos, all);
    } else {
      var first, rest := PrintSelection(sels[0]), PrintSelections(sels[1..]) + [Mark(RBrace)];
      assert all == first + rest;
      PrintsSplit(s, pos, first, rest);
      SelectionStart(sels[0]);
      PrintsHead(s, pos, first);
      SelectionsStart(sels[1..]);
      PrintsHead(s, pos + |first|, rest);
      SelectionReturns(s, pos, sels[0]);
      var sel := ParseSelection(s, pos);
      SelectionsReturn(s, sel.pos, open, sels[1..], acc + [sel.value]);
      PlainSelectionsSplit(acc, sel.value, sels);
    }
  }

  lemma {:induction false} BodyReturns(s: Stream, pos: nat, ds: seq<Directive>, set_: SelectionSet)
    requires Ends(s) && FineDirectives(ds) && FineSet(set_) && Prints(s, pos, PrintBody(ds, set_))
    ensures pos < |s.tokens| && KindAt(s, pos) in {At, LBrace}
    ensures var r := ParseBody(s, pos);
      && r.Done? && r.pos == pos + |PrintBody(ds, set_)|
      && PlainDirectives(r.value.0) == PlainDirectives(ds) && PlainSet(r.value.1) == PlainSet(set_)
    decreases set_, 3
  {
    hide Prints, ParseDirectives, PrintDirectives, PlainDirectives, FineDirectives, ParseSelectionSet, PlainSet,
      FineSet;
    PrintsSplit(s, pos, PrintDirectives(ds), PrintSet(set_));
    PrintsHead(s, pos + |PrintDirectives(ds)|, PrintSet(set_));
    KindAfter(s, pos, ds);
    AllDirectivesReturn(s, pos, ds);
    SetReturns(s, pos + |PrintDirectives(ds)|, set_);
  }

  lemma {:induction false} TailReturns(s: Stream, pos: nat, ds: seq<Directive>, inner: Option<SelectionSet>)
    requires Ends(s) && FineDirectives(ds) && (inner.Some? ==> FineSet(inner.value))
    requires Prints(s, pos, PrintTail(ds, inner))
    requires KindAt(s, pos + |PrintTail(ds, inner)|) in {NameToken, Spread, RBrace}
    ensures pos <= |s.tokens| && KindAt(s, pos) in {At, LBrace, NameToken, Spread, RBrace}
    ensures var r := ParseTail(s, pos);
      && r.Done? && r.pos == pos + |PrintTail(ds, inner)|
      && PlainDirectives(r.value.0) == PlainDirectives(ds) && PlainOptSet(r.value.1) == PlainOptSet(inner)
    decreases inner, 4
  {
    hide Prints, ParseDirectives, PrintDirectives, PlainDirectives, FineDirectives, ParseSelectionSet, PlainSet,
      FineSet;
    var p := pos + |PrintDirectives(ds)|;
    Peeks(s, p);
    if inner.Some? {
      PrintsSplit(s, pos, PrintDirectives(ds), PrintSet(inner.value));
      PrintsHead(s, p, PrintSet(inner.value));
      SetReturns(s, p, inner.value);
    }
    KindAfter(s, pos, ds);
    AllDirectivesReturn(s, pos, ds);
  }

  lemma {:induction false} AliasReturns(s: Stream, pos: nat, alias: Option<Name>, name: Name)
    requires Ends(s) && Prints(s, pos, PrintAlias(alias, name)) && KindAt(s, pos + |PrintAlias(alias, name)|) != Colon
    ensures var r := ParseAlias(s, pos);
      && r.Done? && r.pos == pos + |PrintAlias(alias, name)|
      && PlainOptName(r.value.0) == PlainOptName(alias) && PlainName(r.value.1) == PlainName(name)
  {
    hide Prints;
    var all := PrintAlias(alias, name);
    PrintsHead(s, pos, all);
    Peeks(s, pos + 1);
    if alias.Some? {
      PrintsHead(s, pos + 1, all[1..]);
      PrintsHead(s, pos + 2, all[1..][1..]);
    }
  }

  lemma {:induction false} ArgumentsStart(s: Stream, pos: nat, args: Option<seq<Entry>>)
    requires Prints(s, pos, PrintArguments(args))
    ensures args.Some? ==> KindAt(s, pos) == LParen
    ensures args.None? ==> PrintArguments(args) == []
  {
    hide PrintEntries;
    if args.Some? {
      PrintsHead(s, pos, PrintArguments(args));
    }
  }

  lemma {:induction false} FieldReturns(s: Stream, pos: nat, sel: Selection)
    requires Ends(s) && sel.Field? && FineSelection(sel) && Prints(s, pos, PrintSelection(sel))
    requires KindAt(s, pos + |PrintSelection(sel)|) in {NameToken, Spread, RBrace}
    ensures var r := ParseField(s, pos);
      r.Done? && r.pos == pos + |PrintSelection(sel)| && PlainSelection(r.value) == PlainSelection(sel)
    decreases sel, 0
  {
    hide Prints, ParseAlias, ParseOptArguments, ParseTail, PrintAlias, PrintArguments, PrintTail,
      PlainArguments, PlainDirectives, PlainOptSet, PlainOptName, PlainName, FineArguments, FineDirectives, FineSet;
    var a, b, c :=
      PrintAlias(sel.alias, sel.name), PrintArguments(sel.arguments), PrintTail(sel.directives, sel.selectionSet);
    PrintsSplit(s, pos, a + b, c);
    PrintsSplit(s, pos, a, b);
    TailReturns(s, pos + |a| + |b|, sel.directives, sel.selectionSet);
    ArgumentsStart(s, pos + |a|, sel.arguments);
    OptArgumentsReturn(s, pos + |a|, sel.arguments);
    AliasReturns(s, pos, sel.alias, sel.name);
  }

  lemma {:induction false} FragmentSpreadReturns(s: Stream, pos: nat, sel: Selection)
    requires Ends(s) && sel.FragmentSpread? && FineSelection(sel) && Prints(s, pos, PrintSelection(sel))
    requires KindAt(s, pos + |PrintSelection(sel)|) in {NameToken, Spread, RBrace}
    ensures pos < |s.tokens| && KindAt(s, pos) == Spread
    ensures var r := ParseSpread(s, pos + 1);
      r.Done? && r.pos == pos + |PrintSelection(sel)| && PlainSelection(r.value) == PlainSelection(sel)
  {
    hide Prints, Peek, ParseDirectives, PrintDirectives, PlainDirectives, FineDirectives, ParseBody;
    var all := PrintSelection(sel);
    PrintsHead(s, pos, all);
    Peeks(s, pos + 1);
    PrintsHead(s, pos + 1, all[1..]);
    assert all[1..][1..] == PrintDirectives(sel.directives);
    AllDirectivesReturn(s, pos + 2, sel.directives);
  }

  lemma {:induction false} OnSpreadReturns(s: Stream, pos: nat, sel: Selection)
    requires Ends(s) && sel.InlineFragment? && sel.typeCondition.Some? && FineSelection(sel)
    requires Prints(s, pos, PrintSelection(sel))
    requires KindAt(s, pos + |PrintSelection(sel)|) in {NameToken, Spread, RBrace}
    ensures pos < |s.tokens| && KindAt(s, pos) == Spread
    ensures var r := ParseSpread(s, pos + 1);
      r.Done? && r.pos == pos + |PrintSelection(sel)| && PlainSelection(r.value) == PlainSelection(sel)
    decreases sel, 0
  {
    hide Prints, Peek, ParseDirectives, PlainDirectives, FineDirectives, ParseBody, PrintBody, PlainSet, FineSet;
    var body := PrintBody(sel.directives, sel.selections);
    var words := [Word("on"), Word(sel.typeCondition.value.value)];
    assert PrintSelection(sel) == [Mark(Spread)] + (words + body);
    PrintsSplit(s, pos, [Mark(Spread)], words + body);
    PrintsSplit(s, pos + 1, words, body);
    PrintsHead(s, pos, [Mark(Spread)]);
    PrintsHead(s, pos + 1, words);
    PrintsHead(s, pos + 2, words[1..]);
    Peeks(s, pos + 1);
    Peeks(s, pos + 2);
    BodyReturns(s, pos + 3, sel.directives, sel.selections);
  }

  lemma {:induction false} BareSpreadReturns(s: Stream, pos: nat, sel: Selection)
    requires Ends(s) && sel.InlineFragment? && sel.typeCondition.None? && FineSelection(sel)
    requires Prints(s, pos, PrintSelection(sel))
    requires KindAt(s, pos + |PrintSelection(sel)|) in {NameToken, Spread, RBrace}
    ensures pos < |s.tokens| && KindAt(s, pos) == Spread
    ensures var r := ParseSpread(s, pos + 1);
      r.Done? && r.pos == pos + |PrintSelection(sel)| && PlainSelection(r.value) == PlainSelection(sel)
    decreases sel, 0
  {
    hide Prints, Peek, ParseDirectives, PlainDirectives, FineDirectives, ParseBody, PrintBody, PlainSet, FineSet;
    var body := PrintBody(sel.directives, sel.selections);
    assert PrintSelection(sel) == [Mark(Spread)] + body;
    PrintsSplit(s, pos, [Mark(Spread)], body);
    PrintsHead(s, pos, [Mark(Spread)]);
    Peeks(s, pos + 1);
    BodyReturns(s, pos + 1, sel.directives, sel.selections);
  }

  lemma {:induction false} SpreadReturns(s: Stream, pos: nat, sel: Selection)
    requires Ends(s) && !sel.Field? && FineSelection(sel) && Prints(s, pos, PrintSelection(sel))
    requires KindAt(s, pos + |PrintSelection(sel)|) in {NameToken, Spread, RBrace}
    ensures pos < |s.tokens| && KindAt(s, pos) == Spread
    ensures var r := ParseSpread(s, pos + 1);
      r.Done? && r.pos == pos + |PrintSelection(sel)| && PlainSelection(r.value) == PlainSelection(sel)
    decreases sel, 1
  {
    hide Prints, ParseSpread, PrintSelection, PlainSelection, FineSelection;
    if sel.FragmentSpread? {
      FragmentSpreadReturns(s, pos, sel);
    } else if sel.typeCondition.Some? {
      OnSpreadReturns(s, pos, sel);
    } else {
      BareSpreadReturns(s, pos, sel);
    }
  }

  lemma {:induction false} SelectionReturns(s: Stream, pos: nat, sel: Selection)
    requires Ends(s) && FineSelection(sel) && Prints(s, pos, PrintSelection(sel))
    requires KindAt(s, pos + |PrintSelection(sel)|) in {NameToken, Spread, RBrace}
    ensures pos <= |s.tokens|
    ensures var r := ParseSelection(s, pos);
      r.Done? && r.pos == pos + |PrintSelection(sel)| && PlainSelection(r.value) == PlainSelection(sel)
    decreases sel, 2
  {
    hide Prints, ParseSpread, ParseField, PlainSelection, FineSelection;
    if sel.Field? {
      SelectionStart(sel);
      PrintsHead(s, pos, PrintSelection(sel));
      FieldStart(sel);
      FieldReturns(s, pos, sel);
    } else {
      SpreadReturns(s, pos, sel);
    }
  }

  lemma {:induction false} FieldStart(sel: Selection)
    requires sel.Field?
    ensures PrintSelection(sel)[0].kind == NameToken
  {
    hide PrintArguments, PrintTail;
  }

  // ----- definitions -----

  lemma {:induction false} DefaultReturns(s: Stream, pos: nat, default_: Option<Value>)
    requires Ends(s) && (default_.Some? ==> FineValue(default_.value, true)) && Prints(s, pos, PrintDefault(default_))
    requires default_.None? ==> KindAt(s, pos) != Eq
    ensures pos <= |s.tokens|
    ensures var r := ParseDefault(s, pos);
      r.Done? && r.pos == pos + |PrintDefault(default_)| && PlainDefault(r.value) == PlainDefault(default_)
  {
    hide Prints, Peek, ParseValue, PrintValue, PlainValue, FineValue;
    PrintsFits(s, pos, PrintDefault(default_));
    Peeks(s, pos);
    if default_.Some? {
      var all := PrintDefault(default_);
      PrintsHead(s, pos, all);
      assert all[1..] == PrintValue(default_.value);
      ValueReturns(s, pos + 1, default_.value, true);
    }
  }

  lemma {:induction false} VariableHeadReturns(s: Stream, pos: nat, name: Name, t: Type)
    requires Ends(s) && FineType(t) && Prints(s, pos, [Mark(Dollar), Word(name.value), Mark(Colon)] + PrintType(t))
    requires KindAt(s, pos + 3 + |PrintType(t)|) != Bang
    ensures var r := ParseVariableHead(s, pos);
      && r.Done? && r.pos == pos + 3 + |PrintType(t)|
      && PlainName(r.value.0) == PlainName(name) && PlainType(r.value.1) == PlainType(t)
  {
    hide Prints, ParseType, PrintType, PlainType, FineType;
    var all := [Mark(Dollar), Word(name.value), Mark(Colon)] + PrintType(t);
    PrintsHead(s, pos, all);
    PrintsHead(s, pos + 1, all[1..]);
    PrintsHead(s, pos + 2, all[1..][1..]);
    assert all[1..][1..][1..] == PrintType(t);
    TypeReturns(s, pos + 3, t);
  }

  lemma {:induction false} DefaultStart(s: Stream, pos: nat, default_: Option<Value>)
    requires Prints(s, pos, PrintDefault(default_))
    ensures default_.Some? ==> KindAt(s, pos) == Eq
    ensures default_.None? ==> PrintDefault(default_) == []
  {
    hide PrintValue;
    if default_.Some? {
      PrintsHead(s, pos, PrintDefault(default_));
    }
  }

  lemma {:induction false} VariableReturns(s: Stream, pos: nat, v: VariableDefinition)
    requires Ends(s) && FineVariable(v) && Prints(s, pos, PrintVariable(v))
    requires KindAt(s, pos + |PrintVariable(v)|) in {Dollar, RParen}
    ensures pos < |s.tokens| && KindAt(s, pos) == Dollar
    ensures var r := ParseVariable(s, pos);
      r.Done? && r.pos == pos + |PrintVariable(v)| && PlainVariable(r.value) == PlainVariable(v)
  {
    hide Prints, ParseVariableHead, ParseDefault, ParseDirectives, PrintType, PrintDefault, PrintDirectives,
      PlainType, PlainDefault, PlainDirectives, PlainName, FineType, FineValue, FineDirectives;
    var a, b, c := [Mark(Dollar), Word(v.name.value), Mark(Colon)] +
      PrintType(v.varType), PrintDefault(v.default), PrintDirectives(v.directives);
    PrintsSplit(s, pos, a + b, c);
    PrintsSplit(s, pos, a, b);
    PrintsHead(s, pos, a);
    KindAfter(s, pos + |a| + |b|, v.directives);
    DefaultStart(s, pos + |a|, v.default);
    VariableHeadReturns(s, pos, v.name, v.varType);
    DefaultReturns(s, pos + |a|, v.default);
    AllDirectivesReturn(s, pos + |a| + |b|, v.directives);
  }

  lemma {:induction false} PlainVariablesSplit(a: seq<VariableDefinition>, x: VariableDefinition,
                                               vs: seq<VariableDefinition>)
    requires vs != [] && PlainVariable(x) == PlainVariable(vs[0])
    ensures PlainVariables(a + [x]) + PlainVariables(vs[1..]) == PlainVariables(a) + PlainVariables(vs)
  {
    hide PlainVariable;
  }

  lemma {:induction false} VariablesReturn(s: Stream, pos: nat, vs: seq<VariableDefinition>,
                                           acc: seq<VariableDefinition>)
    requires Ends(s) && FineVariables(vs) && Prints(s, pos, PrintVariables(vs) + [Mark(RParen)])
    ensures var r := ParseVariables(s, pos, acc);
      r.Done? && r.pos == pos + |PrintVariables(vs)| + 1 && PlainVariables(r.value) ==
        PlainVariables(acc) + PlainVariables(vs)
    decreases |vs|
  {
    hide Prints, ParseVariable, PrintVariable, PlainVariable, FineVariable;
    var all := PrintVariables(vs) + [Mark(RParen)];
    if vs == [] {
      PrintsHead(s, pos, all);
    } else {
      var first, rest := PrintVariable(vs[0]), PrintVariables(vs[1..]) + [Mark(RParen)];
      assert all == first + rest;
      PrintsSplit(s, pos, first, rest);
      VariablesStart(vs[1..]);
      PrintsHead(s, pos + |first|, rest);
      VariableReturns(s, pos, vs[0]);
      var v := ParseVariable(s, pos);
      VariablesReturn(s, v.pos, vs[1..], acc + [v.value]);
      PlainVariablesSplit(acc, v.value, vs);
    }
  }

  lemma {:induction false} VariablesStart(vs: seq<VariableDefinition>)
    ensures vs != [] ==> PrintVariables(vs) != [] && PrintVariables(vs)[0].kind == Dollar
    ensures vs == [] ==> PrintVariables(vs) == []
  {
    hide PrintType, PrintDefault, PrintDirectives;
  }

  lemma {:induction false} AllVariablesReturn(s: Stream, pos: nat, vs: seq<VariableDefinition>)
    requires Ends(s) && FineVariables(vs) && Prints(s, pos, PrintVariables(vs) + [Mark(RParen)])
    ensures var r := ParseVariables(s, pos, []);
      r.Done? && r.pos == pos + |PrintVariables(vs)| + 1 && PlainVariables(r.value) == PlainVariables(vs)
  {
    assert PlainVariables([]) + PlainVariables(vs) == PlainVariables(vs);
    hide Prints, ParseVariables, PrintVariables, PlainVariables, FineVariables;
    VariablesReturn(s, pos, vs, []);
  }

  lemma {:induction false} OptVariablesReturn(s: Stream, pos: nat, vs: Option<seq<VariableDefinition>>)
    requires Ends(s) && (vs.Some? ==> FineVariables(vs.value)) && Prints(s, pos, PrintOptVariables(vs))
    requires vs.None? ==> KindAt(s, pos) != LParen
    ensures pos <= |s.tokens| && (vs.Some? ==> KindAt(s, pos) == LParen)
    ensures var r := ParseOptVariables(s, pos);
      r.Done? && r.pos == pos + |PrintOptVariables(vs)| && PlainOptVariables(r.value) == PlainOptVariables(vs)
  {
    hide Prints, Peek, ParseVariables, PrintVariables, PlainVariables, FineVariables;
    PrintsFits(s, pos, PrintOptVariables(vs));
    Peeks(s, pos);
    if vs.Some? {
      var all := PrintOptVariables(vs);
      PrintsHead(s, pos, all);
      assert all[1..] == PrintVariables(vs.value) + [Mark(RParen)];
      AllVariablesReturn(s, pos + 1, vs.value);
    }
  }

  lemma {:induction false} OpNameReturns(s: Stream, pos: nat, name: Option<Name>)
    requires Ends(s) && Prints(s, pos, PrintOpName(name)) && (name.None? ==> KindAt(s, pos) != NameToken)
    ensures pos <= |s.tokens|
    ensures var r := ParseOpName(s, pos);
      r.Done? && r.pos == pos + |PrintOpName(name)| && PlainOptName(r.value) == PlainOptName(name)
  {
    hide Prints;
    PrintsFits(s, pos, PrintOpName(name));
    Peeks(s, pos);
    if name.Some? {
      PrintsHead(s, pos, PrintOpName(name));
    }
  }

  lemma {:induction false} OperationReturns(s: Stream, pos: nat, def: Definition)
    requires Ends(s) && def.Operation? && FineDefinition(def) && Prints(s, pos, PrintDefinition(def))
    ensures pos < |s.tokens| && s.tokens[pos].kind == NameToken && OperationOf(s.tokens[pos].text).Some?
    ensures var r := ParseOperation(s, pos + 1, s.tokens[pos]);
      r.Done? && r.pos == pos + |PrintDefinition(def)| && PlainDefinition(r.value) == PlainDefinition(def)
  {
    hide Prints, ParseOpName, ParseOptVariables, ParseBody, PrintOpName, PrintOptVariables, PrintBody,
      PlainOptName, PlainOptVariables, PlainDirectives, PlainSet, FineVariables, FineDirectives, FineSet;
    var all := PrintDefinition(def);
    var k, a, b, c := [Word(Keyword(def.kind))], PrintOpName(def.opName), PrintOptVariables(def.variables),
      PrintBody(def.directives, def.selectionSet);
    assert all == k + a + b + c;
    PrintsSplit(s, pos, k + a + b, c);
    PrintsSplit(s, pos, k + a, b);
    PrintsSplit(s, pos, k, a);
    PrintsHead(s, pos, k);
    BodyReturns(s, pos + 1 + |a| + |b|, def.directives, def.selectionSet);
    NoVariablesText(def.variables);
    OptVariablesReturn(s, pos + 1 + |a|, def.variables);
    NoNameText(def.opName);
    OpNameReturns(s, pos + 1, def.opName);
  }

  lemma {:induction false} NoVariablesText(vs: Option<seq<VariableDefinition>>)
    ensures vs.None? ==> PrintOptVariables(vs) == []
  {
  }

  lemma {:induction false} NoNameText(name: Option<Name>)
    ensures name.None? ==> PrintOpName(name) == []
  {
  }

  lemma {:induction false} FragmentReturns(s: Stream, pos: nat, def: Definition)
    requires Ends(s) && def.Fragment? && FineDefinition(def) && Prints(s, pos, PrintDefinition(def))
    ensures pos < |s.tokens| && s.tokens[pos].kind == NameToken && s.tokens[pos].text == "fragment"
    ensures var r := ParseFragment(s, pos + 1, s.tokens[pos]);
      r.Done? && r.pos == pos + |PrintDefinition(def)| && PlainDefinition(r.value) == PlainDefinition(def)
  {
    hide Prints, ParseBody, PrintBody, PlainDirectives, PlainSet, FineDirectives, FineSet;
    var words := [Word("fragment"), Word(def.name.value), Word("on"), Word(def.typeCondition.value)];
    PrintsSplit(s, pos, words, PrintBody(def.directives, def.selectionSet));
    PrintsHead(s, pos, words);
    PrintsHead(s, pos + 1, words[1..]);
    PrintsHead(s, pos + 2, words[2..]);
    PrintsHead(s, pos + 3, words[3..]);
    BodyReturns(s, pos + 4, def.directives, def.selectionSet);
  }

  lemma {:induction false} DefinitionReturns(s: Stream, pos: nat, def: Definition)
    requires Ends(s) && FineDefinition(def) && Prints(s, pos, PrintDefinition(def))
    ensures pos < |s.tokens|
    ensures var r := ParseDefinition(s, pos);
      r.Done? && r.pos == pos + |PrintDefinition(def)| && PlainDefinition(r.value) == PlainDefinition(def)
  {
    hide Prints, ParseOperation, ParseFragment, ParseSelectionSet, PlainSet, FineSet, PrintSelections, PrintBody,
      PrintOptVariables;
    match def
    case Shorthand(set_, _) =>
      PrintsHead(s, pos, PrintSet(set_));
      SetReturns(s, pos, set_);
    case Operation(_, _, _, _, _, _) =>
      OperationReturns(s, pos, def);
    case Fragment(_, _, _, _, _) =>
      FragmentReturns(s, pos, def);
  }

  lemma {:induction false} PlainDocumentSplit(a: seq<Definition>, x: Definition, defs: seq<Definition>)
    requires defs != [] && PlainDefinition(x) == PlainDefinition(defs[0])
    ensures PlainDocument(a + [x]) + PlainDocument(defs[1..]) == PlainDocument(a) + PlainDocument(defs)
  {
    hide PlainDefinition;
  }

  lemma {:induction false} DefinitionsReturn(s: Stream, pos: nat, defs: seq<Definition>, acc: seq<Definition>)
    requires Ends(s) && FineDefinitions(defs) && (acc != [] || defs != [])
    requires Prints(s, pos, PrintDocument(defs)) && pos + |PrintDocument(defs)| == |s.tokens|
    ensures var r := ParseDefinitions(s, pos, acc);
      r.Done? && PlainDocument(r.value) == PlainDocument(acc) + PlainDocument(defs)
    decreases |defs|
  {
    hide Prints, ParseDefinition, PrintDefinition, PlainDefinition, FineDefinition;
    Peeks(s, pos);
    if defs != [] {
      PrintsSplit(s, pos, PrintDefinition(defs[0]), PrintDocument(defs[1..]));
      DefinitionReturns(s, pos, defs[0]);
      var d := ParseDefinition(s, pos);
      DefinitionsReturn(s, d.pos, defs[1..], acc + [d.value]);
      PlainDocumentSplit(acc, d.value, defs);
    }
  }

  /** Printing a well-formed document and parsing the tokens, wherever they are positioned, gives
      the document back, up to positions. */
  lemma {:induction false} DocumentReturns(s: Stream, defs: seq<Definition>)
    requires Ends(s) && FineDocument(defs) && Text(s, 0, |s.tokens|) == PrintDocument(defs)
    ensures ParseDocument(s).Done? && PlainDocument(ParseDocument(s).value) == PlainDocument(defs)
  {
    assert PlainDocument([]) == [];
    assert Prints(s, 0, PrintDocument(defs));
    hide Prints, ParseDefinitions, PrintDocument, PlainDocument, FineDefinitions;
    DefinitionsReturn(s, 0, defs, []);
  }

  /** The language: a token stream without a lexical error is accepted exactly when it is the
      printed form of a well-formed document. */
  lemma {:induction false} AcceptedLanguage(s: Stream)
    requires Ends(s)
    ensures ParseDocument(s).Done? <==>
      exists defs :: FineDocument(defs) && Text(s, 0, |s.tokens|) == PrintDocument(defs)
  {
    hide ParseDocument, PrintDocument, FineDocument, Text;
    if ParseDocument(s).Done? {
      DocumentSound(s);
    }
    forall defs | FineDocument(defs) && Text(s, 0, |s.tokens|) == PrintDocument(defs)
      ensures ParseDocument(s).Done?
    {
      DocumentReturns(s, defs);
    }
  }
}
