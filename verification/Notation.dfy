/** Documents written out: what the parser makes of concrete token sequences, whatever the names in them
    (magna-gqlmin `parse/mod.rs`). */
module Notation {
  import opened Basics
  import opened Syntax
  import opened Printer
  import opened Soundness
  import opened Roundtrip
  import Grammar = TreeParser

  /** `a : n ( x : $ v ) @ d`. */
  lemma {:induction false} FieldNotation(a: Name, n: Name, x: Name, v: Name, d: Name)
    ensures PrintSelection(Field(Some(a), n, Some([Entry(x, Variable(v))]), [Directive(d, None)], None)) ==
      [Word(a.value), Mark(Colon), Word(n.value), Mark(LParen), Word(x.value), Mark(Colon), Mark(Dollar), Word(v.value),
       Mark(RParen), Mark(TokenKind.At), Word(d.value)]
  {
    var es, ds := [Entry(x, Variable(v))], [Directive(d, None)];
    assert es[1..] == [] && ds[1..] == [];
    assert PrintEntry(es[0]) == [Word(x.value), Mark(Colon), Mark(Dollar), Word(v.value)];
    assert PrintEntries(es) == PrintEntry(es[0]) + PrintEntries([]);
    assert PrintDirectives(ds) == [Mark(TokenKind.At)] + ([Word(d.value)] + []) + PrintDirectives([]);
  }

  /** `{ k : [ i f ] }`, in which `i` is an integer and `f` a float. */
  lemma {:induction false} ObjectNotation(k: Name, i: string, f: string)
    ensures PrintValue(Object([Entry(k, List([Int(i), Float(f)]))])) ==
      [Mark(LBrace), Word(k.value), Mark(Colon), Mark(LBracket), Lexeme(IntValue, i), Lexeme(FloatValue, f),
       Mark(RBracket), Mark(RBrace)]
  {
    var vs, es := [Int(i), Float(f)], [Entry(k, List([Int(i), Float(f)]))];
    assert vs[1..] == [Float(f)] && vs[1..][1..] == [] && es[1..] == [];
    assert PrintItems(vs[1..]) == [Lexeme(FloatValue, f)] + PrintItems([]);
    assert PrintItems(vs) == [Lexeme(IntValue, i)] + PrintItems(vs[1..]);
    assert PrintEntries(es) == PrintEntry(es[0]) + PrintEntries([]);
  }

  lemma {:induction false} WordNotation(e: Name, raw: string, at: Span)
    ensures PrintValue(Boolean(true)) == [Word("true")] && PrintValue(Boolean(false)) == [Word("false")]
    ensures PrintValue(Null) == [Word("null")] && PrintValue(Enum(e)) == [Word(e.value)]
    ensures PrintValue(String(raw, true, at)) == [Lexeme(BlockStringValue, raw)]
  {
  }

  /** `[ T ] !` and `[ T ! ]`. */
  lemma {:induction false} TypeNotation(t: Name)
    ensures PrintType(NonNull(ListOf(Named(t)))) == [Mark(LBracket), Word(t.value), Mark(RBracket), Mark(Bang)]
    ensures PrintType(ListOf(NonNull(Named(t)))) == [Mark(LBracket), Word(t.value), Mark(Bang), Mark(RBracket)]
  {
    assert PrintType(ListOf(Named(t))) == [Mark(LBracket)] + PrintType(Named(t)) + [Mark(RBracket)];
    assert PrintType(NonNull(Named(t))) == PrintType(Named(t)) + [Mark(Bang)];
  }

  /** `$ v : [ T ] ! = s`, in which `s` is a string. */
  lemma {:induction false} VariableNotation(v: Name, t: Name, raw: string, at: Span)
    ensures PrintVariable(VariableDefinition(v, NonNull(ListOf(Named(t))), Some(String(raw, false, at)), [])) ==
      [Mark(Dollar), Word(v.value), Mark(Colon), Mark(LBracket), Word(t.value), Mark(RBracket), Mark(Bang), Mark(Eq),
       Lexeme(StringValue, raw)]
  {
    TypeNotation(t);
    hide PrintType;
    assert PrintDirectives([]) == [];
  }

  /** `... F` and `... on C { n }`. */
  lemma {:induction false} SpreadNotation(f: Name, c: Name, n: Name, at: Span)
    ensures PrintSelection(FragmentSpread(f, [])) == [Mark(Spread), Word(f.value)]
    ensures PrintSelection(InlineFragment(Some(c), [], SelectionSet([Field(None, n, None, [], None)], at))) ==
      [Mark(Spread), Word("on"), Word(c.value), Mark(LBrace), Word(n.value), Mark(RBrace)]
  {
    var sels := [Field(None, n, None, [], None)];
    assert PrintDirectives([]) == [] && PrintSelections([]) == [];
    assert PrintSelection(sels[0]) == [Word(n.value)];
    assert PrintSelections(sels) == PrintSelection(sels[0]) + PrintSelections(sels[1..]);
    assert PrintBody([], SelectionSet(sels, at)) == [Mark(LBrace), Word(n.value), Mark(RBrace)];
  }

  /** A mutation with a name, a variable and a spread. */
  function SampleOperation(q: Name, v: Name, t: Name, raw: string, f: Name, at: Span): Definition {
    var variable := VariableDefinition(v, NonNull(ListOf(Named(t))), Some(String(raw, false, at)), []);
    Operation(Mutation, Some(q), Some([variable]), [], SelectionSet([FragmentSpread(f, [])], at), at)
  }

  function SampleFragment(f: Name, c: Name, n: Name, at: Span): Definition {
    Fragment(f, c, [], SelectionSet([Field(None, n, None, [], None)], at), at)
  }

  /** `( $ v : [ t ] ! = s )`. */
  lemma {:induction false} VariablesNotation(v: Name, t: Name, raw: string, at: Span)
    ensures var variable := VariableDefinition(v, NonNull(ListOf(Named(t))), Some(String(raw, false, at)), []);
      && FineVariables([variable])
      && PrintOptVariables(Some([variable])) ==
           [Mark(LParen), Mark(Dollar), Word(v.value), Mark(Colon), Mark(LBracket), Word(t.value), Mark(RBracket),
            Mark(Bang), Mark(Eq), Lexeme(StringValue, raw), Mark(RParen)]
  {
    var vs := [VariableDefinition(v, NonNull(ListOf(Named(t))), Some(String(raw, false, at)), [])];
    assert vs[1..] == [] && FineVariables([]);
    assert FineType(Named(t)) && FineType(ListOf(Named(t))) && FineType(NonNull(ListOf(Named(t))));
    assert FineDirectives([]) && FineVariable(vs[0]);
    VariableNotation(v, t, raw, at);
    hide PrintVariable, FineVariable, FineType;
    assert vs[1..] == [] && PrintVariables([]) == [];
    assert PrintVariables(vs) == PrintVariable(vs[0]) + PrintVariables(vs[1..]);
  }

  /** `{ ... f }`. */
  lemma {:induction false} SpreadBody(f: Name, at: Span)
    ensures var set_ := SelectionSet([FragmentSpread(f, [])], at);
      && PrintBody([], set_) == [Mark(LBrace), Mark(Spread), Word(f.value), Mark(RBrace)]
      && (f.value != "on" ==> FineSet(set_))
  {
    SpreadNotation(f, f, f, at);
    var sels := [FragmentSpread(f, [])];
    assert FineSelections(sels) <==> FineSelection(sels[0]) && FineSelections(sels[1..]);
    hide PrintSelection;
    assert PrintDirectives([]) == [] && PrintSelections([]) == [];
    assert PrintSelections(sels) == PrintSelection(sels[0]) + PrintSelections(sels[1..]);
  }

  /** `mutation q ( $ v : [ t ] ! = s ) { ... f }`. */
  lemma {:induction false} OperationNotation(q: Name, v: Name, t: Name, raw: string, f: Name, at: Span)
    ensures PrintDefinition(SampleOperation(q, v, t, raw, f, at)) ==
      [Word("mutation"), Word(q.value), Mark(LParen), Mark(Dollar), Word(v.value), Mark(Colon), Mark(LBracket),
       Word(t.value), Mark(RBracket), Mark(Bang), Mark(Eq), Lexeme(StringValue, raw), Mark(RParen), Mark(LBrace),
       Mark(Spread), Word(f.value), Mark(RBrace)]
    ensures f.value != "on" ==> FineDefinition(SampleOperation(q, v, t, raw, f, at))
  {
    VariablesNotation(v, t, raw, at);
    SpreadBody(f, at);
    hide PrintOptVariables, PrintBody, FineVariables, FineSet;
  }

  /** `fragment f on c { n }`. */
  lemma {:induction false} FragmentNotation(f: Name, c: Name, n: Name, at: Span)
    ensures PrintDefinition(SampleFragment(f, c, n, at)) ==
      [Word("fragment"), Word(f.value), Word("on"), Word(c.value), Mark(LBrace), Word(n.value), Mark(RBrace)]
    ensures FineDefinition(SampleFragment(f, c, n, at))
  {
    var sels := [Field(None, n, None, [], None)];
    assert PrintDirectives([]) == [] && PrintSelections([]) == [];
    assert PrintSelection(sels[0]) == [Word(n.value)];
    assert PrintSelections(sels) == PrintSelection(sels[0]) + PrintSelections(sels[1..]);
    assert PrintBody([], SelectionSet(sels, at)) == [Mark(LBrace), Word(n.value), Mark(RBrace)];
  }

  /** `mutation q ( $ v : [ t ] ! = s ) { ... f } fragment f on c { n }` parses to these two definitions, up to
      positions, whatever the names. */
  lemma {:induction false} SampleParses(s: Stream, q: Name, v: Name, t: Name, raw: string, f: Name, c: Name, n: Name,
                                        at: Span)
    requires Ends(s) && f.value != "on" && Text(s, 0, |s.tokens|) ==
      [Word("mutation"), Word(q.value), Mark(LParen), Mark(Dollar), Word(v.value), Mark(Colon), Mark(LBracket),
       Word(t.value), Mark(RBracket), Mark(Bang), Mark(Eq), Lexeme(StringValue, raw), Mark(RParen), Mark(LBrace),
       Mark(Spread), Word(f.value), Mark(RBrace)] +
      [Word("fragment"), Word(f.value), Word("on"), Word(c.value), Mark(LBrace), Word(n.value), Mark(RBrace)]
    ensures var g := Grammar.ParseDocument(s);
      var defs := [SampleOperation(q, v, t, raw, f, at), SampleFragment(f, c, n, at)];
      g.Done? && PlainDocument(g.value) == PlainDocument(defs)
  {
    OperationNotation(q, v, t, raw, f, at);
    FragmentNotation(f, c, n, at);
    hide PrintDefinition, FineDefinition, Grammar.ParseDocument, PlainDocument, Text, SampleOperation, SampleFragment;
    var defs := [SampleOperation(q, v, t, raw, f, at), SampleFragment(f, c, n, at)];
    TwoDefinitions(defs);
    DocumentReturns(s, defs);
  }

  lemma {:induction false} TwoDefinitions(defs: seq<Definition>)
    requires |defs| == 2
    ensures PrintDocument(defs) == PrintDefinition(defs[0]) + PrintDefinition(defs[1])
    ensures FineDocument(defs) <==> FineDefinition(defs[0]) && FineDefinition(defs[1])
  {
    hide PrintDefinition, FineDefinition;
    assert defs[1..][1..] == [] && PrintDocument([]) == [];
    assert PrintDocument(defs[1..]) == PrintDefinition(defs[1]) + PrintDocument(defs[1..][1..]);
    assert FineDefinitions(defs[1..]) <==> FineDefinition(defs[1]) && FineDefinitions(defs[1..][1..]);
  }
}
