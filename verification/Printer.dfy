/** Writing a syntax tree as tokens, and which trees can be written so that they can be read. */
module Printer {
  import opened Basics
  import opened Syntax

  /** A token without its position; punctuation has no lexeme of its own. */
  datatype Lexeme = Lexeme(kind: TokenKind, text: string)

  predicate CarriesText(kind: TokenKind) {
    kind in {NameToken, IntValue, FloatValue, StringValue, BlockStringValue}
  }

  function Shape(t: Token): Lexeme {
    Lexeme(t.kind, if CarriesText(t.kind) then t.text else "")
  }

  function Mark(kind: TokenKind): Lexeme {
    Lexeme(kind, "")
  }

  function Word(text: string): Lexeme {
    Lexeme(NameToken, text)
  }

  // ----- values and types -----

  function PrintValue(v: Value): seq<Lexeme>
    decreases v, 0
  {
    match v
    case Variable(name) => [Mark(Dollar), Word(name.value)]
    case Int(text) => [Lexeme(IntValue, text)]
    case Float(text) => [Lexeme(FloatValue, text)]
    case String(raw, block, _) => [Lexeme(if block then BlockStringValue else StringValue, raw)]
    case Boolean(b) => [Word(if b then "true" else "false")]
    case Null => [Word("null")]
    case Enum(name) => [Word(name.value)]
    case List(items) => [Mark(LBracket)] + PrintItems(items) + [Mark(RBracket)]
    case Object(fields) => [Mark(LBrace)] + PrintEntries(fields) + [Mark(RBrace)]
  }

  function PrintItems(vs: seq<Value>): seq<Lexeme>
    decreases vs, 1
  {
    if vs == [] then [] else PrintValue(vs[0]) + PrintItems(vs[1..])
  }

  function PrintEntry(e: Entry): seq<Lexeme>
    decreases e, 1
  {
    [Word(e.name.value), Mark(Colon)] + PrintValue(e.value)
  }

  function PrintEntries(es: seq<Entry>): seq<Lexeme>
    decreases es, 1
  {
    if es == [] then [] else PrintEntry(es[0]) + PrintEntries(es[1..])
  }

  function PrintType(t: Type): seq<Lexeme> {
    match t
    case Named(name) => [Word(name.value)]
    case ListOf(elem) => [Mark(LBracket)] + PrintType(elem) + [Mark(RBracket)]
    case NonNull(inner) => PrintType(inner) + [Mark(Bang)]
  }

  // ----- directives and selections -----

  function PrintArguments(args: Option<seq<Entry>>): seq<Lexeme> {
    match args
    case None => []
    case Some(es) => [Mark(LParen)] + (PrintEntries(es) + [Mark(RParen)])
  }

  function PrintDirective(d: Directive): seq<Lexeme> {
    [Word(d.name.value)] + PrintArguments(d.arguments)
  }

  function PrintDirectives(ds: seq<Directive>): seq<Lexeme> {
    if ds == [] then [] else [Mark(At)] + PrintDirective(ds[0]) + PrintDirectives(ds[1..])
  }

  function PrintSet(set_: SelectionSet): seq<Lexeme>
    decreases set_, 2
  {
    [Mark(LBrace)] + (PrintSelections(set_.selections) + [Mark(RBrace)])
  }

  function PrintSelections(sels: seq<Selection>): seq<Lexeme>
    decreases sels, 1
  {
    if sels == [] then [] else PrintSelection(sels[0]) + PrintSelections(sels[1..])
  }

  function PrintBody(ds: seq<Directive>, set_: SelectionSet): seq<Lexeme>
    decreases set_, 3
  {
    PrintDirectives(ds) + PrintSet(set_)
  }

  function PrintTail(ds: seq<Directive>, inner: Option<SelectionSet>): seq<Lexeme>
    decreases inner, 4
  {
    match inner
    case None => PrintDirectives(ds)
    case Some(set_) => PrintDirectives(ds) + PrintSet(set_)
  }

  function PrintAlias(alias: Option<Name>, name: Name): seq<Lexeme> {
    match alias
    case None => [Word(name.value)]
    case Some(a) => [Word(a.value), Mark(Colon), Word(name.value)]
  }

  function PrintSelection(sel: Selection): seq<Lexeme>
    decreases sel, 0
  {
    match sel
    case Field(alias, name, arguments, directives, selectionSet) =>
      PrintAlias(alias, name) + PrintArguments(arguments) + PrintTail(directives, selectionSet)
    case FragmentSpread(name, directives) =>
      [Mark(Spread), Word(name.value)] + PrintDirectives(directives)
    case InlineFragment(cond, directives, inner) =>
      [Mark(Spread)] + (match cond case None => [] case Some(c) => [Word("on"), Word(c.value)]) +
        PrintBody(directives, inner)
  }

  // ----- definitions -----

  function PrintDefault(default_: Option<Value>): seq<Lexeme> {
    match default_
    case None => []
    case Some(v) => [Mark(Eq)] + PrintValue(v)
  }

  function PrintVariable(v: VariableDefinition): seq<Lexeme> {
    [Mark(Dollar), Word(v.name.value), Mark(Colon)] + PrintType(v.varType) + PrintDefault(v.default) +
      PrintDirectives(v.directives)
  }

  function PrintVariables(vs: seq<VariableDefinition>): seq<Lexeme> {
    if vs == [] then [] else PrintVariable(vs[0]) + PrintVariables(vs[1..])
  }

  function PrintOptVariables(vs: Option<seq<VariableDefinition>>): seq<Lexeme> {
    match vs
    case None => []
    case Some(defs) => [Mark(LParen)] + (PrintVariables(defs) + [Mark(RParen)])
  }

  function PrintOpName(name: Option<Name>): seq<Lexeme> {
    match name
    case None => []
    case Some(n) => [Word(n.value)]
  }

  function PrintDefinition(def: Definition): seq<Lexeme> {
    match def
    case Shorthand(set_, _) => PrintSet(set_)
    case Operation(kind, name, variables, directives, set_, _) =>
      [Word(Keyword(kind))] + PrintOpName(name) + PrintOptVariables(variables) + PrintBody(directives, set_)
    case Fragment(name, cond, directives, set_, _) =>
      [Word("fragment"), Word(name.value), Word("on"), Word(cond.value)] + PrintBody(directives, set_)
  }

  function PrintDocument(defs: seq<Definition>): seq<Lexeme> {
    if defs == [] then [] else PrintDefinition(defs[0]) + PrintDocument(defs[1..])
  }

  // ----- well-formed trees -----

  predicate FineValue(v: Value, isConst: bool)
    decreases v, 0
  {
    match v
    case Variable(_) => !isConst
    case Enum(name) => name.value !in {"true", "false", "null"}
    case List(items) => FineItems(items, isConst)
    case Object(fields) => FineEntries(fields, isConst)
    case _ => true
  }

  predicate FineItems(vs: seq<Value>, isConst: bool)
    decreases vs, 1
  {
    vs != [] ==> FineValue(vs[0], isConst) && FineItems(vs[1..], isConst)
  }

  predicate FineEntries(es: seq<Entry>, isConst: bool)
    decreases es, 1
  {
    es != [] ==> FineEntry(es[0], isConst) && FineEntries(es[1..], isConst)
  }

  predicate FineEntry(e: Entry, isConst: bool)
    decreases e, 1
  {
    FineValue(e.value, isConst)
  }

  predicate FineType(t: Type) {
    match t
    case Named(_) => true
    case ListOf(elem) => FineType(elem)
    case NonNull(inner) => !inner.NonNull? && FineType(inner)
  }

  predicate FineArguments(args: Option<seq<Entry>>) {
    args.Some? ==> FineEntries(args.value, false)
  }

  predicate FineDirectives(ds: seq<Directive>) {
    ds != [] ==> FineArguments(ds[0].arguments) && FineDirectives(ds[1..])
  }

  predicate FineSet(set_: SelectionSet)
    decreases set_, 2
  {
    set_.selections != [] && FineSelections(set_.selections)
  }

  predicate FineSelections(sels: seq<Selection>)
    decreases sels, 1
  {
    sels != [] ==> FineSelection(sels[0]) && FineSelections(sels[1..])
  }

  predicate FineSelection(sel: Selection)
    decreases sel, 0
  {
    match sel
    case Field(_, _, arguments, directives, selectionSet) =>
      && FineArguments(arguments) && FineDirectives(directives)
      && (selectionSet.Some? ==> FineSet(selectionSet.value))
    case FragmentSpread(name, directives) => name.value != "on" && FineDirectives(directives)
    case InlineFragment(_, directives, inner) => FineDirectives(directives) && FineSet(inner)
  }

  predicate FineVariable(v: VariableDefinition) {
    FineType(v.varType) && (v.default.Some? ==> FineValue(v.default.value, true)) && FineDirectives(v.directives)
  }

  predicate FineVariables(vs: seq<VariableDefinition>) {
    vs != [] ==> FineVariable(vs[0]) && FineVariables(vs[1..])
  }

  predicate FineDefinition(def: Definition) {
    match def
    case Shorthand(set_, _) => FineSet(set_)
    case Operation(_, _, variables, directives, set_, _) =>
      (variables.Some? ==> FineVariables(variables.value)) && FineDirectives(directives) && FineSet(set_)
    case Fragment(_, _, directives, set_, _) => FineDirectives(directives) && FineSet(set_)
  }

  predicate FineDefinitions(defs: seq<Definition>) {
    defs != [] ==> FineDefinition(defs[0]) && FineDefinitions(defs[1..])
  }

  predicate FineDocument(defs: seq<Definition>) {
    defs != [] && FineDefinitions(defs)
  }
}
