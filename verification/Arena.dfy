/** The span-indexed AST: every list of the document is a range of one flat array of nodes
    (the types of magna-gqlmin `parse/mod.rs`), and how a tree is laid out in it. */
module Arena {
  import opened Basics
  import opened Syntax

  datatype NodeRange = NodeRange(start: nat, len: nat)

  const EMPTY := NodeRange(0, 0)

  datatype ArenaValue =
    | VariableValue(name: Name)
    | IntLiteral(text: string)
    | FloatLiteral(text: string)
    | StringLiteral(raw: string, block: bool, span: Span)
    | BooleanLiteral(b: bool)
    | NullLiteral
    | EnumLiteral(name: Name)
    | ListRange(range: NodeRange)
    | ObjectRange(range: NodeRange)

  datatype ArenaSet = ArenaSet(selections: NodeRange, span: Span)

  datatype ArenaSelection =
    | FieldNode(alias: Option<Name>, name: Name, arguments: NodeRange, directives: NodeRange,
                selectionSet: Option<ArenaSet>)
    | SpreadNode(name: Name, directives: NodeRange)
    | InlineNode(typeCondition: Option<Name>, directives: NodeRange, selections: ArenaSet)

  datatype ArenaDefinition =
    | OperationNode(kind: OperationKind, opName: Option<Name>, variables: NodeRange, directives: NodeRange,
                    selectionSet: ArenaSet, span: Span, shorthand: bool)
    | FragmentNode(name: Name, typeCondition: Name, directives: NodeRange, selectionSet: ArenaSet, span: Span)

  datatype Node =
    | DefinitionItem(definition: ArenaDefinition)
    | VariableItem(name: Name, varType: Type, default: Option<ArenaValue>, directives: NodeRange)
    | DirectiveItem(name: Name, arguments: NodeRange)
    | ArgumentItem(name: Name, value: ArenaValue)
    | SelectionItem(selection: ArenaSelection)
    | ObjectFieldItem(name: Name, value: ArenaValue)
    | ValueItem(value: ArenaValue)

  datatype Document = Document(definitions: NodeRange, nodes: seq<Node>)

  // ----- layout -----

  /** A laid-out part: its value, and the nodes appended to the arena for it. */
  datatype Laid<+T> = Laid(value: T, nodes: seq<Node>)

  /** A list being laid out: its elements, and the nodes appended for what is inside them. The
      elements themselves follow once the list is closed. */
  datatype Items = Items(items: seq<Node>, nodes: seq<Node>)

  function Close(list: Items, base: nat): Laid<NodeRange> {
    Laid(NodeRange(base + |list.nodes|, |list.items|), list.nodes + list.items)
  }

  function LayValue(v: Value, base: nat): Laid<ArenaValue>
    decreases v, 0
  {
    match v
    case Variable(name) => Laid(VariableValue(name), [])
    case Int(text) => Laid(IntLiteral(text), [])
    case Float(text) => Laid(FloatLiteral(text), [])
    case String(raw, block, span) => Laid(StringLiteral(raw, block, span), [])
    case Boolean(b) => Laid(BooleanLiteral(b), [])
    case Null => Laid(NullLiteral, [])
    case Enum(name) => Laid(EnumLiteral(name), [])
    case List(items) =>
      var l := Close(LayItems(items, base), base);
      Laid(ListRange(l.value), l.nodes)
    case Object(fields) =>
      var l := Close(LayFields(fields, base), base);
      Laid(ObjectRange(l.value), l.nodes)
  }

  function LayItems(vs: seq<Value>, base: nat): (r: Items)
    ensures |r.items| == |vs|
    decreases vs, 1
  {
    if vs == [] then Items([], [])
    else
      var n := |vs| - 1;
      var before := LayItems(vs[..n], base);
      var last := LayValue(vs[n], base + |before.nodes|);
      Items(before.items + [ValueItem(last.value)], before.nodes + last.nodes)
  }

  function LayFields(es: seq<Entry>, base: nat): (r: Items)
    ensures |r.items| == |es|
    decreases es, 1
  {
    if es == [] then Items([], [])
    else
      var n := |es| - 1;
      var before := LayFields(es[..n], base);
      var last := LayField(es[n], base + |before.nodes|);
      Items(before.items + [last.value], before.nodes + last.nodes)
  }

  function LayField(e: Entry, base: nat): Laid<Node>
    decreases e, 0
  {
    var v := LayValue(e.value, base);
    Laid(ObjectFieldItem(e.name, v.value), v.nodes)
  }

  function LayArgs(es: seq<Entry>, base: nat): (r: Items)
    ensures |r.items| == |es|
  {
    if es == [] then Items([], [])
    else
      var n := |es| - 1;
      var before := LayArgs(es[..n], base);
      var last := LayValue(es[n].value, base + |before.nodes|);
      Items(before.items + [ArgumentItem(es[n].name, last.value)], before.nodes + last.nodes)
  }

  function LayArguments(args: Option<seq<Entry>>, base: nat): Laid<NodeRange> {
    match args
    case None => Laid(EMPTY, [])
    case Some(es) => Close(LayArgs(es, base), base)
  }

  function LayDirectives(ds: seq<Directive>, base: nat): (r: Items)
    ensures |r.items| == |ds|
  {
    if ds == [] then Items([], [])
    else
      var n := |ds| - 1;
      var before := LayDirectives(ds[..n], base);
      var last := LayArguments(ds[n].arguments, base + |before.nodes|);
      Items(before.items + [DirectiveItem(ds[n].name, last.value)], before.nodes + last.nodes)
  }

  function LaySet(set_: SelectionSet, base: nat): Laid<ArenaSet>
    decreases set_, 2
  {
    var l := Close(LaySelections(set_.selections, base), base);
    Laid(ArenaSet(l.value, set_.span), l.nodes)
  }

  function LaySelections(sels: seq<Selection>, base: nat): (r: Items)
    ensures |r.items| == |sels|
    decreases sels, 1
  {
    if sels == [] then Items([], [])
    else
      var n := |sels| - 1;
      var before := LaySelections(sels[..n], base);
      var last := LaySelection(sels[n], base + |before.nodes|);
      Items(before.items + [SelectionItem(last.value)], before.nodes + last.nodes)
  }

  function LayBody(ds: seq<Directive>, set_: SelectionSet, base: nat): (r: Laid<(NodeRange, ArenaSet)>)
    ensures r.value.1.span == set_.span
    decreases set_, 3
  {
    var d := Close(LayDirectives(ds, base), base);
    var l := LaySet(set_, base + |d.nodes|);
    Laid((d.value, l.value), d.nodes + l.nodes)
  }

  function LayTail(ds: seq<Directive>, inner: Option<SelectionSet>, base: nat): Laid<(NodeRange, Option<ArenaSet>)>
    decreases inner, 4
  {
    match inner
    case None => var d := Close(LayDirectives(ds, base), base); Laid((d.value, None), d.nodes)
    case Some(set_) => var b := LayBody(ds, set_, base); Laid((b.value.0, Some(b.value.1)), b.nodes)
  }

  function LaySelection(sel: Selection, base: nat): Laid<ArenaSelection>
    decreases sel, 0
  {
    match sel
    case Field(alias, name, arguments, directives, selectionSet) =>
      var a := LayArguments(arguments, base);
      var t := LayTail(directives, selectionSet, base + |a.nodes|);
      Laid(FieldNode(alias, name, a.value, t.value.0, t.value.1), a.nodes + t.nodes)
    case FragmentSpread(name, directives) =>
      var d := Close(LayDirectives(directives, base), base);
      Laid(SpreadNode(name, d.value), d.nodes)
    case InlineFragment(cond, directives, inner) =>
      var b := LayBody(directives, inner, base);
      Laid(InlineNode(cond, b.value.0, b.value.1), b.nodes)
  }

  function LayDefault(default_: Option<Value>, base: nat): Laid<Option<ArenaValue>> {
    match default_
    case None => Laid(None, [])
    case Some(v) => var l := LayValue(v, base); Laid(Some(l.value), l.nodes)
  }

  function LayVariables(vs: seq<VariableDefinition>, base: nat): (r: Items)
    ensures |r.items| == |vs|
  {
    if vs == [] then Items([], [])
    else
      var n := |vs| - 1;
      var before := LayVariables(vs[..n], base);
      var last := LayVariable(vs[n], base + |before.nodes|);
      Items(before.items + [last.value], before.nodes + last.nodes)
  }

  function LayVariable(v: VariableDefinition, base: nat): Laid<Node> {
    var default_ := LayDefault(v.default, base);
    var d := Close(LayDirectives(v.directives, base + |default_.nodes|), base + |default_.nodes|);
    Laid(VariableItem(v.name, v.varType, default_.value, d.value), default_.nodes + d.nodes)
  }

  function LayOptVariables(vs: Option<seq<VariableDefinition>>, base: nat): Laid<NodeRange> {
    match vs
    case None => Laid(EMPTY, [])
    case Some(defs) => Close(LayVariables(defs, base), base)
  }

  function LayDefinition(def: Definition, base: nat): Laid<ArenaDefinition> {
    match def
    case Shorthand(set_, span) =>
      var s := LaySet(set_, base);
      Laid(OperationNode(Query, None, EMPTY, EMPTY, s.value, span, true), s.nodes)
    case Operation(kind, name, variables, directives, set_, span) =>
      var v := LayOptVariables(variables, base);
      var b := LayBody(directives, set_, base + |v.nodes|);
      Laid(OperationNode(kind, name, v.value, b.value.0, b.value.1, span, false), v.nodes + b.nodes)
    case Fragment(name, cond, directives, set_, span) =>
      var b := LayBody(directives, set_, base);
      Laid(FragmentNode(name, cond, b.value.0, b.value.1, span), b.nodes)
  }

  function LayDefinitions(defs: seq<Definition>, base: nat): (r: Items)
    ensures |r.items| == |defs|
  {
    if defs == [] then Items([], [])
    else
      var n := |defs| - 1;
      var before := LayDefinitions(defs[..n], base);
      var last := LayDefinition(defs[n], base + |before.nodes|);
      Items(before.items + [DefinitionItem(last.value)], before.nodes + last.nodes)
  }

  /** The document for a list of definitions. */
  function LayDocument(defs: seq<Definition>): Document {
    var l := Close(LayDefinitions(defs, 0), 0);
    Document(l.value, l.nodes)
  }

  // ----- appending one element to a laid-out list -----

  lemma {:induction false} ItemsNext(acc: seq<Value>, v: Value, base: nat)
    ensures var b := LayItems(acc, base);
      var l := LayValue(v, base + |b.nodes|);
      LayItems(acc + [v], base) == Items(b.items + [ValueItem(l.value)], b.nodes + l.nodes)
  {
    assert (acc + [v])[..|acc|] == acc;
  }

  lemma {:induction false} FieldsNext(acc: seq<Entry>, e: Entry, base: nat)
    ensures var b := LayFields(acc, base);
      var l := LayValue(e.value, base + |b.nodes|);
      LayFields(acc + [e], base) == Items(b.items + [ObjectFieldItem(e.name, l.value)], b.nodes + l.nodes)
  {
    assert (acc + [e])[..|acc|] == acc;
  }

  lemma {:induction false} ArgsNext(acc: seq<Entry>, e: Entry, base: nat)
    ensures var b := LayArgs(acc, base);
      var l := LayValue(e.value, base + |b.nodes|);
      LayArgs(acc + [e], base) == Items(b.items + [ArgumentItem(e.name, l.value)], b.nodes + l.nodes)
  {
    assert (acc + [e])[..|acc|] == acc;
  }

  lemma {:induction false} DirectivesNext(acc: seq<Directive>, d: Directive, base: nat)
    ensures var b := LayDirectives(acc, base);
      var l := LayArguments(d.arguments, base + |b.nodes|);
      LayDirectives(acc + [d], base) == Items(b.items + [DirectiveItem(d.name, l.value)], b.nodes + l.nodes)
  {
    assert (acc + [d])[..|acc|] == acc;
  }

  lemma {:induction false} SelectionsNext(acc: seq<Selection>, sel: Selection, base: nat)
    ensures var b := LaySelections(acc, base);
      var l := LaySelection(sel, base + |b.nodes|);
      LaySelections(acc + [sel], base) == Items(b.items + [SelectionItem(l.value)], b.nodes + l.nodes)
  {
    assert (acc + [sel])[..|acc|] == acc;
  }

  lemma {:induction false} VariablesNext(acc: seq<VariableDefinition>, v: VariableDefinition, base: nat)
    ensures var b := LayVariables(acc, base);
      var l := LayVariable(v, base + |b.nodes|);
      LayVariables(acc + [v], base) == Items(b.items + [l.value], b.nodes + l.nodes)
  {
    hide LayVariable, LayDirectives, LayDefault, Close;
    assert (acc + [v])[..|acc|] == acc;
  }

  lemma {:induction false} DefinitionsNext(acc: seq<Definition>, d: Definition, base: nat)
    ensures var b := LayDefinitions(acc, base);
      var l := LayDefinition(d, base + |b.nodes|);
      LayDefinitions(acc + [d], base) == Items(b.items + [DefinitionItem(l.value)], b.nodes + l.nodes)
  {
    hide LayDefinition, LayDirectives, LaySet, Close;
    assert (acc + [d])[..|acc|] == acc;
  }
}
