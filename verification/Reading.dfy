/** Reading a document back through its ranges (the accessors and projections of magna-gqlmin
    `parse/mod.rs`): which trees an arena stands for. */
module Reading {
  import opened Basics
  import opened Syntax
  import opened Arena

  /** The nodes of a range, or none when the range is out of bounds, as `Document::slice` does. */
  function Slice(nodes: seq<Node>, r: NodeRange): seq<Node> {
    if r.start + r.len <= |nodes| then nodes[r.start..r.start + r.len] else []
  }

  /** A range below `bound`: everything reachable through it is read below the range itself. */
  predicate Below(nodes: seq<Node>, bound: nat, r: NodeRange) {
    r.start + r.len <= bound <= |nodes|
  }

  // ----- what an arena value reads as; every node met has the kind the accessor projects -----

  ghost predicate ReadsValue(nodes: seq<Node>, bound: nat, a: ArenaValue, v: Value)
    decreases v, 0
  {
    match v
    case Variable(name) => a == VariableValue(name)
    case Int(text) => a == IntLiteral(text)
    case Float(text) => a == FloatLiteral(text)
    case String(raw, block, span) => a == StringLiteral(raw, block, span)
    case Boolean(b) => a == BooleanLiteral(b)
    case Null => a == NullLiteral
    case Enum(name) => a == EnumLiteral(name)
    case List(items) =>
      a.ListRange? && Below(nodes, bound, a.range) && ReadsItems(nodes, a.range.start, Slice(nodes, a.range), items)
    case Object(fields) =>
      a.ObjectRange? && Below(nodes, bound, a.range) && ReadsFields(nodes, a.range.start, Slice(nodes, a.range), fields)
  }

  ghost predicate ReadsItems(nodes: seq<Node>, bound: nat, items: seq<Node>, vs: seq<Value>)
    decreases vs, 1
  {
    && |items| == |vs|
    && (vs != [] ==>
          var n := |vs| - 1;
          && items[n].ValueItem?
          && ReadsItems(nodes, bound, items[..n], vs[..n])
          && ReadsValue(nodes, bound, items[n].value, vs[n]))
  }

  ghost predicate ReadsFields(nodes: seq<Node>, bound: nat, items: seq<Node>, es: seq<Entry>)
    decreases es, 1
  {
    && |items| == |es|
    && (es != [] ==>
          var n := |es| - 1;
          && items[n].ObjectFieldItem?
          && ReadsFields(nodes, bound, items[..n], es[..n])
          && ReadsEntry(nodes, bound, items[n].name, items[n].value, es[n]))
  }

  ghost predicate ReadsEntry(nodes: seq<Node>, bound: nat, name: Name, a: ArenaValue, e: Entry)
    decreases e, 0
  {
    name == e.name && ReadsValue(nodes, bound, a, e.value)
  }

  ghost predicate ReadsArgs(nodes: seq<Node>, bound: nat, items: seq<Node>, es: seq<Entry>)
    decreases |es|
  {
    && |items| == |es|
    && (es != [] ==>
          var n := |es| - 1;
          && items[n].ArgumentItem?
          && ReadsArgs(nodes, bound, items[..n], es[..n])
          && ReadsEntry(nodes, bound, items[n].name, items[n].value, es[n]))
  }

  ghost predicate ReadsArguments(nodes: seq<Node>, bound: nat, r: NodeRange, args: Option<seq<Entry>>) {
    Below(nodes, bound, r) && ReadsArgs(nodes, r.start, Slice(nodes, r), Listed(args))
  }

  ghost predicate ReadsDirectiveItems(nodes: seq<Node>, bound: nat, items: seq<Node>, ds: seq<Directive>)
    decreases |ds|
  {
    && |items| == |ds|
    && (ds != [] ==>
          var n := |ds| - 1;
          && items[n].DirectiveItem? && items[n].name == ds[n].name
          && ReadsDirectiveItems(nodes, bound, items[..n], ds[..n])
          && ReadsArguments(nodes, bound, items[n].arguments, ds[n].arguments))
  }

  ghost predicate ReadsDirectives(nodes: seq<Node>, bound: nat, r: NodeRange, ds: seq<Directive>) {
    Below(nodes, bound, r) && ReadsDirectiveItems(nodes, r.start, Slice(nodes, r), ds)
  }

  ghost predicate ReadsSet(nodes: seq<Node>, bound: nat, a: ArenaSet, set_: SelectionSet)
    decreases set_, 2
  {
    && a.span == set_.span && Below(nodes, bound, a.selections)
    && ReadsSelections(nodes, a.selections.start, Slice(nodes, a.selections), set_.selections)
  }

  ghost predicate ReadsSelections(nodes: seq<Node>, bound: nat, items: seq<Node>, sels: seq<Selection>)
    decreases sels, 1
  {
    && |items| == |sels|
    && (sels != [] ==>
          var n := |sels| - 1;
          && items[n].SelectionItem?
          && ReadsSelections(nodes, bound, items[..n], sels[..n])
          && ReadsSelection(nodes, bound, items[n].selection, sels[n]))
  }

  ghost predicate ReadsSelection(nodes: seq<Node>, bound: nat, a: ArenaSelection, sel: Selection)
    decreases sel, 0
  {
    match sel
    case Field(alias, name, arguments, directives, selectionSet) =>
      && a.FieldNode? && a.alias == alias && a.name == name
      && ReadsArguments(nodes, bound, a.arguments, arguments)
      && ReadsDirectives(nodes, bound, a.directives, directives)
      && a.selectionSet.Some? == selectionSet.Some?
      && (selectionSet.Some? ==> ReadsSet(nodes, bound, a.selectionSet.value, selectionSet.value))
    case FragmentSpread(name, directives) =>
      a.SpreadNode? && a.name == name && ReadsDirectives(nodes, bound, a.directives, directives)
    case InlineFragment(cond, directives, inner) =>
      && a.InlineNode? && a.typeCondition == cond
      && ReadsDirectives(nodes, bound, a.directives, directives)
      && ReadsSet(nodes, bound, a.selections, inner)
  }

  ghost predicate ReadsVariables(nodes: seq<Node>, bound: nat, items: seq<Node>, vs: seq<VariableDefinition>)
    decreases |vs|
  {
    && |items| == |vs|
    && (vs != [] ==>
          var n := |vs| - 1;
          && ReadsVariables(nodes, bound, items[..n], vs[..n])
          && ReadsVariable(nodes, bound, items[n], vs[n]))
  }

  ghost predicate ReadsVariable(nodes: seq<Node>, bound: nat, a: Node, v: VariableDefinition) {
    && a.VariableItem? && a.name == v.name && a.varType == v.varType
    && a.default.Some? == v.default.Some?
    && (v.default.Some? ==> ReadsValue(nodes, bound, a.default.value, v.default.value))
    && ReadsDirectives(nodes, bound, a.directives, v.directives)
  }

  ghost predicate ReadsDefinition(nodes: seq<Node>, bound: nat, a: ArenaDefinition, def: Definition) {
    match def
    case Shorthand(set_, span) =>
      && a.OperationNode? && a.shorthand && a.kind == Query && a.opName == None && a.span == span
      && a.variables.len == 0 && a.directives.len == 0
      && ReadsSet(nodes, bound, a.selectionSet, set_)
    case Operation(kind, name, variables, directives, set_, span) =>
      && a.OperationNode? && !a.shorthand && a.kind == kind && a.opName == name && a.span == span
      && Below(nodes, bound, a.variables)
      && ReadsVariables(nodes, a.variables.start, Slice(nodes, a.variables), Listed(variables))
      && ReadsDirectives(nodes, bound, a.directives, directives)
      && ReadsSet(nodes, bound, a.selectionSet, set_)
    case Fragment(name, cond, directives, set_, span) =>
      && a.FragmentNode? && a.name == name && a.typeCondition == cond && a.span == span
      && ReadsDirectives(nodes, bound, a.directives, directives)
      && ReadsSet(nodes, bound, a.selectionSet, set_)
  }

  ghost predicate ReadsDefinitions(nodes: seq<Node>, bound: nat, items: seq<Node>, defs: seq<Definition>)
    decreases |defs|
  {
    && |items| == |defs|
    && (defs != [] ==>
          var n := |defs| - 1;
          && items[n].DefinitionItem?
          && ReadsDefinitions(nodes, bound, items[..n], defs[..n])
          && ReadsDefinition(nodes, bound, items[n].definition, defs[n]))
  }

  ghost predicate ReadsDocument(doc: Document, defs: seq<Definition>) {
    && Below(doc.nodes, |doc.nodes|, doc.definitions)
    && ReadsDefinitions(doc.nodes, doc.definitions.start, Slice(doc.nodes, doc.definitions), defs)
  }

  // ----- a laid-out tree reads back as itself -----

  /** `part` sits in the arena at `base`, below `bound`. */
  predicate Sits(nodes: seq<Node>, base: nat, part: seq<Node>, bound: nat) {
    base + |part| <= bound <= |nodes| && nodes[base..base + |part|] == part
  }

  lemma {:induction false} SitsSplit(nodes: seq<Node>, base: nat, a: seq<Node>, b: seq<Node>, bound: nat)
    requires Sits(nodes, base, a + b, bound)
    ensures Sits(nodes, base, a, bound) && Sits(nodes, base + |a|, b, bound)
  {
    assert nodes[base..base + |a|] == (a + b)[..|a|] == a;
    assert nodes[base + |a|..base + |a| + |b|] == (a + b)[|a|..] == b;
  }

  /** A closed list: its range is below the bound, holds the elements, and what is inside the
      elements sits below the range. */
  lemma {:induction false} SitsClosed(nodes: seq<Node>, base: nat, list: Items, bound: nat)
    requires Sits(nodes, base, Close(list, base).nodes, bound)
    ensures var r := Close(list, base).value;
      && Below(nodes, bound, r) && Slice(nodes, r) == list.items
      && Sits(nodes, base, list.nodes, r.start)
  {
    SitsSplit(nodes, base, list.nodes, list.items, bound);
  }

  lemma {:induction false} ValueReads(nodes: seq<Node>, base: nat, v: Value, bound: nat)
    requires Sits(nodes, base, LayValue(v, base).nodes, bound)
    ensures ReadsValue(nodes, bound, LayValue(v, base).value, v)
    decreases v, 0
  {
    hide LayItems, LayFields, ReadsItems, ReadsFields, Slice, Sits, Below;
    match v
    case List(items) =>
      var list := LayItems(items, base);
      SitsClosed(nodes, base, list, bound);
      ItemsRead(nodes, base, items, base + |list.nodes|);
    case Object(fields) =>
      var list := LayFields(fields, base);
      SitsClosed(nodes, base, list, bound);
      FieldsRead(nodes, base, fields, base + |list.nodes|);
    case _ =>
  }

  lemma {:induction false} ItemsAppend(nodes: seq<Node>, bound: nat, items: seq<Node>, vs: seq<Value>, a: ArenaValue,
                                       v: Value)
    requires ReadsItems(nodes, bound, items, vs) && ReadsValue(nodes, bound, a, v)
    ensures ReadsItems(nodes, bound, items + [ValueItem(a)], vs + [v])
  {
    assert (items + [ValueItem(a)])[..|items|] == items && (vs + [v])[..|vs|] == vs;
  }

  lemma {:induction false} ItemsRead(nodes: seq<Node>, base: nat, vs: seq<Value>, bound: nat)
    requires Sits(nodes, base, LayItems(vs, base).nodes, bound)
    ensures ReadsItems(nodes, bound, LayItems(vs, base).items, vs)
    decreases vs, 1
  {
    hide LayValue, ReadsValue, Sits;
    if vs != [] {
      hide LayItems, ReadsItems;
      var x, rest := vs[|vs|-1], vs[..|vs|-1];
      assert vs == rest + [x];
      var before := LayItems(rest, base);
      var last := LayValue(x, base + |before.nodes|);
      ItemsNext(rest, x, base);
      SitsSplit(nodes, base, before.nodes, last.nodes, bound);
      ItemsRead(nodes, base, rest, bound);
      ValueReads(nodes, base + |before.nodes|, x, bound);
      ItemsAppend(nodes, bound, before.items, rest, last.value, x);
    }
  }

  lemma {:induction false} FieldsAppend(nodes: seq<Node>, bound: nat, items: seq<Node>, es: seq<Entry>, a: ArenaValue,
                                        e: Entry)
    requires ReadsFields(nodes, bound, items, es) && ReadsEntry(nodes, bound, e.name, a, e)
    ensures ReadsFields(nodes, bound, items + [ObjectFieldItem(e.name, a)], es + [e])
  {
    assert (items + [ObjectFieldItem(e.name, a)])[..|items|] == items && (es + [e])[..|es|] == es;
  }

  lemma {:induction false} FieldsRead(nodes: seq<Node>, base: nat, es: seq<Entry>, bound: nat)
    requires Sits(nodes, base, LayFields(es, base).nodes, bound)
    ensures ReadsFields(nodes, bound, LayFields(es, base).items, es)
    decreases es, 1
  {
    hide LayValue, ReadsEntry, Sits;
    if es != [] {
      hide LayFields, ReadsFields;
      var x, rest := es[|es|-1], es[..|es|-1];
      assert es == rest + [x];
      var before := LayFields(rest, base);
      var last := LayValue(x.value, base + |before.nodes|);
      FieldsNext(rest, x, base);
      SitsSplit(nodes, base, before.nodes, last.nodes, bound);
      FieldsRead(nodes, base, rest, bound);
      EntryReads(nodes, base + |before.nodes|, x, bound);
      FieldsAppend(nodes, bound, before.items, rest, last.value, x);
    }
  }

  lemma {:induction false} EntryReads(nodes: seq<Node>, base: nat, e: Entry, bound: nat)
    requires Sits(nodes, base, LayValue(e.value, base).nodes, bound)
    ensures ReadsEntry(nodes, bound, e.name, LayValue(e.value, base).value, e)
    decreases e, 0
  {
    ValueReads(nodes, base, e.value, bound);
  }

  lemma {:induction false} ArgsAppend(nodes: seq<Node>, bound: nat, items: seq<Node>, es: seq<Entry>, a: ArenaValue,
                                      e: Entry)
    requires ReadsArgs(nodes, bound, items, es) && ReadsEntry(nodes, bound, e.name, a, e)
    ensures ReadsArgs(nodes, bound, items + [ArgumentItem(e.name, a)], es + [e])
  {
    assert (items + [ArgumentItem(e.name, a)])[..|items|] == items && (es + [e])[..|es|] == es;
  }

  lemma {:induction false} ArgsRead(nodes: seq<Node>, base: nat, es: seq<Entry>, bound: nat)
    requires Sits(nodes, base, LayArgs(es, base).nodes, bound)
    ensures ReadsArgs(nodes, bound, LayArgs(es, base).items, es)
    decreases |es|
  {
    hide LayValue, ReadsEntry, Sits;
    if es != [] {
      hide LayArgs, ReadsArgs;
      var x, rest := es[|es|-1], es[..|es|-1];
      assert es == rest + [x];
      var before := LayArgs(rest, base);
      var last := LayValue(x.value, base + |before.nodes|);
      ArgsNext(rest, x, base);
      SitsSplit(nodes, base, before.nodes, last.nodes, bound);
      ArgsRead(nodes, base, rest, bound);
      EntryReads(nodes, base + |before.nodes|, x, bound);
      ArgsAppend(nodes, bound, before.items, rest, last.value, x);
    }
  }

  lemma {:induction false} ArgumentsRead(nodes: seq<Node>, base: nat, args: Option<seq<Entry>>, bound: nat)
    requires Sits(nodes, base, LayArguments(args, base).nodes, bound)
    ensures ReadsArguments(nodes, bound, LayArguments(args, base).value, args)
  {
    if args.Some? {
      hide LayArgs, ReadsArgs;
      SitsClosed(nodes, base, LayArgs(args.value, base), bound);
      ArgsRead(nodes, base, args.value, base + |LayArgs(args.value, base).nodes|);
    }
  }

  lemma {:induction false} DirectiveItemsAppend(nodes: seq<Node>, bound: nat, items: seq<Node>, ds: seq<Directive>,
                                                a: NodeRange, d: Directive)
    requires ReadsDirectiveItems(nodes, bound, items, ds) && ReadsArguments(nodes, bound, a, d.arguments)
    ensures ReadsDirectiveItems(nodes, bound, items + [DirectiveItem(d.name, a)], ds + [d])
  {
    assert (items + [DirectiveItem(d.name, a)])[..|items|] == items && (ds + [d])[..|ds|] == ds;
  }

  lemma {:induction false} DirectiveItemsRead(nodes: seq<Node>, base: nat, ds: seq<Directive>, bound: nat)
    requires Sits(nodes, base, LayDirectives(ds, base).nodes, bound)
    ensures ReadsDirectiveItems(nodes, bound, LayDirectives(ds, base).items, ds)
    decreases |ds|
  {
    hide LayArguments, ReadsArguments, Sits;
    if ds != [] {
      hide LayDirectives, ReadsDirectiveItems;
      var x, rest := ds[|ds|-1], ds[..|ds|-1];
      assert ds == rest + [x];
      var before := LayDirectives(rest, base);
      var last := LayArguments(x.arguments, base + |before.nodes|);
      DirectivesNext(rest, x, base);
      SitsSplit(nodes, base, before.nodes, last.nodes, bound);
      DirectiveItemsRead(nodes, base, rest, bound);
      ArgumentsRead(nodes, base + |before.nodes|, x.arguments, bound);
      DirectiveItemsAppend(nodes, bound, before.items, rest, last.value, x);
    }
  }

  lemma {:induction false} DirectivesRead(nodes: seq<Node>, base: nat, ds: seq<Directive>, bound: nat)
    requires Sits(nodes, base, Close(LayDirectives(ds, base), base).nodes, bound)
    ensures ReadsDirectives(nodes, bound, Close(LayDirectives(ds, base), base).value, ds)
  {
    hide LayDirectives, ReadsDirectiveItems;
    SitsClosed(nodes, base, LayDirectives(ds, base), bound);
    DirectiveItemsRead(nodes, base, ds, base + |LayDirectives(ds, base).nodes|);
  }

  lemma {:induction false} SetReads(nodes: seq<Node>, base: nat, set_: SelectionSet, bound: nat)
    requires Sits(nodes, base, LaySet(set_, base).nodes, bound)
    ensures ReadsSet(nodes, bound, LaySet(set_, base).value, set_)
    decreases set_, 2
  {
    hide LaySelections, ReadsSelections;
    var list := LaySelections(set_.selections, base);
    SitsClosed(nodes, base, list, bound);
    SelectionsRead(nodes, base, set_.selections, base + |list.nodes|);
  }

  lemma {:induction false} SelectionsAppend(nodes: seq<Node>, bound: nat, items: seq<Node>, sels: seq<Selection>,
                                            a: ArenaSelection, sel: Selection)
    requires ReadsSelections(nodes, bound, items, sels) && ReadsSelection(nodes, bound, a, sel)
    ensures ReadsSelections(nodes, bound, items + [SelectionItem(a)], sels + [sel])
  {
    assert (items + [SelectionItem(a)])[..|items|] == items && (sels + [sel])[..|sels|] == sels;
  }

  lemma {:induction false} SelectionsRead(nodes: seq<Node>, base: nat, sels: seq<Selection>, bound: nat)
    requires Sits(nodes, base, LaySelections(sels, base).nodes, bound)
    ensures ReadsSelections(nodes, bound, LaySelections(sels, base).items, sels)
    decreases sels, 1
  {
    hide LaySelection, ReadsSelection, Sits;
    if sels != [] {
      hide LaySelections, ReadsSelections;
      var x, rest := sels[|sels|-1], sels[..|sels|-1];
      assert sels == rest + [x];
      var before := LaySelections(rest, base);
      var last := LaySelection(x, base + |before.nodes|);
      SelectionsNext(rest, x, base);
      SitsSplit(nodes, base, before.nodes, last.nodes, bound);
      SelectionsRead(nodes, base, rest, bound);
      SelectionReads(nodes, base + |before.nodes|, x, bound);
      SelectionsAppend(nodes, bound, before.items, rest, last.value, x);
    }
  }

  lemma {:induction false} BodyReads(nodes: seq<Node>, base: nat, ds: seq<Directive>, set_: SelectionSet, bound: nat)
    requires Sits(nodes, base, LayBody(ds, set_, base).nodes, bound)
    ensures ReadsDirectives(nodes, bound, LayBody(ds, set_, base).value.0, ds)
    ensures ReadsSet(nodes, bound, LayBody(ds, set_, base).value.1, set_)
    decreases set_, 3
  {
    hide LayDirectives, LaySet, ReadsDirectives, ReadsSet;
    var d := Close(LayDirectives(ds, base), base);
    var l := LaySet(set_, base + |d.nodes|);
    SitsSplit(nodes, base, d.nodes, l.nodes, bound);
    DirectivesRead(nodes, base, ds, bound);
    SetReads(nodes, base + |d.nodes|, set_, bound);
  }

  lemma {:induction false} SelectionReads(nodes: seq<Node>, base: nat, sel: Selection, bound: nat)
    requires Sits(nodes, base, LaySelection(sel, base).nodes, bound)
    ensures ReadsSelection(nodes, bound, LaySelection(sel, base).value, sel)
    decreases sel, 0
  {
    hide LayDirectives, LayArguments, LayBody, LaySet, ReadsArguments, ReadsDirectives, ReadsSet;
    match sel
    case Field(alias, name, arguments, directives, selectionSet) =>
      var a := LayArguments(arguments, base);
      var t := LayTail(directives, selectionSet, base + |a.nodes|);
      SitsSplit(nodes, base, a.nodes, t.nodes, bound);
      ArgumentsRead(nodes, base, arguments, bound);
      if selectionSet.Some? {
        BodyReads(nodes, base + |a.nodes|, directives, selectionSet.value, bound);
      } else {
        DirectivesRead(nodes, base + |a.nodes|, directives, bound);
      }
    case FragmentSpread(name, directives) =>
      DirectivesRead(nodes, base, directives, bound);
    case InlineFragment(cond, directives, inner) =>
      BodyReads(nodes, base, directives, inner, bound);
  }

  lemma {:induction false} VariableReads(nodes: seq<Node>, base: nat, v: VariableDefinition, bound: nat)
    requires Sits(nodes, base, LayVariable(v, base).nodes, bound)
    ensures ReadsVariable(nodes, bound, LayVariable(v, base).value, v)
  {
    hide LayDirectives, LayValue, ReadsDirectives, ReadsValue;
    var default_ := LayDefault(v.default, base);
    var d := Close(LayDirectives(v.directives, base + |default_.nodes|), base + |default_.nodes|);
    SitsSplit(nodes, base, default_.nodes, d.nodes, bound);
    if v.default.Some? {
      ValueReads(nodes, base, v.default.value, bound);
    }
    DirectivesRead(nodes, base + |default_.nodes|, v.directives, bound);
  }

  lemma {:induction false} VariablesAppend(nodes: seq<Node>, bound: nat, items: seq<Node>, vs: seq<VariableDefinition>,
                                           a: Node, v: VariableDefinition)
    requires ReadsVariables(nodes, bound, items, vs) && ReadsVariable(nodes, bound, a, v)
    ensures ReadsVariables(nodes, bound, items + [a], vs + [v])
  {
    assert (items + [a])[..|items|] == items && (vs + [v])[..|vs|] == vs;
  }

  lemma {:induction false} VariablesRead(nodes: seq<Node>, base: nat, vs: seq<VariableDefinition>, bound: nat)
    requires Sits(nodes, base, LayVariables(vs, base).nodes, bound)
    ensures ReadsVariables(nodes, bound, LayVariables(vs, base).items, vs)
    decreases |vs|
  {
    hide LayVariable, ReadsVariable, Sits;
    if vs != [] {
      hide LayVariables, ReadsVariables;
      var x, rest := vs[|vs|-1], vs[..|vs|-1];
      assert vs == rest + [x];
      var before := LayVariables(rest, base);
      var last := LayVariable(x, base + |before.nodes|);
      VariablesNext(rest, x, base);
      SitsSplit(nodes, base, before.nodes, last.nodes, bound);
      VariablesRead(nodes, base, rest, bound);
      VariableReads(nodes, base + |before.nodes|, x, bound);
      VariablesAppend(nodes, bound, before.items, rest, last.value, x);
    }
  }

  lemma {:induction false} NoVariables(nodes: seq<Node>)
    ensures ReadsVariables(nodes, 0, [], [])
  {
  }

  lemma {:induction false} DefinitionReads(nodes: seq<Node>, base: nat, def: Definition, bound: nat)
    requires Sits(nodes, base, LayDefinition(def, base).nodes, bound)
    ensures ReadsDefinition(nodes, bound, LayDefinition(def, base).value, def)
  {
    hide LayVariables, LayBody, LaySet, ReadsVariables, ReadsDirectives, ReadsSet;
    match def
    case Shorthand(set_, span) =>
      SetReads(nodes, base, set_, bound);
    case Operation(kind, name, variables, directives, set_, span) =>
      var v := LayOptVariables(variables, base);
      var b := LayBody(directives, set_, base + |v.nodes|);
      SitsSplit(nodes, base, v.nodes, b.nodes, bound);
      if variables.Some? {
        SitsClosed(nodes, base, LayVariables(variables.value, base), bound);
        VariablesRead(nodes, base, variables.value, base + |LayVariables(variables.value, base).nodes|);
      } else {
        NoVariables(nodes);
      }
      BodyReads(nodes, base + |v.nodes|, directives, set_, bound);
    case Fragment(name, cond, directives, set_, span) =>
      BodyReads(nodes, base, directives, set_, bound);
  }

  lemma {:induction false} DefinitionsAppend(nodes: seq<Node>, bound: nat, items: seq<Node>, defs: seq<Definition>,
                                             a: ArenaDefinition, def: Definition)
    requires ReadsDefinitions(nodes, bound, items, defs) && ReadsDefinition(nodes, bound, a, def)
    ensures ReadsDefinitions(nodes, bound, items + [DefinitionItem(a)], defs + [def])
  {
    assert (items + [DefinitionItem(a)])[..|items|] == items && (defs + [def])[..|defs|] == defs;
  }

  lemma {:induction false} DefinitionsRead(nodes: seq<Node>, base: nat, defs: seq<Definition>, bound: nat)
    requires Sits(nodes, base, LayDefinitions(defs, base).nodes, bound)
    ensures ReadsDefinitions(nodes, bound, LayDefinitions(defs, base).items, defs)
    decreases |defs|
  {
    hide LayDefinition, ReadsDefinition, Sits;
    if defs != [] {
      hide LayDefinitions, ReadsDefinitions;
      var x, rest := defs[|defs|-1], defs[..|defs|-1];
      assert defs == rest + [x];
      var before := LayDefinitions(rest, base);
      var last := LayDefinition(x, base + |before.nodes|);
      DefinitionsNext(rest, x, base);
      SitsSplit(nodes, base, before.nodes, last.nodes, bound);
      DefinitionsRead(nodes, base, rest, bound);
      DefinitionReads(nodes, base + |before.nodes|, x, bound);
      DefinitionsAppend(nodes, bound, before.items, rest, last.value, x);
    }
  }

  /** Every document laid out from a tree reads back as that tree: all ranges are in bounds, all
      nodes have the kind their accessor expects, and children sit below their owner's range. */
  lemma {:induction false} DocumentReads(defs: seq<Definition>)
    ensures ReadsDocument(LayDocument(defs), defs)
  {
    hide LayDefinitions, ReadsDefinitions;
    var list := LayDefinitions(defs, 0);
    var doc := LayDocument(defs);
    assert doc.nodes[0..0 + |doc.nodes|] == doc.nodes;
    SitsClosed(doc.nodes, 0, list, |doc.nodes|);
    DefinitionsRead(doc.nodes, 0, defs, |list.nodes|);
  }
}
