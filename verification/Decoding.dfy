/** An arena stands for one tree only: what reads through the accessors of magna-gqlmin `parse/mod.rs`
    determines the tree, except that `()` reads like no parentheses. */
module Decoding {
  import opened Basics
  import opened Syntax
  import opened Arena
  import opened Reading

  // ----- trees with every optional list written out -----

  function LooseDirectives(ds: seq<Directive>): seq<Directive> {
    if ds == [] then [] else
      var n := |ds| - 1;
      LooseDirectives(ds[..n]) + [Directive(ds[n].name, Some(Listed(ds[n].arguments)))]
  }

  function LooseSet(set_: SelectionSet): SelectionSet
    decreases set_, 2
  {
    SelectionSet(LooseSelections(set_.selections), set_.span)
  }

  function LooseSelections(sels: seq<Selection>): seq<Selection>
    decreases sels, 1
  {
    if sels == [] then [] else LooseSelections(sels[..|sels|-1]) + [LooseSelection(sels[|sels|-1])]
  }

  function LooseInner(inner: Option<SelectionSet>): Option<SelectionSet>
    decreases inner, 3
  {
    match inner
    case None => None
    case Some(set_) => Some(LooseSet(set_))
  }

  function LooseSelection(sel: Selection): Selection
    decreases sel, 0
  {
    match sel
    case Field(alias, name, arguments, directives, inner) =>
      Field(alias, name, Some(Listed(arguments)), LooseDirectives(directives), LooseInner(inner))
    case FragmentSpread(name, directives) => FragmentSpread(name, LooseDirectives(directives))
    case InlineFragment(cond, directives, inner) => InlineFragment(cond, LooseDirectives(directives), LooseSet(inner))
  }

  function LooseVariable(v: VariableDefinition): VariableDefinition {
    v.(directives := LooseDirectives(v.directives))
  }

  function LooseVariables(vs: seq<VariableDefinition>): seq<VariableDefinition> {
    if vs == [] then [] else LooseVariables(vs[..|vs|-1]) + [LooseVariable(vs[|vs|-1])]
  }

  function LooseDefinition(def: Definition): Definition {
    match def
    case Shorthand(set_, span) => Shorthand(LooseSet(set_), span)
    case Operation(kind, name, variables, directives, set_, span) =>
      Operation(kind, name, Some(LooseVariables(Listed(variables))), LooseDirectives(directives), LooseSet(set_), span)
    case Fragment(name, cond, directives, set_, span) =>
      Fragment(name, cond, LooseDirectives(directives), LooseSet(set_), span)
  }

  function LooseDocument(defs: seq<Definition>): seq<Definition> {
    if defs == [] then [] else LooseDocument(defs[..|defs|-1]) + [LooseDefinition(defs[|defs|-1])]
  }

  // ----- reading is a function -----

  lemma {:induction false} ValueUnique(nodes: seq<Node>, bound: nat, a: ArenaValue, v: Value, w: Value)
    requires ReadsValue(nodes, bound, a, v) && ReadsValue(nodes, bound, a, w)
    ensures v == w
    decreases v, 0
  {
    hide ReadsItems, ReadsFields, Slice;
    if v.List? {
      ItemsUnique(nodes, a.range.start, Slice(nodes, a.range), v.items, w.items);
    } else if v.Object? {
      FieldsUnique(nodes, a.range.start, Slice(nodes, a.range), v.fields, w.fields);
    }
  }

  lemma {:induction false} ItemsUnique(nodes: seq<Node>, bound: nat, items: seq<Node>, vs: seq<Value>, ws: seq<Value>)
    requires ReadsItems(nodes, bound, items, vs) && ReadsItems(nodes, bound, items, ws)
    ensures vs == ws
    decreases vs, 1
  {
    hide ReadsValue;
    if vs != [] {
      var n := |vs| - 1;
      ItemsUnique(nodes, bound, items[..n], vs[..n], ws[..n]);
      ValueUnique(nodes, bound, items[n].value, vs[n], ws[n]);
      assert vs == vs[..n] + [vs[n]] && ws == ws[..n] + [ws[n]];
    }
  }

  lemma {:induction false} EntryUnique(nodes: seq<Node>, bound: nat, name: Name, a: ArenaValue, e: Entry, f: Entry)
    requires ReadsEntry(nodes, bound, name, a, e) && ReadsEntry(nodes, bound, name, a, f)
    ensures e == f
    decreases e, 0
  {
    ValueUnique(nodes, bound, a, e.value, f.value);
  }

  lemma {:induction false} FieldsUnique(nodes: seq<Node>, bound: nat, items: seq<Node>, es: seq<Entry>, fs: seq<Entry>)
    requires ReadsFields(nodes, bound, items, es) && ReadsFields(nodes, bound, items, fs)
    ensures es == fs
    decreases es, 1
  {
    hide ReadsEntry;
    if es != [] {
      var n := |es| - 1;
      FieldsUnique(nodes, bound, items[..n], es[..n], fs[..n]);
      EntryUnique(nodes, bound, items[n].name, items[n].value, es[n], fs[n]);
      assert es == es[..n] + [es[n]] && fs == fs[..n] + [fs[n]];
    }
  }

  lemma {:induction false} ArgsUnique(nodes: seq<Node>, bound: nat, items: seq<Node>, es: seq<Entry>, fs: seq<Entry>)
    requires ReadsArgs(nodes, bound, items, es) && ReadsArgs(nodes, bound, items, fs)
    ensures es == fs
    decreases |es|
  {
    hide ReadsEntry;
    if es != [] {
      var n := |es| - 1;
      ArgsUnique(nodes, bound, items[..n], es[..n], fs[..n]);
      EntryUnique(nodes, bound, items[n].name, items[n].value, es[n], fs[n]);
      assert es == es[..n] + [es[n]] && fs == fs[..n] + [fs[n]];
    }
  }

  lemma {:induction false} ArgumentsUnique(nodes: seq<Node>, bound: nat, r: NodeRange, a: Option<seq<Entry>>,
                                           b: Option<seq<Entry>>)
    requires ReadsArguments(nodes, bound, r, a) && ReadsArguments(nodes, bound, r, b)
    ensures Listed(a) == Listed(b)
  {
    hide ReadsArgs, Slice;
    ArgsUnique(nodes, r.start, Slice(nodes, r), Listed(a), Listed(b));
  }

  lemma {:induction false} DirectiveItemsUnique(nodes: seq<Node>, bound: nat, items: seq<Node>, ds: seq<Directive>,
                                                es: seq<Directive>)
    requires ReadsDirectiveItems(nodes, bound, items, ds) && ReadsDirectiveItems(nodes, bound, items, es)
    ensures LooseDirectives(ds) == LooseDirectives(es)
    decreases |ds|
  {
    hide ReadsArguments;
    if ds != [] {
      var n := |ds| - 1;
      DirectiveItemsUnique(nodes, bound, items[..n], ds[..n], es[..n]);
      ArgumentsUnique(nodes, bound, items[n].arguments, ds[n].arguments, es[n].arguments);
    }
  }

  lemma {:induction false} DirectivesUnique(nodes: seq<Node>, bound: nat, r: NodeRange, ds: seq<Directive>,
                                            es: seq<Directive>)
    requires ReadsDirectives(nodes, bound, r, ds) && ReadsDirectives(nodes, bound, r, es)
    ensures LooseDirectives(ds) == LooseDirectives(es)
  {
    hide ReadsDirectiveItems, LooseDirectives, Slice;
    DirectiveItemsUnique(nodes, r.start, Slice(nodes, r), ds, es);
  }

  lemma {:induction false} SetUnique(nodes: seq<Node>, bound: nat, a: ArenaSet, s: SelectionSet, t: SelectionSet)
    requires ReadsSet(nodes, bound, a, s) && ReadsSet(nodes, bound, a, t)
    ensures LooseSet(s) == LooseSet(t)
    decreases s, 2
  {
    hide ReadsSelections, LooseSelections, Slice;
    SelectionsUnique(nodes, a.selections.start, Slice(nodes, a.selections), s.selections, t.selections);
  }

  lemma {:induction false} SelectionsUnique(nodes: seq<Node>, bound: nat, items: seq<Node>, ss: seq<Selection>,
                                            ts: seq<Selection>)
    requires ReadsSelections(nodes, bound, items, ss) && ReadsSelections(nodes, bound, items, ts)
    ensures LooseSelections(ss) == LooseSelections(ts)
    decreases ss, 1
  {
    hide ReadsSelection, LooseSelection;
    if ss != [] {
      var n := |ss| - 1;
      SelectionsUnique(nodes, bound, items[..n], ss[..n], ts[..n]);
      SelectionUnique(nodes, bound, items[n].selection, ss[n], ts[n]);
    }
  }

  lemma {:induction false} SelectionUnique(nodes: seq<Node>, bound: nat, a: ArenaSelection, s: Selection, t: Selection)
    requires ReadsSelection(nodes, bound, a, s) && ReadsSelection(nodes, bound, a, t)
    ensures LooseSelection(s) == LooseSelection(t)
    decreases s, 0
  {
    hide ReadsArguments, ReadsDirectives, ReadsSet, LooseDirectives, LooseSet;
    DirectivesUnique(nodes, bound, a.directives, s.directives, t.directives);
    match s
    case Field(_, _, arguments, _, inner) =>
      ArgumentsUnique(nodes, bound, a.arguments, arguments, t.arguments);
      if inner.Some? {
        SetUnique(nodes, bound, a.selectionSet.value, inner.value, t.selectionSet.value);
      }
    case FragmentSpread(_, _) =>
    case InlineFragment(_, _, inner) => SetUnique(nodes, bound, a.selections, inner, t.selections);
  }

  lemma {:induction false} VariableUnique(nodes: seq<Node>, bound: nat, a: Node, v: VariableDefinition,
                                          w: VariableDefinition)
    requires ReadsVariable(nodes, bound, a, v) && ReadsVariable(nodes, bound, a, w)
    ensures LooseVariable(v) == LooseVariable(w)
  {
    hide ReadsValue, ReadsDirectives, LooseDirectives;
    if v.default.Some? {
      ValueUnique(nodes, bound, a.default.value, v.default.value, w.default.value);
    }
    DirectivesUnique(nodes, bound, a.directives, v.directives, w.directives);
  }

  lemma {:induction false} VariablesUnique(nodes: seq<Node>, bound: nat, items: seq<Node>, vs: seq<VariableDefinition>,
                                           ws: seq<VariableDefinition>)
    requires ReadsVariables(nodes, bound, items, vs) && ReadsVariables(nodes, bound, items, ws)
    ensures LooseVariables(vs) == LooseVariables(ws)
    decreases |vs|
  {
    hide ReadsVariable, LooseVariable;
    if vs != [] {
      var n := |vs| - 1;
      VariablesUnique(nodes, bound, items[..n], vs[..n], ws[..n]);
      VariableUnique(nodes, bound, items[n], vs[n], ws[n]);
    }
  }

  lemma {:induction false} DefinitionUnique(nodes: seq<Node>, bound: nat, a: ArenaDefinition, d: Definition,
                                            e: Definition)
    requires ReadsDefinition(nodes, bound, a, d) && ReadsDefinition(nodes, bound, a, e)
    ensures LooseDefinition(d) == LooseDefinition(e)
  {
    hide ReadsSet, ReadsDirectives, ReadsVariables, LooseSet, LooseDirectives, LooseVariables, Slice;
    SetUnique(nodes, bound, a.selectionSet, d.selectionSet, e.selectionSet);
    if !d.Shorthand? {
      DirectivesUnique(nodes, bound, a.directives, d.directives, e.directives);
    }
    if d.Operation? {
      VariablesUnique(nodes, a.variables.start, Slice(nodes, a.variables), Listed(d.variables), Listed(e.variables));
    }
  }

  lemma {:induction false} DefinitionsUnique(nodes: seq<Node>, bound: nat, items: seq<Node>, ds: seq<Definition>,
                                             es: seq<Definition>)
    requires ReadsDefinitions(nodes, bound, items, ds) && ReadsDefinitions(nodes, bound, items, es)
    ensures LooseDocument(ds) == LooseDocument(es)
    decreases |ds|
  {
    hide ReadsDefinition, LooseDefinition;
    if ds != [] {
      var n := |ds| - 1;
      DefinitionsUnique(nodes, bound, items[..n], ds[..n], es[..n]);
      DefinitionUnique(nodes, bound, items[n].definition, ds[n], es[n]);
    }
  }

  /** Two trees that a document reads as are equal, up to `()` and no parentheses. */
  lemma {:induction false} DocumentReadsOnce(doc: Document, ds: seq<Definition>, es: seq<Definition>)
    requires ReadsDocument(doc, ds) && ReadsDocument(doc, es)
    ensures LooseDocument(ds) == LooseDocument(es)
  {
    hide ReadsDefinitions, LooseDocument, Slice;
    DefinitionsUnique(doc.nodes, doc.definitions.start, Slice(doc.nodes, doc.definitions), ds, es);
  }
}
