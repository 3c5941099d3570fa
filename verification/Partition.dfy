/** The ranges of a parsed document partition its arena: every node belongs to exactly one list
    (magna-gqlmin `parse/mod.rs`, `open_list` and `close_list`). */
module Partition {
  import opened Basics
  import opened Syntax
  import opened Arena

  // ----- how many ranges hold index `k` -----

  function In(r: NodeRange, k: nat): nat {
    if r.start <= k < r.start + r.len then 1 else 0
  }

  function InValue(a: ArenaValue, k: nat): nat {
    match a
    case ListRange(r) => In(r, k)
    case ObjectRange(r) => In(r, k)
    case _ => 0
  }

  function InSelection(a: ArenaSelection, k: nat): nat {
    match a
    case FieldNode(_, _, arguments, directives, set_) =>
      In(arguments, k) + (In(directives, k) + if set_.None? then 0 else In(set_.value.selections, k))
    case SpreadNode(_, directives) => In(directives, k)
    case InlineNode(_, directives, inner) => In(directives, k) + In(inner.selections, k)
  }

  function InDefinition(a: ArenaDefinition, k: nat): nat {
    match a
    case OperationNode(_, _, variables, directives, set_, _, _) =>
      In(variables, k) + (In(directives, k) + In(set_.selections, k))
    case FragmentNode(_, _, directives, set_, _) => In(directives, k) + In(set_.selections, k)
  }

  function InNode(n: Node, k: nat): nat {
    match n
    case DefinitionItem(d) => InDefinition(d, k)
    case VariableItem(_, _, default_, directives) =>
      InDefault(default_, k) + In(directives, k)
    case DirectiveItem(_, arguments) => In(arguments, k)
    case ArgumentItem(_, v) => InValue(v, k)
    case SelectionItem(s) => InSelection(s, k)
    case ObjectFieldItem(_, v) => InValue(v, k)
    case ValueItem(v) => InValue(v, k)
  }

  /** The number of ranges, in all of these nodes, that hold index `k`. */
  function Holders(nodes: seq<Node>, k: nat): nat {
    if nodes == [] then 0 else Holders(nodes[..|nodes|-1], k) + InNode(nodes[|nodes|-1], k)
  }

  lemma {:induction false} HoldersConcat(a: seq<Node>, b: seq<Node>, k: nat)
    ensures Holders(a + b, k) == Holders(a, k) + Holders(b, k)
    decreases |b|
  {
    hide InNode;
    if b == [] {
      assert a + b == a;
    } else {
      HoldersConcat(a, b[..|b|-1], k);
      assert (a + b)[..|a + b|-1] == a + b[..|b|-1] && (a + b)[|a + b|-1] == b[|b|-1];
    }
  }

  lemma {:induction false} HoldersOne(n: Node, k: nat)
    ensures Holders([n], k) == InNode(n, k)
  {
    hide InNode;
    assert Holders([n], k) == Holders([], k) + InNode(n, k);
  }

  /** `k` is held once when it is one of the `len` indices from `base` on, and never otherwise. */
  predicate Once(count: nat, base: nat, len: nat, k: nat) {
    count == if base <= k < base + len then 1 else 0
  }

  /** The parts of a list: what is inside its elements is held once, by nodes or elements. */
  predicate OnceItems(l: Items, base: nat, k: nat) {
    Once(Holders(l.nodes, k) + Holders(l.items, k), base, |l.nodes|, k)
  }

  lemma {:induction false} CloseOnce(l: Items, base: nat, k: nat)
    requires OnceItems(l, base, k)
    ensures var c := Close(l, base); Once(Holders(c.nodes, k) + In(c.value, k), base, |c.nodes|, k)
  {
    HoldersConcat(l.nodes, l.items, k);
  }

  lemma {:induction false} NothingOnce(base: nat, k: nat)
    ensures OnceItems(Items([], []), base, k)
  {
  }

  /** One more element, whose own ranges and nodes hold what lies after the list so far. */
  lemma {:induction false} NextOnce(before: Items, n: Node, nodes: seq<Node>, base: nat, k: nat)
    requires OnceItems(before, base, k)
    requires Once(Holders(nodes, k) + InNode(n, k), base + |before.nodes|, |nodes|, k)
    ensures OnceItems(Items(before.items + [n], before.nodes + nodes), base, k)
  {
    hide Holders, InNode;
    HoldersConcat(before.items, [n], k);
    HoldersConcat(before.nodes, nodes, k);
    HoldersOne(n, k);
  }

  // ----- every production -----

  lemma {:induction false} ValueOnce(v: Value, base: nat, k: nat)
    ensures var l := LayValue(v, base); Once(Holders(l.nodes, k) + InValue(l.value, k), base, |l.nodes|, k)
    decreases v, 0
  {
    match v
    case List(items) =>
      ItemsOnce(items, base, k);
      CloseOnce(LayItems(items, base), base, k);
    case Object(fields) =>
      FieldsOnce(fields, base, k);
      CloseOnce(LayFields(fields, base), base, k);
    case _ =>
  }

  lemma {:induction false} ItemsOnce(vs: seq<Value>, base: nat, k: nat)
    ensures OnceItems(LayItems(vs, base), base, k)
    decreases vs, 1
  {
    hide Holders, OnceItems, LayValue;
    NothingOnce(base, k);
    if vs != [] {
      var n := |vs| - 1;
      ItemsOnce(vs[..n], base, k);
      var before := LayItems(vs[..n], base);
      var last := LayValue(vs[n], base + |before.nodes|);
      ValueOnce(vs[n], base + |before.nodes|, k);
      NextOnce(before, ValueItem(last.value), last.nodes, base, k);
    }
  }

  lemma {:induction false} FieldsOnce(es: seq<Entry>, base: nat, k: nat)
    ensures OnceItems(LayFields(es, base), base, k)
    decreases es, 1
  {
    hide Holders, OnceItems, LayValue;
    NothingOnce(base, k);
    if es != [] {
      var n := |es| - 1;
      FieldsOnce(es[..n], base, k);
      var before := LayFields(es[..n], base);
      var last := LayField(es[n], base + |before.nodes|);
      EntryOnce(es[n], base + |before.nodes|, k);
      NextOnce(before, last.value, last.nodes, base, k);
    }
  }

  lemma {:induction false} EntryOnce(e: Entry, base: nat, k: nat)
    ensures var l := LayField(e, base); Once(Holders(l.nodes, k) + InNode(l.value, k), base, |l.nodes|, k)
    decreases e, 0
  {
    ValueOnce(e.value, base, k);
  }

  lemma {:induction false} ArgsOnce(es: seq<Entry>, base: nat, k: nat)
    ensures OnceItems(LayArgs(es, base), base, k)
  {
    hide Holders, OnceItems, LayValue;
    NothingOnce(base, k);
    if es != [] {
      var n := |es| - 1;
      ArgsOnce(es[..n], base, k);
      var before := LayArgs(es[..n], base);
      var last := LayValue(es[n].value, base + |before.nodes|);
      ValueOnce(es[n].value, base + |before.nodes|, k);
      NextOnce(before, ArgumentItem(es[n].name, last.value), last.nodes, base, k);
    }
  }

  lemma {:induction false} ArgumentsOnce(args: Option<seq<Entry>>, base: nat, k: nat)
    ensures var l := LayArguments(args, base); Once(Holders(l.nodes, k) + In(l.value, k), base, |l.nodes|, k)
  {
    if args.Some? {
      ArgsOnce(args.value, base, k);
      CloseOnce(LayArgs(args.value, base), base, k);
    }
  }

  lemma {:induction false} DirectivesOnce(ds: seq<Directive>, base: nat, k: nat)
    ensures OnceItems(LayDirectives(ds, base), base, k)
  {
    hide Holders, OnceItems, LayArguments;
    NothingOnce(base, k);
    if ds != [] {
      var n := |ds| - 1;
      DirectivesOnce(ds[..n], base, k);
      var before := LayDirectives(ds[..n], base);
      var last := LayArguments(ds[n].arguments, base + |before.nodes|);
      ArgumentsOnce(ds[n].arguments, base + |before.nodes|, k);
      NextOnce(before, DirectiveItem(ds[n].name, last.value), last.nodes, base, k);
    }
  }

  lemma {:induction false} DirectiveListOnce(ds: seq<Directive>, base: nat, k: nat)
    ensures var d := Close(LayDirectives(ds, base), base);
      Once(Holders(d.nodes, k) + In(d.value, k), base, |d.nodes|, k)
  {
    DirectivesOnce(ds, base, k);
    CloseOnce(LayDirectives(ds, base), base, k);
  }

  lemma {:induction false} SetOnce(set_: SelectionSet, base: nat, k: nat)
    ensures var l := LaySet(set_, base); Once(Holders(l.nodes, k) + In(l.value.selections, k), base, |l.nodes|, k)
    decreases set_, 2
  {
    SelectionsOnce(set_.selections, base, k);
    CloseOnce(LaySelections(set_.selections, base), base, k);
  }

  lemma {:induction false} SelectionsOnce(sels: seq<Selection>, base: nat, k: nat)
    ensures OnceItems(LaySelections(sels, base), base, k)
    decreases sels, 1
  {
    hide Holders, OnceItems, LaySelection;
    NothingOnce(base, k);
    if sels != [] {
      var n := |sels| - 1;
      SelectionsOnce(sels[..n], base, k);
      var before := LaySelections(sels[..n], base);
      var last := LaySelection(sels[n], base + |before.nodes|);
      SelectionOnce(sels[n], base + |before.nodes|, k);
      NextOnce(before, SelectionItem(last.value), last.nodes, base, k);
    }
  }

  lemma {:induction false} BodyOnce(ds: seq<Directive>, set_: SelectionSet, base: nat, k: nat)
    ensures var l := LayBody(ds, set_, base);
      Once(Holders(l.nodes, k) + (In(l.value.0, k) + In(l.value.1.selections, k)), base, |l.nodes|, k)
    decreases set_, 3
  {
    hide LayDirectives, LaySet, Holders;
    var d := Close(LayDirectives(ds, base), base);
    DirectiveListOnce(ds, base, k);
    SetOnce(set_, base + |d.nodes|, k);
    HoldersConcat(d.nodes, LaySet(set_, base + |d.nodes|).nodes, k);
  }

  lemma {:induction false} TailOnce(ds: seq<Directive>, inner: Option<SelectionSet>, base: nat, k: nat)
    ensures var l := LayTail(ds, inner, base);
      Once(Holders(l.nodes, k) + (In(l.value.0, k) + if l.value.1.None? then 0 else In(l.value.1.value.selections, k)),
           base, |l.nodes|, k)
    decreases inner, 4
  {
    hide LayDirectives, LayBody, Holders;
    if inner.None? {
      DirectiveListOnce(ds, base, k);
    } else {
      BodyOnce(ds, inner.value, base, k);
    }
  }

  lemma {:induction false} SelectionOnce(sel: Selection, base: nat, k: nat)
    ensures var l := LaySelection(sel, base); Once(Holders(l.nodes, k) + InSelection(l.value, k), base, |l.nodes|, k)
    decreases sel, 0
  {
    hide LayArguments, LayTail, LayDirectives, LayBody, Holders;
    match sel
    case Field(_, _, arguments, directives, inner) =>
      var a := LayArguments(arguments, base);
      ArgumentsOnce(arguments, base, k);
      TailOnce(directives, inner, base + |a.nodes|, k);
      HoldersConcat(a.nodes, LayTail(directives, inner, base + |a.nodes|).nodes, k);
    case FragmentSpread(_, directives) => DirectiveListOnce(directives, base, k);
    case InlineFragment(_, directives, inner) => BodyOnce(directives, inner, base, k);
  }

  function InDefault(a: Option<ArenaValue>, k: nat): nat {
    if a.None? then 0 else InValue(a.value, k)
  }

  lemma {:induction false} DefaultOnce(default_: Option<Value>, base: nat, k: nat)
    ensures var l := LayDefault(default_, base); Once(Holders(l.nodes, k) + InDefault(l.value, k), base, |l.nodes|, k)
  {
    hide LayValue;
    if default_.Some? {
      ValueOnce(default_.value, base, k);
    }
  }

  lemma {:induction false} VariableOnce(v: VariableDefinition, base: nat, k: nat)
    ensures var l := LayVariable(v, base); Once(Holders(l.nodes, k) + InNode(l.value, k), base, |l.nodes|, k)
  {
    hide LayDirectives, LayDefault, Holders;
    var d := LayDefault(v.default, base);
    DefaultOnce(v.default, base, k);
    DirectiveListOnce(v.directives, base + |d.nodes|, k);
    HoldersConcat(d.nodes, Close(LayDirectives(v.directives, base + |d.nodes|), base + |d.nodes|).nodes, k);
  }

  lemma {:induction false} VariablesOnce(vs: seq<VariableDefinition>, base: nat, k: nat)
    ensures OnceItems(LayVariables(vs, base), base, k)
  {
    hide Holders, OnceItems, LayVariable;
    NothingOnce(base, k);
    if vs != [] {
      var n := |vs| - 1;
      VariablesOnce(vs[..n], base, k);
      var before := LayVariables(vs[..n], base);
      var last := LayVariable(vs[n], base + |before.nodes|);
      VariableOnce(vs[n], base + |before.nodes|, k);
      NextOnce(before, last.value, last.nodes, base, k);
    }
  }

  lemma {:induction false} OptVariablesOnce(vs: Option<seq<VariableDefinition>>, base: nat, k: nat)
    ensures var l := LayOptVariables(vs, base); Once(Holders(l.nodes, k) + In(l.value, k), base, |l.nodes|, k)
  {
    if vs.Some? {
      VariablesOnce(vs.value, base, k);
      CloseOnce(LayVariables(vs.value, base), base, k);
    }
  }

  lemma {:induction false} DefinitionOnce(def: Definition, base: nat, k: nat)
    ensures var l := LayDefinition(def, base); Once(Holders(l.nodes, k) + InDefinition(l.value, k), base, |l.nodes|, k)
  {
    hide LaySet, LayBody, LayOptVariables, Holders;
    match def
    case Shorthand(set_, _) => SetOnce(set_, base, k);
    case Operation(_, _, variables, directives, set_, _) =>
      var v := LayOptVariables(variables, base);
      OptVariablesOnce(variables, base, k);
      BodyOnce(directives, set_, base + |v.nodes|, k);
      HoldersConcat(v.nodes, LayBody(directives, set_, base + |v.nodes|).nodes, k);
    case Fragment(_, _, directives, set_, _) => BodyOnce(directives, set_, base, k);
  }

  lemma {:induction false} DefinitionsOnce(defs: seq<Definition>, base: nat, k: nat)
    ensures OnceItems(LayDefinitions(defs, base), base, k)
  {
    hide Holders, OnceItems, LayDefinition;
    NothingOnce(base, k);
    if defs != [] {
      var n := |defs| - 1;
      DefinitionsOnce(defs[..n], base, k);
      var before := LayDefinitions(defs[..n], base);
      var last := LayDefinition(defs[n], base + |before.nodes|);
      DefinitionOnce(defs[n], base + |before.nodes|, k);
      NextOnce(before, DefinitionItem(last.value), last.nodes, base, k);
    }
  }

  /** Every node of the arena is in exactly one range: that of the definitions, or one range of one node;
      and no range reaches past the arena. */
  lemma {:induction false} RangesPartition(defs: seq<Definition>, k: nat)
    ensures var d := LayDocument(defs);
      Holders(d.nodes, k) + In(d.definitions, k) == if k < |d.nodes| then 1 else 0
  {
    DefinitionsOnce(defs, 0, k);
    CloseOnce(LayDefinitions(defs, 0), 0, k);
  }

  /** Each node of the arena belongs to one list. */
  ghost predicate IsPartitioned(d: Document) {
    forall k: nat :: Holders(d.nodes, k) + In(d.definitions, k) == if k < |d.nodes| then 1 else 0
  }

  lemma {:induction false} LaidIsPartitioned(defs: seq<Definition>)
    ensures IsPartitioned(LayDocument(defs))
  {
    hide LayDocument, Holders, In;
    forall k: nat ensures Holders(LayDocument(defs).nodes, k) + In(LayDocument(defs).definitions, k) ==
      if k < |LayDocument(defs).nodes| then 1 else 0 {
      RangesPartition(defs, k);
    }
  }
}
