/** Executable documents of GraphQL October 2021, section 2, as trees, and exactly what the parser of
    magna-gqlmin `parse/mod.rs` accepts beyond them. */
module Standard {
  import opened Basics
  import opened Syntax
  import opened Printer

  // ----- the productions of the standard that differ from the parser's -----

  predicate StandardArguments(args: Option<seq<Entry>>, isConst: bool) {
    args.Some? ==> args.value != [] && FineEntries(args.value, isConst)
  }

  predicate StandardDirectives(ds: seq<Directive>, isConst: bool) {
    ds != [] ==> StandardArguments(ds[0].arguments, isConst) && StandardDirectives(ds[1..], isConst)
  }

  predicate StandardSet(set_: SelectionSet)
    decreases set_, 2
  {
    set_.selections != [] && StandardSelections(set_.selections)
  }

  predicate StandardSelections(sels: seq<Selection>)
    decreases sels, 1
  {
    sels != [] ==> StandardSelection(sels[0]) && StandardSelections(sels[1..])
  }

  predicate StandardSelection(sel: Selection)
    decreases sel, 0
  {
    match sel
    case Field(_, _, arguments, directives, inner) =>
      && StandardArguments(arguments, false) && StandardDirectives(directives, false)
      && (inner.Some? ==> StandardSet(inner.value))
    case FragmentSpread(name, directives) => name.value != "on" && StandardDirectives(directives, false)
    case InlineFragment(_, directives, inner) => StandardDirectives(directives, false) && StandardSet(inner)
  }

  /** Default values and directives of variables are constant. */
  predicate StandardVariable(v: VariableDefinition) {
    && FineType(v.varType) && (v.default.Some? ==> FineValue(v.default.value, true))
    && StandardDirectives(v.directives, true)
  }

  predicate StandardVariables(vs: seq<VariableDefinition>) {
    vs != [] ==> StandardVariable(vs[0]) && StandardVariables(vs[1..])
  }

  predicate StandardDefinition(def: Definition) {
    match def
    case Shorthand(set_, _) => StandardSet(set_)
    case Operation(_, _, variables, directives, set_, _) =>
      && (variables.Some? ==> variables.value != [] && StandardVariables(variables.value))
      && StandardDirectives(directives, false) && StandardSet(set_)
    case Fragment(name, _, directives, set_, _) =>
      name.value != "on" && StandardDirectives(directives, false) && StandardSet(set_)
  }

  predicate StandardDefinitions(defs: seq<Definition>) {
    defs != [] ==> StandardDefinition(defs[0]) && StandardDefinitions(defs[1..])
  }

  predicate StandardDocument(defs: seq<Definition>) {
    defs != [] && StandardDefinitions(defs)
  }

  // ----- the four liberties of the parser -----

  /** No `()` of arguments. */
  predicate TightArguments(args: Option<seq<Entry>>) {
    args != Some([])
  }

  predicate TightDirectives(ds: seq<Directive>) {
    ds != [] ==> TightArguments(ds[0].arguments) && TightDirectives(ds[1..])
  }

  predicate TightSelections(sels: seq<Selection>)
    decreases sels, 1
  {
    sels != [] ==> TightSelection(sels[0]) && TightSelections(sels[1..])
  }

  predicate TightSelection(sel: Selection)
    decreases sel, 0
  {
    match sel
    case Field(_, _, arguments, directives, inner) =>
      && TightArguments(arguments) && TightDirectives(directives)
      && (inner.Some? ==> TightSelections(inner.value.selections))
    case FragmentSpread(_, directives) => TightDirectives(directives)
    case InlineFragment(_, directives, inner) => TightDirectives(directives) && TightSelections(inner.selections)
  }

  predicate TightVariables(vs: seq<VariableDefinition>) {
    vs != [] ==> TightDirectives(vs[0].directives) && TightVariables(vs[1..])
  }

  predicate TightDefinition(def: Definition) {
    && TightSelections(def.selectionSet.selections)
    && (!def.Shorthand? ==> TightDirectives(def.directives))
    && (def.Operation? ==> TightVariables(Listed(def.variables)))
  }

  predicate NoEmptyArguments(defs: seq<Definition>) {
    defs != [] ==> TightDefinition(defs[0]) && NoEmptyArguments(defs[1..])
  }

  predicate NoEmptyVariables(defs: seq<Definition>) {
    defs != [] ==> (defs[0].Operation? ==> defs[0].variables != Some([])) && NoEmptyVariables(defs[1..])
  }

  /** No variable in a value. */
  predicate ConstValue(v: Value)
    decreases v, 0
  {
    match v
    case Variable(_) => false
    case List(items) => ConstItems(items)
    case Object(fields) => ConstEntries(fields)
    case _ => true
  }

  predicate ConstItems(vs: seq<Value>)
    decreases vs, 1
  {
    vs != [] ==> ConstValue(vs[0]) && ConstItems(vs[1..])
  }

  predicate ConstEntry(e: Entry)
    decreases e, 1
  {
    ConstValue(e.value)
  }

  predicate ConstEntries(es: seq<Entry>)
    decreases es, 1
  {
    es != [] ==> ConstEntry(es[0]) && ConstEntries(es[1..])
  }

  predicate ConstDirectives(ds: seq<Directive>) {
    ds != [] ==> ConstEntries(Listed(ds[0].arguments)) && ConstDirectives(ds[1..])
  }

  predicate ConstVariables(vs: seq<VariableDefinition>) {
    vs != [] ==> ConstDirectives(vs[0].directives) && ConstVariables(vs[1..])
  }

  predicate ConstVariableDirectives(defs: seq<Definition>) {
    defs != [] ==>
      (defs[0].Operation? ==> ConstVariables(Listed(defs[0].variables))) && ConstVariableDirectives(defs[1..])
  }

  predicate NoFragmentOn(defs: seq<Definition>) {
    defs != [] ==> (defs[0].Fragment? ==> defs[0].name.value != "on") && NoFragmentOn(defs[1..])
  }

  // ----- the gap -----

  lemma {:induction false} ConstValues(v: Value)
    ensures FineValue(v, true) <==> FineValue(v, false) && ConstValue(v)
    decreases v, 0
  {
    match v
    case List(items) => ConstItemsToo(items);
    case Object(fields) => ConstEntriesToo(fields);
    case _ =>
  }

  lemma {:induction false} ConstItemsToo(vs: seq<Value>)
    ensures FineItems(vs, true) <==> FineItems(vs, false) && ConstItems(vs)
    decreases vs, 1
  {
    if vs != [] {
      ConstValues(vs[0]);
      ConstItemsToo(vs[1..]);
    }
  }

  lemma {:induction false} ConstEntryToo(e: Entry)
    ensures FineEntry(e, true) <==> FineEntry(e, false) && ConstEntry(e)
    decreases e, 1
  {
    ConstValues(e.value);
  }

  lemma {:induction false} ConstEntriesToo(es: seq<Entry>)
    ensures FineEntries(es, true) <==> FineEntries(es, false) && ConstEntries(es)
    decreases es, 1
  {
    if es != [] {
      ConstEntryToo(es[0]);
      ConstEntriesToo(es[1..]);
    }
  }

  lemma {:induction false} DirectivesGap(ds: seq<Directive>)
    ensures StandardDirectives(ds, false) <==> FineDirectives(ds) && TightDirectives(ds)
    ensures StandardDirectives(ds, true) <==> FineDirectives(ds) && TightDirectives(ds) && ConstDirectives(ds)
  {
    hide FineEntries, ConstEntries;
    if ds != [] {
      DirectivesGap(ds[1..]);
      NoEntries();
      ConstEntriesToo(Listed(ds[0].arguments));
    }
  }

  lemma {:induction false} NoEntries()
    ensures ConstEntries([])
  {
  }

  lemma {:induction false} SelectionsGap(sels: seq<Selection>)
    ensures StandardSelections(sels) <==> FineSelections(sels) && TightSelections(sels)
    decreases sels, 1
  {
    hide StandardSelection, FineSelection, TightSelection;
    if sels != [] {
      SelectionGap(sels[0]);
      SelectionsGap(sels[1..]);
    }
  }

  lemma {:induction false} SetGap(set_: SelectionSet)
    ensures StandardSet(set_) <==> FineSet(set_) && TightSelections(set_.selections)
    decreases set_, 2
  {
    hide StandardSelections, FineSelections, TightSelections;
    SelectionsGap(set_.selections);
  }

  lemma {:induction false} SelectionGap(sel: Selection)
    ensures StandardSelection(sel) <==> FineSelection(sel) && TightSelection(sel)
    decreases sel, 0
  {
    hide StandardSet, FineSet, TightSelections, StandardDirectives, FineDirectives, TightDirectives;
    DirectivesGap(sel.directives);
    match sel
    case Field(_, _, _, _, inner) =>
      if inner.Some? {
        SetGap(inner.value);
      }
    case FragmentSpread(_, _) =>
    case InlineFragment(_, _, inner) => SetGap(inner);
  }

  lemma {:induction false} VariablesGap(vs: seq<VariableDefinition>)
    ensures StandardVariables(vs) <==> FineVariables(vs) && TightVariables(vs) && ConstVariables(vs)
  {
    hide StandardDirectives, FineDirectives, TightDirectives, ConstDirectives;
    if vs != [] {
      DirectivesGap(vs[0].directives);
      VariablesGap(vs[1..]);
    }
  }

  lemma {:induction false} DefinitionGap(def: Definition)
    ensures StandardDefinition(def) <==>
      && FineDefinition(def) && TightDefinition(def)
      && (def.Operation? ==> def.variables != Some([]) && ConstVariables(Listed(def.variables)))
      && (def.Fragment? ==> def.name.value != "on")
  {
    hide StandardSet, FineSet, TightSelections, StandardDirectives, FineDirectives, TightDirectives;
    SetGap(def.selectionSet);
    if !def.Shorthand? {
      DirectivesGap(def.directives);
    }
    if def.Operation? {
      VariablesGap(Listed(def.variables));
    }
  }

  lemma {:induction false} DefinitionsGap(defs: seq<Definition>)
    ensures StandardDefinitions(defs) <==>
      && FineDefinitions(defs) && NoEmptyArguments(defs) && NoEmptyVariables(defs)
      && ConstVariableDirectives(defs) && NoFragmentOn(defs)
  {
    hide StandardDefinition, FineDefinition, TightDefinition, ConstVariables;
    if defs != [] {
      DefinitionGap(defs[0]);
      DefinitionsGap(defs[1..]);
    }
  }

  /** The parser accepts the standard's documents, and beyond them exactly those with an empty argument
      list, an empty list of variables, a variable in the directives of a variable definition, or a
      fragment called `on`. */
  lemma {:induction false} GapToStandard(defs: seq<Definition>)
    ensures StandardDocument(defs) <==>
      && FineDocument(defs) && NoEmptyArguments(defs) && NoEmptyVariables(defs)
      && ConstVariableDirectives(defs) && NoFragmentOn(defs)
  {
    hide StandardDefinitions, FineDefinitions, NoEmptyArguments, NoEmptyVariables, ConstVariableDirectives,
      NoFragmentOn;
    DefinitionsGap(defs);
  }

  // ----- each liberty is taken -----

  /** `{ a() }` */
  lemma {:induction false} EmptyArgumentsAccepted(a: Name, span: Span)
    ensures var defs := [Shorthand(SelectionSet([Field(None, a, Some([]), [], None)], span), span)];
      FineDocument(defs) && !NoEmptyArguments(defs) && !StandardDocument(defs)
  {
    var defs := [Shorthand(SelectionSet([Field(None, a, Some([]), [], None)], span), span)];
    assert !TightSelection(Field(None, a, Some([]), [], None));
    GapToStandard(defs);
  }

  /** `query Q() { a }` */
  lemma {:induction false} EmptyVariablesAccepted(q: Name, a: Name, span: Span)
    ensures var set_ := SelectionSet([Field(None, a, None, [], None)], span);
      var defs := [Operation(Query, Some(q), Some([]), [], set_, span)];
      FineDocument(defs) && !NoEmptyVariables(defs) && !StandardDocument(defs)
  {
    var set_ := SelectionSet([Field(None, a, None, [], None)], span);
    GapToStandard([Operation(Query, Some(q), Some([]), [], set_, span)]);
    assert FineSelection(set_.selections[0]);
  }

  /** `query Q($x: T @d(x: $x)) { a }` */
  lemma {:induction false} VariableInDirectiveAccepted(q: Name, x: Name, t: Name, d: Name, a: Name, span: Span)
    ensures var set_ := SelectionSet([Field(None, a, None, [], None)], span);
      var v := VariableDefinition(x, Named(t), None, [Directive(d, Some([Entry(x, Variable(x))]))]);
      var defs := [Operation(Query, Some(q), Some([v]), [], set_, span)];
      FineDocument(defs) && !ConstVariableDirectives(defs) && !StandardDocument(defs)
  {
    var set_ := SelectionSet([Field(None, a, None, [], None)], span);
    var e := Entry(x, Variable(x));
    var v := VariableDefinition(x, Named(t), None, [Directive(d, Some([e]))]);
    var defs := [Operation(Query, Some(q), Some([v]), [], set_, span)];
    assert !ConstValue(Variable(x)) && FineValue(Variable(x), false);
    assert FineEntry(e, false) && !ConstEntry(e);
    assert FineEntries([e], false) && !ConstEntries([e]);
    assert FineDirectives(v.directives) && !ConstDirectives(v.directives);
    assert FineVariables([v]) && !ConstVariables([v]);
    assert FineSelection(set_.selections[0]);
    GapToStandard(defs);
  }

  /** `fragment on on T { a }` */
  lemma {:induction false} FragmentOnAccepted(at: Span, t: Name, a: Name, span: Span)
    ensures var set_ := SelectionSet([Field(None, a, None, [], None)], span);
      var defs := [Fragment(Name("on", at), t, [], set_, span)];
      FineDocument(defs) && !NoFragmentOn(defs) && !StandardDocument(defs)
  {
    var set_ := SelectionSet([Field(None, a, None, [], None)], span);
    GapToStandard([Fragment(Name("on", at), t, [], set_, span)]);
    assert FineSelection(set_.selections[0]);
  }
}
