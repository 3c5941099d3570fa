/** The five operations-only validation rules (magna-gqlmin `validate.rs`), over the trees that
    the document's accessors deliver. */
module Validation {
  import opened Basics
  import opened Syntax

  datatype Rule =
    | NoUndefinedVariables | NoUnusedVariables | NoUnusedFragments | KnownFragmentNames | UniqueOperationNames

  datatype Finding = Finding(rule: Rule, span: Span)

  /** Fragments by name; of several with one name the last counts. */
  type Fragments = m: map<string, Definition> | forall k :: k in m ==> m[k].Fragment?
    witness map[]

  // ----- variable uses, as occurrences (name and position) -----

  function UsesInValue(v: Value): set<Name>
    decreases v, 0
  {
    match v
    case Variable(name) => {name}
    case List(items) => UsesInItems(items)
    case Object(fields) => UsesInEntries(fields)
    case _ => {}
  }

  function UsesInItems(vs: seq<Value>): set<Name>
    decreases vs, 1
  {
    if vs == [] then {} else UsesInItems(vs[..|vs|-1]) + UsesInValue(vs[|vs|-1])
  }

  function UsesInEntry(e: Entry): set<Name>
    decreases e, 1
  {
    UsesInValue(e.value)
  }

  function UsesInEntries(es: seq<Entry>): set<Name>
    decreases es, 1
  {
    if es == [] then {} else UsesInEntries(es[..|es|-1]) + UsesInEntry(es[|es|-1])
  }

  function UsesInDirectives(ds: seq<Directive>): set<Name> {
    if ds == [] then {} else UsesInDirectives(ds[..|ds|-1]) + UsesInEntries(Listed(ds[|ds|-1].arguments))
  }

  /** Uses in a selection set and in everything nested in it, but not behind spreads. */
  function UsesInSelections(sels: seq<Selection>): set<Name>
    decreases sels, 1
  {
    if sels == [] then {} else UsesInSelections(sels[..|sels|-1]) + UsesInSelection(sels[|sels|-1])
  }

  function UsesInSelection(sel: Selection): set<Name>
    decreases sel, 0
  {
    match sel
    case Field(_, _, arguments, directives, inner) =>
      UsesInEntries(Listed(arguments)) + UsesInDirectives(directives) +
      (match inner case None => {} case Some(set_) => UsesInSelections(set_.selections))
    case FragmentSpread(_, directives) => UsesInDirectives(directives)
    case InlineFragment(_, directives, inner) => UsesInDirectives(directives) + UsesInSelections(inner.selections)
  }

  // ----- fragment spreads -----

  /** The spreads in a selection set, nested selections included, in document order. */
  function SpreadNames(sels: seq<Selection>): seq<Name>
    decreases sels, 1
  {
    if sels == [] then [] else SpreadNames(sels[..|sels|-1]) + SpreadNamesOf(sels[|sels|-1])
  }

  function SpreadNamesOf(sel: Selection): seq<Name>
    decreases sel, 0
  {
    match sel
    case Field(_, _, _, _, inner) => (match inner case None => [] case Some(set_) => SpreadNames(set_.selections))
    case FragmentSpread(name, _) => [name]
    case InlineFragment(_, _, inner) => SpreadNames(inner.selections)
  }

  function Texts(names: seq<Name>): set<string> {
    set n | n in names :: n.value
  }

  function Spreads(sels: seq<Selection>): set<string> {
    Texts(SpreadNames(sels))
  }

  function FragmentUses(f: Definition): set<Name>
    requires f.Fragment?
  {
    UsesInDirectives(f.directives) + UsesInSelections(f.selectionSet.selections)
  }

  ghost predicate LeadsTo(frags: Fragments, a: string, b: string) {
    a in frags && b in Spreads(frags[a].selectionSet.selections)
  }

  /** `path` follows spreads from one of the `start` names, through defined fragments. */
  ghost predicate IsSpreadPath(frags: Fragments, start: set<string>, path: seq<string>) {
    && path != [] && path[0] in start
    && forall k :: 0 < k < |path| ==> LeadsTo(frags, path[k-1], path[k])
  }

  ghost predicate Reachable(frags: Fragments, start: set<string>, name: string) {
    exists path :: IsSpreadPath(frags, start, path) && path[|path|-1] == name
  }

  /** The uses in the defined fragments among `names`. */
  ghost function UsesBehind(frags: Fragments, names: set<string>): set<Name> {
    set n, u | n in names && n in frags && u in FragmentUses(frags[n]) :: u
  }

  // ----- what a walk adds -----

  /** `after` keeps the entries of `before` and adds one for each name of `uses`, with the position
      of one of its uses. */
  ghost predicate Adds(before: map<string, Span>, after: map<string, Span>, uses: set<Name>) {
    && (forall k :: k in before ==> k in after && after[k] == before[k])
    && (forall k :: k in after ==> k in before || Name(k, after[k]) in uses)
    && (forall n :: n in uses ==> n.value in after)
  }

  lemma {:induction false} AddsCompose(a: map<string, Span>, b: map<string, Span>, c: map<string, Span>, u: set<Name>,
                                       v: set<Name>)
    requires Adds(a, b, u) && Adds(b, c, v)
    ensures Adds(a, c, u + v)
  {
  }

  /** The walk went from `before` to `after` visited names, starting from `spreads`: everything new is
      reachable, and what a new fragment spreads has been visited too. */
  ghost predicate Walked(frags: Fragments, spreads: set<string>, before: set<string>, after: set<string>) {
    && before <= after && spreads <= after
    && (forall n :: n in after && n !in before ==> Reachable(frags, spreads, n))
    && (forall n :: n in after && n !in before && n in frags ==> Spreads(frags[n].selectionSet.selections) <= after)
  }

  lemma {:induction false} ReachableMore(frags: Fragments, a: set<string>, b: set<string>, n: string)
    requires a <= b && Reachable(frags, a, n)
    ensures Reachable(frags, b, n)
  {
    var path :| IsSpreadPath(frags, a, path) && path[|path|-1] == n;
    assert IsSpreadPath(frags, b, path);
  }

  lemma {:induction false} ReachableThrough(frags: Fragments, m: string, n: string)
    requires m in frags && Reachable(frags, Spreads(frags[m].selectionSet.selections), n)
    ensures Reachable(frags, {m}, n)
  {
    var path :| IsSpreadPath(frags, Spreads(frags[m].selectionSet.selections), path) && path[|path|-1] == n;
    var longer := [m] + path;
    hide Spreads;
    assert forall k :: 0 < k < |longer| ==> longer[k] == path[k-1];
    forall k | 0 < k < |longer| ensures LeadsTo(frags, longer[k-1], longer[k]) {
      if k > 1 {
        assert longer[k-1] == path[k-2];
      }
    }
    assert IsSpreadPath(frags, {m}, longer) && longer[|longer|-1] == n;
  }

  lemma {:induction false} WalkedCompose(frags: Fragments, s: set<string>, t: set<string>, a: set<string>,
                                         b: set<string>, c: set<string>)
    requires Walked(frags, s, a, b) && Walked(frags, t, b, c)
    ensures Walked(frags, s + t, a, c)
  {
    forall n | n in c && n !in a ensures Reachable(frags, s + t, n) {
      if n in b {
        ReachableMore(frags, s, s + t, n);
      } else {
        ReachableMore(frags, t, s + t, n);
      }
    }
  }

  lemma {:induction false} UsesBehindSplit(frags: Fragments, a: set<string>, b: set<string>, c: set<string>)
    requires a <= b <= c
    ensures UsesBehind(frags, c - a) == UsesBehind(frags, b - a) + UsesBehind(frags, c - b)
  {
    hide FragmentUses;
  }

  /** A walk over selections with the given direct spreads and uses. */
  ghost predicate Collected(frags: Fragments, spreads: set<string>, uses: set<Name>,
                            visited: set<string>, used: map<string, Span>, visited': set<string>, used': map<string,
                              Span>)
  {
    Walked(frags, spreads, visited, visited') && Adds(used, used', uses + UsesBehind(frags, visited' - visited))
  }

  lemma {:induction false} CollectedCompose(frags: Fragments, s: set<string>, u: set<Name>, t: set<string>,
                                            v: set<Name>,
                         va: set<string>, ua: map<string, Span>, vb: set<string>, ub: map<string, Span>,
                         vc: set<string>, uc: map<string, Span>)
    requires Collected(frags, s, u, va, ua, vb, ub) && Collected(frags, t, v, vb, ub, vc, uc)
    ensures Collected(frags, s + t, u + v, va, ua, vc, uc)
  {
    hide Adds, UsesBehind;
    WalkedCompose(frags, s, t, va, vb, vc);
    assert va <= vb <= vc;
    AddsCompose(ua, ub, uc, u + UsesBehind(frags, vb - va), v + UsesBehind(frags, vc - vb));
    UsesBehindSplit(frags, va, vb, vc);
    assert (u + UsesBehind(frags, vb - va)) + (v + UsesBehind(frags, vc - vb)) == (u + v) + UsesBehind(frags, vc - va);
  }

  lemma {:induction false} CollectedUsesOnly(frags: Fragments, uses: set<Name>, visited: set<string>,
                                             used: map<string, Span>, used': map<string, Span>)
    requires Adds(used, used', uses)
    ensures Collected(frags, {}, uses, visited, used, visited, used')
  {
    assert UsesBehind(frags, visited - visited) == {};
    assert uses + {} == uses;
  }

  lemma {:induction false} CollectedNothing(frags: Fragments, visited: set<string>, used: map<string, Span>)
    ensures Collected(frags, {}, {}, visited, used, visited, used)
  {
    assert Adds(used, used, {});
    CollectedUsesOnly(frags, {}, visited, used, used);
  }

  lemma {:induction false} CollectedVisited(frags: Fragments, name: string, visited: set<string>,
                                            used: map<string, Span>)
    requires name in visited
    ensures Collected(frags, {name}, {}, visited, used, visited, used)
  {
    assert UsesBehind(frags, visited - visited) == {};
    var none: set<Name> := {};
    assert none + none == none;
  }

  lemma {:induction false} CollectedUndefined(frags: Fragments, name: string, visited: set<string>,
                                              used: map<string, Span>)
    requires name !in visited && name !in frags
    ensures Collected(frags, {name}, {}, visited, used, visited + {name}, used)
  {
    assert IsSpreadPath(frags, {name}, [name]);
    assert UsesBehind(frags, visited + {name} - visited) == {};
    var none: set<Name> := {};
    assert none + none == none;
  }

  lemma {:induction false} WalkedFragment(frags: Fragments, name: string, visited: set<string>, visited': set<string>)
    requires name !in visited && name in frags
    requires Walked(frags, Spreads(frags[name].selectionSet.selections), visited + {name}, visited')
    ensures Walked(frags, {name}, visited, visited')
  {
    hide Spreads, IsSpreadPath, Reachable;
    assert Reachable(frags, {name}, name) by {
      ReachableSelf(frags, name);
    }
    forall n | n in visited' && n !in visited ensures Reachable(frags, {name}, n) {
      if n != name {
        ReachableThrough(frags, name, n);
      }
    }
  }

  lemma {:induction false} ReachableSelf(frags: Fragments, name: string)
    ensures Reachable(frags, {name}, name)
  {
    var path := [name];
    assert IsSpreadPath(frags, {name}, path) && path[|path|-1] == name;
  }

  lemma {:induction false} UsesBehindOne(frags: Fragments, name: string)
    requires name in frags
    ensures UsesBehind(frags, {name}) == FragmentUses(frags[name])
  {
    hide FragmentUses;
  }

  /** Entering a fragment for the first time and walking its body. */
  lemma {:induction false} CollectedFragment(frags: Fragments, name: string, visited: set<string>,
                                             used: map<string, Span>,
                          visited': set<string>, used': map<string, Span>)
    requires name !in visited && name in frags
    requires Collected(frags, Spreads(frags[name].selectionSet.selections), FragmentUses(frags[name]),
                       visited + {name}, used, visited', used')
    ensures Collected(frags, {name}, {}, visited, used, visited', used')
  {
    hide Adds, FragmentUses, Spreads, UsesBehind, Reachable;
    WalkedFragment(frags, name, visited, visited');
    UsesBehindOne(frags, name);
    UsesBehindSplit(frags, visited, visited + {name}, visited');
    assert visited + {name} - visited == {name};
    assert {} + UsesBehind(frags, visited' - visited) ==
      FragmentUses(frags[name]) + UsesBehind(frags, visited' - (visited + {name}));
  }

  // ----- the walkers -----

  method CollectInValue(v: Value, used: map<string, Span>) returns (used': map<string, Span>)
    ensures Adds(used, used', UsesInValue(v))
    decreases v
  {
    used' := used;
    match v
    case Variable(name) =>
      if name.value !in used {
        used' := used[name.value := name.span];
      }
    case List(items) =>
      for i := 0 to |items|
        invariant Adds(used, used', UsesInItems(items[..i]))
      {
        ghost var before := used';
        used' := CollectInValue(items[i], used');
        assert items[..i+1][..i] == items[..i];
        AddsCompose(used, before, used', UsesInItems(items[..i]), UsesInValue(items[i]));
      }
      assert items[..|items|] == items;
    case Object(fields) =>
      for i := 0 to |fields|
        invariant Adds(used, used', UsesInEntries(fields[..i]))
      {
        ghost var before := used';
        used' := CollectInValue(fields[i].value, used');
        assert fields[..i+1][..i] == fields[..i];
        AddsCompose(used, before, used', UsesInEntries(fields[..i]), UsesInEntry(fields[i]));
      }
      assert fields[..|fields|] == fields;
    case _ =>
  }

  method CollectInArguments(arguments: seq<Entry>, used: map<string, Span>) returns (used': map<string, Span>)
    ensures Adds(used, used', UsesInEntries(arguments))
  {
    used' := used;
    for i := 0 to |arguments|
      invariant Adds(used, used', UsesInEntries(arguments[..i]))
    {
      ghost var before := used';
      used' := CollectInValue(arguments[i].value, used');
      assert arguments[..i+1][..i] == arguments[..i];
      AddsCompose(used, before, used', UsesInEntries(arguments[..i]), UsesInEntry(arguments[i]));
    }
    assert arguments[..|arguments|] == arguments;
  }

  method CollectInDirectives(ds: seq<Directive>, used: map<string, Span>) returns (used': map<string, Span>)
    ensures Adds(used, used', UsesInDirectives(ds))
  {
    used' := used;
    for i := 0 to |ds|
      invariant Adds(used, used', UsesInDirectives(ds[..i]))
    {
      ghost var before := used';
      used' := CollectInArguments(Listed(ds[i].arguments), used');
      assert ds[..i+1][..i] == ds[..i];
      AddsCompose(used, before, used', UsesInDirectives(ds[..i]), UsesInEntries(Listed(ds[i].arguments)));
    }
    assert ds[..|ds|] == ds;
  }

  lemma {:induction false} SpreadsStep(sels: seq<Selection>, i: nat)
    requires i < |sels|
    ensures Spreads(sels[..i+1]) == Spreads(sels[..i]) + Texts(SpreadNamesOf(sels[i]))
    ensures UsesInSelections(sels[..i+1]) == UsesInSelections(sels[..i]) + UsesInSelection(sels[i])
  {
    hide SpreadNamesOf, UsesInSelection;
    assert sels[..i+1][..i] == sels[..i];
  }

  method CollectInSelections(sels: seq<Selection>, frags: Fragments, visited: set<string>, used: map<string, Span>)
    returns (visited': set<string>, used': map<string, Span>)
    ensures visited <= visited'
    ensures Collected(frags, Spreads(sels), UsesInSelections(sels), visited, used, visited', used')
    decreases frags.Keys - visited, sels, 2
  {
    assert Spreads([]) == {} && UsesInSelections([]) == {};
    hide Collected, UsesInSelection, SpreadNamesOf;
    visited', used' := visited, used;
    CollectedNothing(frags, visited, used);
    for i := 0 to |sels|
      invariant visited <= visited'
      invariant Collected(frags, Spreads(sels[..i]), UsesInSelections(sels[..i]), visited, used, visited', used')
    {
      ghost var v, u := visited', used';
      assert frags.Keys - visited' <= frags.Keys - visited;
      visited', used' := CollectInSelection(sels[i], frags, visited', used');
      CollectedCompose(frags, Spreads(sels[..i]), UsesInSelections(sels[..i]), Texts(SpreadNamesOf(sels[i])),
                       UsesInSelection(sels[i]), visited, used, v, u, visited', used');
      SpreadsStep(sels, i);
    }
    assert sels[..|sels|] == sels;
  }

  method CollectInSelection(sel: Selection, frags: Fragments, visited: set<string>, used: map<string, Span>)
    returns (visited': set<string>, used': map<string, Span>)
    ensures visited <= visited'
    ensures Collected(frags, Texts(SpreadNamesOf(sel)), UsesInSelection(sel), visited, used, visited', used')
    decreases frags.Keys - visited, sel, 1
  {
    hide Walked, Adds, UsesBehind, UsesInEntries, UsesInDirectives, UsesInSelections, SpreadNames;
    visited', used' := visited, used;
    ghost var none: set<string> := {};
    match sel
    case Field(_, _, arguments, directives, inner) =>
      used' := CollectInArguments(Listed(arguments), used');
      ghost var u := used';
      used' := CollectInDirectives(directives, used');
      AddsCompose(used, u, used', UsesInEntries(Listed(arguments)), UsesInDirectives(directives));
      ghost var own := UsesInEntries(Listed(arguments)) + UsesInDirectives(directives);
      CollectedUsesOnly(frags, own, visited, used, used');
      if inner.Some? {
        u := used';
        visited', used' := CollectInSelections(inner.value.selections, frags, visited, used');
        ghost var s, t := Spreads(inner.value.selections), UsesInSelections(inner.value.selections);
        CollectedCompose(frags, {}, own, s, t, visited, used, visited, u, visited', used');
        assert none + s == s;
      } else {
        assert Texts(SpreadNamesOf(sel)) == none;
        assert own == UsesInSelection(sel);
      }
    case FragmentSpread(_, _) =>
      visited', used' := CollectInSpread(sel, frags, visited, used);
    case InlineFragment(_, directives, inner) =>
      used' := CollectInDirectives(directives, used');
      ghost var u, own := used', UsesInDirectives(directives);
      CollectedUsesOnly(frags, own, visited, used, used');
      visited', used' := CollectInSelections(inner.selections, frags, visited, used');
      ghost var s, t := Spreads(inner.selections), UsesInSelections(inner.selections);
      CollectedCompose(frags, {}, own, s, t, visited, used, visited, u, visited', used');
      assert none + s == s;
  }

  method CollectInSpread(sel: Selection, frags: Fragments, visited: set<string>, used: map<string, Span>)
    returns (visited': set<string>, used': map<string, Span>)
    requires sel.FragmentSpread?
    ensures visited <= visited'
    ensures Collected(frags, Texts(SpreadNamesOf(sel)), UsesInSelection(sel), visited, used, visited', used')
    decreases frags.Keys - visited, sel, 0
  {
    hide Walked, Adds, UsesBehind, UsesInDirectives, UsesInSelections, SpreadNames;
    var name := sel.name.value;
    used' := CollectInDirectives(sel.directives, used);
    visited' := visited;
    ghost var u, own := used', UsesInDirectives(sel.directives);
    CollectedUsesOnly(frags, own, visited, used, u);
    if name !in visited {
      visited' := visited + {name};
      if name in frags {
        visited', used' := CollectInFragment(frags[name], frags, visited', used');
        CollectedFragment(frags, name, visited, u, visited', used');
      } else {
        CollectedUndefined(frags, name, visited, u);
      }
    } else {
      CollectedVisited(frags, name, visited, u);
    }
    CollectedCompose(frags, {}, own, {name}, {}, visited, used, visited, u, visited', used');
    ghost var none: set<string> := {};
    assert none + {name} == Texts(SpreadNamesOf(sel));
    assert own + {} == own;
  }

  method CollectInFragment(frag: Definition, frags: Fragments, visited: set<string>, used: map<string, Span>)
    returns (visited': set<string>, used': map<string, Span>)
    requires frag.Fragment?
    ensures visited <= visited'
    ensures Collected(frags, Spreads(frag.selectionSet.selections), FragmentUses(frag), visited, used, visited', used')
    decreases frags.Keys - visited
  {
    hide Collected, UsesInDirectives, UsesInSelections, Spreads;
    used' := CollectInDirectives(frag.directives, used);
    ghost var u, own := used', UsesInDirectives(frag.directives);
    CollectedUsesOnly(frags, own, visited, used, u);
    visited', used' := CollectInSelections(frag.selectionSet.selections, frags, visited, used');
    ghost var s, t := Spreads(frag.selectionSet.selections), UsesInSelections(frag.selectionSet.selections);
    CollectedCompose(frags, {}, own, s, t, visited, used, visited, u, visited', used');
    ghost var none: set<string> := {};
    assert none + s == s;
  }

  // ----- variables of one operation -----

  function OpName(op: Definition): Option<Name>
    requires !op.Fragment?
  {
    if op.Operation? then op.opName else None
  }

  function OpVariables(op: Definition): seq<VariableDefinition>
    requires !op.Fragment?
  {
    if op.Operation? then Listed(op.variables) else []
  }

  function OpDirectives(op: Definition): seq<Directive>
    requires !op.Fragment?
  {
    if op.Operation? then op.directives else []
  }

  function UsesInVariable(v: VariableDefinition): set<Name> {
    (if v.default.Some? then UsesInValue(v.default.value) else {}) + UsesInDirectives(v.directives)
  }

  function UsesInVariables(vs: seq<VariableDefinition>): set<Name> {
    if vs == [] then {} else UsesInVariables(vs[..|vs|-1]) + UsesInVariable(vs[|vs|-1])
  }

  /** `use` is an occurrence of a variable in the operation, or in a fragment that the operation
      reaches through spreads. */
  ghost predicate UsedBy(op: Definition, frags: Fragments, use: Name)
    requires !op.Fragment?
  {
    || use in UsesInDirectives(OpDirectives(op))
    || use in UsesInSelections(op.selectionSet.selections)
    || use in UsesInVariables(OpVariables(op))
    || exists f ::
      f in frags && Reachable(frags, Spreads(op.selectionSet.selections), f) && use in FragmentUses(frags[f])
  }

  ghost predicate Uses(op: Definition, frags: Fragments, name: string)
    requires !op.Fragment?
  {
    exists span :: UsedBy(op, frags, Name(name, span))
  }

  ghost predicate Declares(op: Definition, name: string)
    requires !op.Fragment?
  {
    exists v :: v in OpVariables(op) && v.name.value == name
  }

  lemma {:induction false} PathVisited(frags: Fragments, start: set<string>, visited: set<string>, path: seq<string>)
    requires Walked(frags, start, {}, visited) && IsSpreadPath(frags, start, path)
    ensures path[|path|-1] in visited
    decreases |path|
  {
    hide Spreads, Reachable;
    if |path| > 1 {
      var init := path[..|path|-1];
      assert IsSpreadPath(frags, start, init);
      PathVisited(frags, start, visited, init);
      assert LeadsTo(frags, path[|path|-2], path[|path|-1]);
    }
  }

  /** A walk from nothing visits exactly the reachable names. */
  lemma {:induction false} WalkVisitsReachable(frags: Fragments, start: set<string>, visited: set<string>)
    requires Walked(frags, start, {}, visited)
    ensures forall n :: n in visited <==> Reachable(frags, start, n)
  {
    hide Spreads, LeadsTo;
    forall n | Reachable(frags, start, n) ensures n in visited {
      var path :| IsSpreadPath(frags, start, path) && path[|path|-1] == n;
      PathVisited(frags, start, visited, path);
    }
  }

  /** `used` names exactly the variables that the operation uses, each with the position of a use. */
  ghost predicate IsUsage(op: Definition, frags: Fragments, used: map<string, Span>)
    requires !op.Fragment?
  {
    && (forall k :: k in used ==> UsedBy(op, frags, Name(k, used[k])))
    && (forall n :: UsedBy(op, frags, n) ==> n.value in used)
  }

  lemma {:induction false} UsageFound(op: Definition, frags: Fragments, visited: set<string>, used: map<string, Span>)
    requires !op.Fragment?
    requires Walked(frags, Spreads(op.selectionSet.selections), {}, visited)
    requires Adds(map[], used, UsesInDirectives(OpDirectives(op)) +
               (UsesInSelections(op.selectionSet.selections) + UsesBehind(frags, visited)) +
                 UsesInVariables(OpVariables(op)))
    ensures IsUsage(op, frags, used)
  {
    WalkVisitsReachable(frags, Spreads(op.selectionSet.selections), visited);
    hide UsesInDirectives, UsesInSelections, UsesInVariables, Spreads, Reachable, FragmentUses, Walked;
  }

  method CollectInVariables(vs: seq<VariableDefinition>, used: map<string, Span>) returns (used': map<string, Span>)
    ensures Adds(used, used', UsesInVariables(vs))
  {
    hide UsesInValue, UsesInDirectives;
    used' := used;
    for i := 0 to |vs|
      invariant Adds(used, used', UsesInVariables(vs[..i]))
    {
      ghost var before, own: set<Name> := used', {};
      if vs[i].default.Some? {
        used' := CollectInValue(vs[i].default.value, used');
        own := UsesInValue(vs[i].default.value);
      }
      ghost var between := used';
      used' := CollectInDirectives(vs[i].directives, used');
      AddsCompose(before, between, used', own, UsesInDirectives(vs[i].directives));
      assert vs[..i+1][..i] == vs[..i];
      AddsCompose(used, before, used', UsesInVariables(vs[..i]), UsesInVariable(vs[i]));
    }
    assert vs[..|vs|] == vs;
  }

  method CollectUses(op: Definition, frags: Fragments) returns (used: map<string, Span>)
    requires !op.Fragment?
    ensures IsUsage(op, frags, used)
  {
    hide Walked, UsesInDirectives, UsesInSelections, UsesInVariables, Spreads, Adds, UsesBehind, IsUsage;
    used := CollectInDirectives(OpDirectives(op), map[]);
    ghost var first := used;
    var visited;
    visited, used := CollectInSelections(op.selectionSet.selections, frags, {}, used);
    ghost var second := used;
    used := CollectInVariables(OpVariables(op), used);
    assert visited - {} == visited;
    ghost var behind := UsesInSelections(op.selectionSet.selections) + UsesBehind(frags, visited);
    AddsCompose(map[], first, second, UsesInDirectives(OpDirectives(op)), behind);
    AddsCompose(map[], second, used, UsesInDirectives(OpDirectives(op)) + behind, UsesInVariables(OpVariables(op)));
    UsageFound(op, frags, visited, used);
  }

  /** `declared` holds the last declaration of each declared name. */
  ghost predicate IsDeclared(vs: seq<VariableDefinition>, declared: map<string, Span>) {
    && (forall v :: v in vs ==> v.name.value in declared)
    && (forall k :: k in declared ==> LastDeclared(vs, k, declared[k]))
  }

  ghost predicate LastDeclared(vs: seq<VariableDefinition>, name: string, span: Span) {
    exists i :: 0 <= i < |vs| && vs[i].name == Name(name, span) && forall j :: i < j < |vs| ==> vs[j].name.value != name
  }

  lemma {:induction false} LastDeclaredKept(vs: seq<VariableDefinition>, v: VariableDefinition, name: string,
                                            span: Span)
    requires LastDeclared(vs, name, span) && v.name.value != name
    ensures LastDeclared(vs + [v], name, span)
  {
    var i :| 0 <= i < |vs| && vs[i].name == Name(name, span) && forall j :: i < j < |vs| ==> vs[j].name.value != name;
    assert (vs + [v])[i].name == Name(name, span);
  }

  lemma {:induction false} DeclaredStep(vs: seq<VariableDefinition>, v: VariableDefinition, declared: map<string, Span>)
    requires IsDeclared(vs, declared)
    ensures IsDeclared(vs + [v], declared[v.name.value := v.name.span])
  {
    assert LastDeclared(vs + [v], v.name.value, v.name.span) by {
      assert (vs + [v])[|vs|] == v;
    }
    hide LastDeclared;
    forall k | k in declared && k != v.name.value ensures LastDeclared(vs + [v], k, declared[k]) {
      LastDeclaredKept(vs, v, k, declared[k]);
    }
  }

  method Declarations(vs: seq<VariableDefinition>) returns (declared: map<string, Span>, order: seq<string>)
    ensures IsDeclared(vs, declared)
    ensures (forall k :: k in order <==> k in declared) && Distinct(order)
  {
    declared, order := map[], [];
    for i := 0 to |vs|
      invariant IsDeclared(vs[..i], declared)
      invariant (forall k :: k in order <==> k in declared) && Distinct(order)
    {
      if vs[i].name.value !in declared {
        order := order + [vs[i].name.value];
      }
      DeclaredStep(vs[..i], vs[i], declared);
      assert vs[..i] + [vs[i]] == vs[..i+1];
      declared := declared[vs[i].name.value := vs[i].name.span];
    }
    assert vs[..|vs|] == vs;
  }

  /** `f` reports that the operation uses `name` without declaring it, or declares it in vain. */
  ghost predicate Reports(op: Definition, frags: Fragments, name: string, f: Finding)
    requires !op.Fragment?
  {
    || (f.rule == NoUndefinedVariables && UsedBy(op, frags, Name(name, f.span)) && !Declares(op, name))
    || (f.rule == NoUnusedVariables && LastDeclared(OpVariables(op), name, f.span) && !Uses(op, frags, name))
  }

  /** One finding for each of `names`, without repetition. */
  ghost predicate ReportsEach(op: Definition, frags: Fragments, names: seq<string>, findings: seq<Finding>)
    requires !op.Fragment?
  {
    && |names| == |findings| && Distinct(names)
    && forall i :: 0 <= i < |names| ==> Reports(op, frags, names[i], findings[i])
  }

  /** There is one finding for each name that is used and not declared, or declared and not used, and
      no other. */
  ghost predicate ReportsAll(op: Definition, frags: Fragments, findings: seq<Finding>)
    requires !op.Fragment?
  {
    exists names :: ReportsEach(op, frags, names, findings) && forall n :: n in names <==>
      Uses(op, frags, n) != Declares(op, n)
  }

  lemma {:induction false} ReportsOneMore(op: Definition, frags: Fragments, names: seq<string>, findings: seq<Finding>,
                                          name: string, f: Finding)
    requires !op.Fragment? && ReportsEach(op, frags, names, findings)
    requires name !in names && Reports(op, frags, name, f)
    ensures ReportsEach(op, frags, names + [name], findings + [f])
  {
    hide Reports;
  }

  method CheckVariables(op: Definition, frags: Fragments) returns (findings: seq<Finding>)
    requires !op.Fragment?
    ensures ReportsAll(op, frags, findings)
  {
    hide UsedBy, OpVariables, LastDeclared;
    var declared, order := Declarations(OpVariables(op));
    var used := CollectUses(op, frags);
    UsageDecides(op, frags, used);
    DeclarationsDecide(op, declared);
    findings := [];
    ghost var names: seq<string> := [];
    assert ReportsEach(op, frags, names, findings);
    hide ReportsEach, Uses, Declares;
    var todo := used.Keys;
    while todo != {}
      invariant todo <= used.Keys
      invariant ReportsEach(op, frags, names, findings)
      invariant forall n :: n in names <==> n in used && n !in declared && n !in todo
    {
      var name :| name in todo;
      todo := todo - {name};
      if name !in declared {
        ReportsOneMore(op, frags, names, findings, name, Finding(NoUndefinedVariables, used[name]));
        findings, names := findings + [Finding(NoUndefinedVariables, used[name])], names + [name];
      }
    }
    for i := 0 to |order|
      invariant ReportsEach(op, frags, names, findings)
      invariant forall n :: n in names <==> (n in used && n !in declared) || (n !in used && n in order[..i])
    {
      if order[i] !in used {
        ReportsOneMore(op, frags, names, findings, order[i], Finding(NoUnusedVariables, declared[order[i]]));
        findings, names := findings + [Finding(NoUnusedVariables, declared[order[i]])], names + [order[i]];
      }
    }
    assert order[..|order|] == order;
  }

  lemma {:induction false} UsageDecides(op: Definition, frags: Fragments, used: map<string, Span>)
    requires !op.Fragment? && IsUsage(op, frags, used)
    ensures forall n :: n in used <==> Uses(op, frags, n)
    ensures forall k :: k in used ==> UsedBy(op, frags, Name(k, used[k]))
  {
    hide UsedBy;
  }

  lemma {:induction false} DeclarationsDecide(op: Definition, declared: map<string, Span>)
    requires !op.Fragment? && IsDeclared(OpVariables(op), declared)
    ensures forall n :: n in declared <==> Declares(op, n)
    ensures forall k :: k in declared ==> LastDeclared(OpVariables(op), k, declared[k])
  {
    forall n | n in declared ensures Declares(op, n) {
      assert LastDeclared(OpVariables(op), n, declared[n]);
    }
  }
}
