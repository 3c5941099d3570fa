/** The rules of magna-gqlmin `validate.rs` as statements about the tokens of the definitions. */
module RulesOnTokens {
  import opened Basics
  import opened Syntax
  import opened Printer
  import opened Validation
  import opened OperationRules
  import opened TokenUses

  ghost predicate AllFine(frags: Fragments) {
    forall k :: k in frags ==> FineDefinition(frags[k])
  }

  // ----- reaching fragments -----

  ghost predicate TokensLead(frags: Fragments, a: string, b: string) {
    a in frags && b in SpreadWords(PrintDefinition(frags[a]))
  }

  /** A walk from a name spread in `def` through the names spread in one fragment after the other. */
  ghost predicate IsTokenPath(frags: Fragments, def: Definition, path: seq<string>) {
    && path != [] && path[0] in SpreadWords(PrintDefinition(def))
    && forall k :: 0 < k < |path| ==> TokensLead(frags, path[k-1], path[k])
  }

  ghost predicate TokensReach(frags: Fragments, def: Definition, name: string) {
    exists path :: IsTokenPath(frags, def, path) && path[|path|-1] == name
  }

  lemma {:induction false} SpreadsOnTokens(def: Definition, x: string)
    requires FineDefinition(def)
    ensures x in SpreadWords(PrintDefinition(def)) <==> x in Spreads(def.selectionSet.selections)
  {
    DefinitionTells(def);
    hide SpreadWords, PrintDefinition, SpreadNames;
    var names := SpreadNames(def.selectionSet.selections);
    assert x in TextsInOrder(names) <==> x in Texts(names) by {
      TextsAgree(names, x);
    }
  }

  lemma {:induction false} TextsAgree(names: seq<Name>, x: string)
    ensures x in TextsInOrder(names) <==> x in Texts(names)
  {
    if x in Texts(names) {
      var n :| n in names && n.value == x;
      var i :| 0 <= i < |names| && names[i] == n;
      assert TextsInOrder(names)[i] == x;
    }
  }

  lemma {:induction false} ReachOnTokens(frags: Fragments, def: Definition, name: string)
    requires FineDefinition(def) && AllFine(frags)
    ensures Reachable(frags, Spreads(def.selectionSet.selections), name) <==> TokensReach(frags, def, name)
  {
    forall path
      ensures IsSpreadPath(frags, Spreads(def.selectionSet.selections), path) <==> IsTokenPath(frags, def, path) {
      PathOnTokens(frags, def, path);
    }
    hide IsSpreadPath, IsTokenPath;
    if Reachable(frags, Spreads(def.selectionSet.selections), name) {
      var path :| IsSpreadPath(frags, Spreads(def.selectionSet.selections), path) && EndsAt(path, name);
      assert IsTokenPath(frags, def, path) && EndsAt(path, name);
    }
    if TokensReach(frags, def, name) {
      var path :| IsTokenPath(frags, def, path) && EndsAt(path, name);
      assert IsSpreadPath(frags, Spreads(def.selectionSet.selections), path) && EndsAt(path, name);
    }
  }

  predicate EndsAt(path: seq<string>, name: string) {
    path != [] && path[|path|-1] == name
  }

  lemma {:induction false} PathOnTokens(frags: Fragments, def: Definition, path: seq<string>)
    requires FineDefinition(def) && AllFine(frags)
    ensures IsSpreadPath(frags, Spreads(def.selectionSet.selections), path) <==> IsTokenPath(frags, def, path)
  {
    hide SpreadWords, PrintDefinition, Spreads, FineDefinition;
    if path != [] {
      SpreadsOnTokens(def, path[0]);
    }
    forall k | 0 < k < |path| ensures LeadsTo(frags, path[k-1], path[k]) <==> TokensLead(frags, path[k-1], path[k]) {
      if path[k-1] in frags {
        SpreadsOnTokens(frags[path[k-1]], path[k]);
      }
    }
  }

  // ----- uses and declarations -----

  /** `$` and the name, without a colon, stand in the operation or in a fragment that it reaches. */
  ghost predicate TokensUse(op: Definition, frags: Fragments, name: string) {
    || name in Used(PrintDefinition(op))
    || exists f :: f in frags && TokensReach(frags, op, f) && name in Used(PrintDefinition(frags[f]))
  }

  lemma {:induction false} OwnUsesOnTokens(def: Definition, name: string)
    requires FineDefinition(def)
    ensures name in Used(PrintDefinition(def)) <==> exists span :: Name(name, span) in OwnUses(def)
  {
    DefinitionTells(def);
    hide Used, PrintDefinition, OwnUses;
    if name in NamesOf(OwnUses(def)) {
      var n :| n in OwnUses(def) && n.value == name;
      assert Name(name, n.span) in OwnUses(def);
    }
  }

  /** `use` stands in the operation itself, or in a fragment that it reaches. */
  lemma {:induction false} UsedBySplits(op: Definition, frags: Fragments, use: Name)
    requires !op.Fragment?
    ensures UsedBy(op, frags, use) <==>
      || use in OwnUses(op)
      || exists f :: f in frags && Reachable(frags, Spreads(op.selectionSet.selections), f) && use in OwnUses(frags[f])
  {
    hide UsesInDirectives, UsesInSelections, UsesInVariables, Reachable, Spreads;
    forall f | f in frags ensures OwnUses(frags[f]) == FragmentUses(frags[f]) {
    }
  }

  /** The validator's uses are the token's. */
  lemma {:induction false} UsesOnTokens(op: Definition, frags: Fragments, name: string)
    requires !op.Fragment? && FineDefinition(op) && AllFine(frags)
    ensures Uses(op, frags, name) <==> TokensUse(op, frags, name)
  {
    hide UsedBy, Used, PrintDefinition, OwnUses, Reachable, TokensReach, FineDefinition, Spreads;
    OwnUsesOnTokens(op, name);
    forall f | f in frags
      ensures Reachable(frags, Spreads(op.selectionSet.selections), f) <==> TokensReach(frags, op, f)
      ensures name in Used(PrintDefinition(frags[f])) <==> exists span :: Name(name, span) in OwnUses(frags[f])
    {
      ReachOnTokens(frags, op, f);
      OwnUsesOnTokens(frags[f], name);
    }
    forall use ensures UsedBy(op, frags, use) <==>
      use in OwnUses(op) ||
      exists f :: f in frags && Reachable(frags, Spreads(op.selectionSet.selections), f) && use in OwnUses(frags[f])
    {
      UsedBySplits(op, frags, use);
    }
    if TokensUse(op, frags, name) {
      if name in Used(PrintDefinition(op)) {
        var span :| Name(name, span) in OwnUses(op);
        assert UsedBy(op, frags, Name(name, span));
      } else {
        var f :| f in frags && TokensReach(frags, op, f) && name in Used(PrintDefinition(frags[f]));
        var span :| Name(name, span) in OwnUses(frags[f]);
        assert UsedBy(op, frags, Name(name, span));
      }
    }
  }

  /** The validator's declarations are the tokens' `$`, name and colon. */
  lemma {:induction false} DeclarationsOnTokens(op: Definition, name: string)
    requires !op.Fragment? && FineDefinition(op)
    ensures Declares(op, name) <==> name in Declared(PrintDefinition(op))
  {
    DefinitionTells(op);
    assert Declared(PrintDefinition(op)) == VariableNames(OpVariables(op));
    hide Declared, PrintDefinition, FineDefinition, Tells, OpVariables, VariableNames;
    NamesAgree(OpVariables(op), name);
  }

  lemma {:induction false} NamesAgree(vs: seq<VariableDefinition>, name: string)
    ensures name in VariableNames(vs) <==> exists v :: v in vs && v.name.value == name
  {
    if v :| v in vs && v.name.value == name {
      var i :| 0 <= i < |vs| && vs[i] == v;
      assert VariableNames(vs)[i] == name;
    }
  }

  // ----- the rules -----

  /** Sections 5.8.3, 5.8.4, 5.5.1.4 and 5.5.2.1 of GraphQL October 2021, about tokens. */
  ghost predicate TokensObey(defs: seq<Definition>, rule: Rule) {
    match rule
    case NoUndefinedVariables =>
      forall op, x :: op in defs && !op.Fragment? && TokensUse(op, FragmentsByName(defs), x) ==>
        x in Declared(PrintDefinition(op))
    case NoUnusedVariables =>
      forall op, x :: op in defs && !op.Fragment? && x in Declared(PrintDefinition(op)) ==>
        TokensUse(op, FragmentsByName(defs), x)
    case NoUnusedFragments =>
      forall d :: d in defs && d.Fragment? ==> exists e :: e in defs && d.name.value in SpreadWords(PrintDefinition(e))
    case KnownFragmentNames =>
      forall d, x :: d in defs && x in SpreadWords(PrintDefinition(d)) ==> x in FragmentsByName(defs)
    case UniqueOperationNames => Obeys(defs, UniqueOperationNames)
  }

  /** Of several fragments with one name, the last one counts. */
  lemma {:induction false} LastFragmentCounts(defs: seq<Definition>, k: string)
    requires k in FragmentsByName(defs)
    ensures exists i :: 0 <= i < |defs| && defs[i] == FragmentsByName(defs)[k] && IsLastNamed(defs, i, k)
  {
    var n := |defs| - 1;
    if defs[n].Fragment? && defs[n].name.value == k {
      assert IsLastNamed(defs, n, k);
    } else {
      LastFragmentCounts(defs[..n], k);
      var i :| 0 <= i < n && defs[..n][i] == FragmentsByName(defs[..n])[k] && IsLastNamed(defs[..n], i, k);
      assert defs[i] == FragmentsByName(defs)[k] && IsLastNamed(defs, i, k);
    }
  }

  ghost predicate IsLastNamed(defs: seq<Definition>, i: nat, k: string)
    requires i < |defs|
  {
    && defs[i].Fragment? && defs[i].name.value == k
    && forall j :: i < j < |defs| && defs[j].Fragment? ==> defs[j].name.value != k
  }

  lemma {:induction false} FineMembers(defs: seq<Definition>, d: Definition)
    requires FineDefinitions(defs) && d in defs
    ensures FineDefinition(d)
  {
    hide FineDefinition;
    if d != defs[0] {
      FineMembers(defs[1..], d);
    }
  }

  lemma {:induction false} FragmentsAreFine(defs: seq<Definition>)
    requires FineDefinitions(defs)
    ensures AllFine(FragmentsByName(defs))
  {
    hide FineDefinition, FineDefinitions;
    forall k | k in FragmentsByName(defs) ensures FineDefinition(FragmentsByName(defs)[k]) {
      LastFragmentCounts(defs, k);
      FineMembers(defs, FragmentsByName(defs)[k]);
    }
  }

  /** The validator's rules are rules about the tokens of the document. */
  lemma {:induction false} RulesAreAboutTokens(defs: seq<Definition>, rule: Rule)
    requires FineDefinitions(defs)
    ensures Obeys(defs, rule) <==> TokensObey(defs, rule)
  {
    hide Uses, Declares, TokensUse, Declared, SpreadWords, PrintDefinition, FragmentsByName, FineDefinition,
      FineDefinitions,
      SpreadNames;
    FragmentsAreFine(defs);
    var frags := FragmentsByName(defs);
    forall op, x | op in defs && !op.Fragment?
      ensures Uses(op, frags, x) <==> TokensUse(op, frags, x)
      ensures Declares(op, x) <==> x in Declared(PrintDefinition(op))
    {
      FineMembers(defs, op);
      UsesOnTokens(op, frags, x);
      DeclarationsOnTokens(op, x);
    }
    forall d, x | d in defs
      ensures x in SpreadWords(PrintDefinition(d)) <==> x in Spreads(d.selectionSet.selections)
    {
      FineMembers(defs, d);
      SpreadsOnTokens(d, x);
    }
  }
}
