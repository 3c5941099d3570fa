/** The whole operations-only validator (magna-gqlmin `validate_operations`): each rule is reported
    exactly when the document breaks it. */
module OperationRules {
  import opened Basics
  import opened Syntax
  import opened Validation

  ghost predicate IsOperations(ops: seq<Definition>) {
    forall i :: 0 <= i < |ops| ==> !ops[i].Fragment?
  }

  // ----- operation names -----

  ghost predicate Anonymous(ops: seq<Definition>, i: nat, span: Span)
    requires IsOperations(ops) && i < |ops|
  {
    OpName(ops[i]).None? && ops[i].span == span
  }

  /** Operations `i` and `j` have the same name, which stands at `span` in the latter. */
  ghost predicate Clash(ops: seq<Definition>, i: nat, j: nat, span: Span)
    requires IsOperations(ops) && i < |ops| && j < |ops|
  {
    && OpName(ops[i]).Some? && OpName(ops[j]).Some?
    && OpName(ops[j]).value == Name(OpName(ops[i]).value.value, span)
  }

  ghost predicate AnonymousAmong(ops: seq<Definition>, n: nat, span: Span)
    requires IsOperations(ops) && n <= |ops|
  {
    exists i :: 0 <= i < n && Anonymous(ops, i, span)
  }

  ghost predicate ClashAmong(ops: seq<Definition>, n: nat, span: Span)
    requires IsOperations(ops) && n <= |ops|
  {
    exists i, j :: 0 <= i < j < n && Clash(ops, i, j, span)
  }

  /** Something is wrong with an operation's name, and `span` says where. */
  ghost predicate NamingFault(ops: seq<Definition>, span: Span)
    requires IsOperations(ops)
  {
    (|ops| > 1 && AnonymousAmong(ops, |ops|, span)) || ClashAmong(ops, |ops|, span)
  }

  /** Section 5.2.1.1 of GraphQL October 2021: operations that have names have different ones. */
  ghost predicate NamesDiffer(ops: seq<Definition>)
    requires IsOperations(ops)
  {
    forall i, j :: 0 <= i < j < |ops| && OpName(ops[i]).Some? && OpName(ops[j]).Some? ==>
      OpName(ops[i]).value.value != OpName(ops[j]).value.value
  }

  /** Section 5.2.2.1: an operation without a name is the only operation. */
  ghost predicate AnonymousIsAlone(ops: seq<Definition>)
    requires IsOperations(ops)
  {
    |ops| > 1 ==> forall i :: 0 <= i < |ops| ==> OpName(ops[i]).Some?
  }

  /** Reused names are what section 5.2.1.1 forbids, and anonymous operations among several what section
      5.2.2.1 forbids; the one rule of the code reports both. */
  lemma {:induction false} FaultlessNames(ops: seq<Definition>)
    requires IsOperations(ops)
    ensures NamesDiffer(ops) <==> forall span :: !ClashAmong(ops, |ops|, span)
    ensures AnonymousIsAlone(ops) <==> |ops| <= 1 || forall span :: !AnonymousAmong(ops, |ops|, span)
    ensures NamesDiffer(ops) && AnonymousIsAlone(ops) <==> forall span :: !NamingFault(ops, span)
  {
    if i, j :| 0 <= i < j < |ops| && OpName(ops[i]).Some? && OpName(ops[j]).Some? &&
               OpName(ops[i]).value.value == OpName(ops[j]).value.value {
      var span := OpName(ops[j]).value.span;
      assert Clash(ops, i, j, span) && ClashAmong(ops, |ops|, span) && NamingFault(ops, span);
    }
    if i :| 0 <= i < |ops| && OpName(ops[i]).None? {
      assert Anonymous(ops, i, ops[i].span) && AnonymousAmong(ops, |ops|, ops[i].span);
      assert |ops| > 1 ==> NamingFault(ops, ops[i].span);
    }
  }

  method CheckUniqueOperationNames(ops: seq<Definition>) returns (findings: seq<Finding>)
    requires IsOperations(ops)
    ensures forall f :: f in findings <==> f.rule == UniqueOperationNames && NamingFault(ops, f.span)
  {
    findings := [];
    if |ops| > 1 {
      for i := 0 to |ops|
        invariant forall f :: f in findings <==> f.rule == UniqueOperationNames && AnonymousAmong(ops, i, f.span)
      {
        assert forall s :: AnonymousAmong(ops, i + 1, s) <==> AnonymousAmong(ops, i, s) || Anonymous(ops, i, s);
        if OpName(ops[i]).None? {
          findings := findings + [Finding(UniqueOperationNames, ops[i].span)];
        }
      }
    }
    hide AnonymousAmong;
    ghost var anonymous := findings;
    var seen: set<string> := {};
    for j := 0 to |ops|
      invariant forall n :: n in seen <==>
        exists k :: 0 <= k < j && OpName(ops[k]).Some? && OpName(ops[k]).value.value == n
      invariant forall f :: f in findings <==>
        (f in anonymous || (f.rule == UniqueOperationNames && ClashAmong(ops, j, f.span)))
    {
      var name := OpName(ops[j]);
      ClashStep(ops, j);
      if name.Some? {
        if name.value.value in seen {
          ghost var i :| 0 <= i < j && OpName(ops[i]).Some? && OpName(ops[i]).value.value == name.value.value;
          assert Clash(ops, i, j, name.value.span);
          findings := findings + [Finding(UniqueOperationNames, name.value.span)];
        }
        seen := seen + {name.value.value};
      }
    }
  }

  lemma {:induction false} ClashStep(ops: seq<Definition>, j: nat)
    requires IsOperations(ops) && j < |ops|
    ensures forall s :: ClashAmong(ops, j + 1, s) <==>
      ClashAmong(ops, j, s) || exists i :: 0 <= i < j && Clash(ops, i, j, s)
  {
    forall s | ClashAmong(ops, j + 1, s) && !ClashAmong(ops, j, s)
      ensures exists i :: 0 <= i < j && Clash(ops, i, j, s) {
      var i, k :| 0 <= i < k < j + 1 && Clash(ops, i, k, s);
      assert k == j;
    }
  }

  // ----- fragment names -----

  /** How often `name` occurs among `names`. */
  function Times(names: seq<Name>, name: string): nat {
    if names == [] then 0 else Times(names[..|names|-1], name) + if names[|names|-1].value == name then 1 else 0
  }

  /** A finding for each spread of an undefined fragment. */
  function UnknownSpreads(frags: Fragments, names: seq<Name>): seq<Finding> {
    if names == [] then [] else
      UnknownSpreads(frags, names[..|names|-1]) +
      if names[|names|-1].value in frags then [] else [Finding(KnownFragmentNames, names[|names|-1].span)]
  }

  lemma {:induction false} UnknownConcat(frags: Fragments, a: seq<Name>, b: seq<Name>)
    ensures UnknownSpreads(frags, a + b) == UnknownSpreads(frags, a) + UnknownSpreads(frags, b)
    decreases |b|
  {
    if b == [] {
      assert a + b == a;
    } else {
      var init, last := b[..|b|-1], b[|b|-1];
      UnknownConcat(frags, a, init);
      assert (a + b)[..|a+b|-1] == a + init && (a + b)[|a+b|-1] == last;
    }
  }

  lemma {:induction false} TimesConcat(a: seq<Name>, b: seq<Name>, k: string)
    ensures Times(a + b, k) == Times(a, k) + Times(b, k)
    decreases |b|
  {
    if b == [] {
      assert a + b == a;
    } else {
      var init, last := b[..|b|-1], b[|b|-1];
      TimesConcat(a, init, k);
      assert (a + b)[..|a+b|-1] == a + init && (a + b)[|a+b|-1] == last;
    }
  }

  lemma {:induction false} TimesIsMembership(names: seq<Name>, k: string)
    ensures Times(names, k) == 0 <==> k !in Texts(names)
  {
    if names != [] {
      TimesIsMembership(names[..|names|-1], k);
      assert names == names[..|names|-1] + [names[|names|-1]];
    }
  }

  lemma {:induction false} UnknownIsMembership(frags: Fragments, names: seq<Name>)
    ensures forall f :: f in UnknownSpreads(frags, names) <==>
      exists n :: n in names && n.value !in frags && f == Finding(KnownFragmentNames, n.span)
  {
    if names != [] {
      UnknownIsMembership(frags, names[..|names|-1]);
      assert names == names[..|names|-1] + [names[|names|-1]];
    }
  }

  ghost predicate Counted(counts: map<string, nat>, counts': map<string, nat>, names: seq<Name>) {
    counts'.Keys == counts.Keys && forall k :: k in counts ==> counts'[k] == counts[k] + Times(names, k)
  }

  method WalkFragmentSpreads(sels: seq<Selection>, frags: Fragments, counts: map<string, nat>)
    returns (counts': map<string, nat>, findings: seq<Finding>)
    requires counts.Keys == frags.Keys
    ensures Counted(counts, counts', SpreadNames(sels))
    ensures findings == UnknownSpreads(frags, SpreadNames(sels))
    decreases sels, 1
  {
    hide SpreadNamesOf;
    counts', findings := counts, [];
    for i := 0 to |sels|
      invariant Counted(counts, counts', SpreadNames(sels[..i]))
      invariant findings == UnknownSpreads(frags, SpreadNames(sels[..i]))
    {
      ghost var before := counts';
      var more;
      counts', more := WalkSelection(sels[i], frags, counts');
      findings := findings + more;
      assert sels[..i+1][..i] == sels[..i];
      CountedCompose(frags, counts, before, counts', SpreadNames(sels[..i]), SpreadNamesOf(sels[i]));
    }
    assert sels[..|sels|] == sels;
  }

  method WalkSelection(sel: Selection, frags: Fragments, counts: map<string, nat>)
    returns (counts': map<string, nat>, findings: seq<Finding>)
    requires counts.Keys == frags.Keys
    ensures Counted(counts, counts', SpreadNamesOf(sel))
    ensures findings == UnknownSpreads(frags, SpreadNamesOf(sel))
    decreases sel, 0
  {
    hide SpreadNames;
    counts', findings := counts, [];
    match sel
    case Field(_, _, _, _, inner) =>
      if inner.Some? {
        counts', findings := WalkFragmentSpreads(inner.value.selections, frags, counts);
      }
    case FragmentSpread(name, _) =>
      assert forall k :: Times([name], k) == Times([], k) + if name.value == k then 1 else 0;
      if name.value in frags {
        counts' := counts[name.value := counts[name.value] + 1];
      } else {
        findings := [Finding(KnownFragmentNames, name.span)];
      }
    case InlineFragment(_, _, inner) =>
      counts', findings := WalkFragmentSpreads(inner.selections, frags, counts);
  }

  lemma {:induction false} CountedCompose(frags: Fragments, a: map<string, nat>, b: map<string, nat>,
                                          c: map<string, nat>, x: seq<Name>, y: seq<Name>)
    requires Counted(a, b, x) && Counted(b, c, y)
    ensures Counted(a, c, x + y)
    ensures UnknownSpreads(frags, x + y) == UnknownSpreads(frags, x) + UnknownSpreads(frags, y)
  {
    hide Times, UnknownSpreads;
    UnknownConcat(frags, x, y);
    forall k | k in a ensures c[k] == a[k] + Times(x + y, k) {
      TimesConcat(x, y, k);
    }
  }

  // ----- the document -----

  function Operations(defs: seq<Definition>): seq<Definition> {
    if defs == [] then [] else
      Operations(defs[..|defs|-1]) + if defs[|defs|-1].Fragment? then [] else [defs[|defs|-1]]
  }

  function FragmentsIn(defs: seq<Definition>): seq<Definition> {
    if defs == [] then [] else
      FragmentsIn(defs[..|defs|-1]) + if defs[|defs|-1].Fragment? then [defs[|defs|-1]] else []
  }

  function FragmentsByName(defs: seq<Definition>): Fragments {
    if defs == [] then map[] else
      var before := FragmentsByName(defs[..|defs|-1]);
      var last := defs[|defs|-1];
      if last.Fragment? then before[last.name.value := last] else before
  }

  lemma {:induction false} DefinitionsSplit(defs: seq<Definition>)
    ensures forall d :: d in Operations(defs) <==> d in defs && !d.Fragment?
    ensures forall d :: d in FragmentsIn(defs) <==> d in defs && d.Fragment?
    ensures IsOperations(Operations(defs))
    ensures forall k :: k in FragmentsByName(defs) <==> exists d :: d in defs && d.Fragment? && d.name.value == k
  {
    if defs != [] {
      DefinitionsSplit(defs[..|defs|-1]);
      assert defs == defs[..|defs|-1] + [defs[|defs|-1]];
    }
  }

  function AllSpreads(ds: seq<Definition>): seq<Name> {
    if ds == [] then [] else AllSpreads(ds[..|ds|-1]) + SpreadNames(ds[|ds|-1].selectionSet.selections)
  }

  lemma {:induction false} AllSpreadsAre(ds: seq<Definition>)
    ensures forall n :: n in AllSpreads(ds) <==> exists d :: d in ds && n in SpreadNames(d.selectionSet.selections)
  {
    hide SpreadNames;
    if ds != [] {
      AllSpreadsAre(ds[..|ds|-1]);
      assert ds == ds[..|ds|-1] + [ds[|ds|-1]];
    }
  }

  ghost predicate IsSpread(defs: seq<Definition>, name: string) {
    exists d :: d in defs && name in Spreads(d.selectionSet.selections)
  }

  /** `f` points at a place where the document breaks the rule. */
  ghost predicate Justified(defs: seq<Definition>, f: Finding) {
    match f.rule
    case NoUndefinedVariables => VariableFault(defs, f)
    case NoUnusedVariables => VariableFault(defs, f)
    case NoUnusedFragments => exists d :: d in defs && d.Fragment? && d.span == f.span && !IsSpread(defs, d.name.value)
    case KnownFragmentNames => exists d, n :: d in defs && n in SpreadNames(d.selectionSet.selections) &&
                                 n.value !in FragmentsByName(defs) && n.span == f.span
    case UniqueOperationNames => IsOperations(Operations(defs)) && NamingFault(Operations(defs), f.span)
  }

  ghost predicate VariableFault(defs: seq<Definition>, f: Finding) {
    exists op, name :: op in defs && !op.Fragment? && Reports(op, FragmentsByName(defs), name, f)
  }

  ghost predicate VariableReported(op: Definition, frags: Fragments, name: string, errors: seq<Finding>)
    requires !op.Fragment?
  {
    exists f :: f in errors && Reports(op, frags, name, f)
  }

  /** The rules themselves: sections 5.8.3, 5.8.4, 5.5.1.4 and 5.5.2.1 of GraphQL October 2021, and
      5.2.1.1 together with 5.2.2.1. */
  ghost predicate Obeys(defs: seq<Definition>, rule: Rule) {
    match rule
    case NoUndefinedVariables =>
      forall op, name :: op in defs && !op.Fragment? && Uses(op, FragmentsByName(defs), name) ==> Declares(op, name)
    case NoUnusedVariables =>
      forall op, name :: op in defs && !op.Fragment? && Declares(op, name) ==> Uses(op, FragmentsByName(defs), name)
    case NoUnusedFragments => forall d :: d in defs && d.Fragment? ==> IsSpread(defs, d.name.value)
    case KnownFragmentNames =>
      forall d, n :: d in defs && n in SpreadNames(d.selectionSet.selections) ==> n.value in FragmentsByName(defs)
    case UniqueOperationNames =>
      IsOperations(Operations(defs)) && NamesDiffer(Operations(defs)) && AnonymousIsAlone(Operations(defs))
  }

  /** Every finding is justified; every fault of the naming and fragment rules is reported, and every
      name that breaks a variable rule. */
  ghost predicate Complete(defs: seq<Definition>, errors: seq<Finding>) {
    && (forall f :: f in errors ==> Justified(defs, f))
    && (forall f :: Justified(defs, f) && !f.rule.NoUndefinedVariables? && !f.rule.NoUnusedVariables? ==> f in errors)
    && (forall op, name :: op in defs && !op.Fragment? && Uses(op, FragmentsByName(defs), name) != Declares(op, name)
          ==> VariableReported(op, FragmentsByName(defs), name, errors))
  }

  ghost predicate Mentions(errors: seq<Finding>, rule: Rule) {
    exists f :: f in errors && f.rule == rule
  }

  lemma {:induction false} JustifiedMeansBroken(defs: seq<Definition>, f: Finding)
    requires Justified(defs, f)
    ensures !Obeys(defs, f.rule)
  {
    hide Operations, FragmentsIn, FragmentsByName, UsedBy, SpreadNames, OpVariables, NamingFault, NamesDiffer,
      AnonymousIsAlone;
    match f.rule
    case NoUndefinedVariables =>
      var op, name :| op in defs && !op.Fragment? && Reports(op, FragmentsByName(defs), name, f);
      assert Uses(op, FragmentsByName(defs), name);
    case NoUnusedVariables =>
      var op, name :| op in defs && !op.Fragment? && Reports(op, FragmentsByName(defs), name, f);
      assert Declares(op, name);
    case UniqueOperationNames => FaultlessNames(Operations(defs));
    case _ =>
  }

  lemma {:induction false} BrokenIsMentioned(defs: seq<Definition>, errors: seq<Finding>, rule: Rule)
    requires Complete(defs, errors) && !Obeys(defs, rule)
    ensures Mentions(errors, rule)
  {
    DefinitionsSplit(defs);
    hide Operations, FragmentsIn, FragmentsByName, UsedBy, SpreadNames, OpVariables, NamingFault, NamesDiffer,
      AnonymousIsAlone;
    var frags := FragmentsByName(defs);
    match rule
    case NoUndefinedVariables =>
      var op, name :| op in defs && !op.Fragment? && Uses(op, frags, name) && !Declares(op, name);
      assert VariableReported(op, frags, name, errors);
    case NoUnusedVariables =>
      var op, name :| op in defs && !op.Fragment? && Declares(op, name) && !Uses(op, frags, name);
      assert VariableReported(op, frags, name, errors);
    case NoUnusedFragments =>
      var d :| d in defs && d.Fragment? && !IsSpread(defs, d.name.value);
      assert Justified(defs, Finding(rule, d.span));
    case KnownFragmentNames =>
      var d, n :| d in defs && n in SpreadNames(d.selectionSet.selections) && n.value !in frags;
      assert Justified(defs, Finding(rule, n.span));
    case UniqueOperationNames =>
      FaultlessNames(Operations(defs));
      var span :| NamingFault(Operations(defs), span);
      assert Justified(defs, Finding(rule, span));
  }

  /** A rule is reported if and only if the document breaks it. */
  lemma {:induction false} ReportedIffBroken(defs: seq<Definition>, errors: seq<Finding>)
    requires Complete(defs, errors)
    ensures forall rule :: Mentions(errors, rule) <==> !Obeys(defs, rule)
    ensures errors == [] <==> forall rule :: Obeys(defs, rule)
  {
    hide Obeys, Justified, VariableReported;
    forall rule ensures Mentions(errors, rule) <==> !Obeys(defs, rule) {
      if !Obeys(defs, rule) {
        BrokenIsMentioned(defs, errors, rule);
      } else if Mentions(errors, rule) {
        var f :| f in errors && f.rule == rule;
        JustifiedMeansBroken(defs, f);
      }
    }
    if errors != [] {
      assert Mentions(errors, errors[0].rule);
    }
  }

  ghost predicate AllReported(ops: seq<Definition>, n: nat, frags: Fragments, findings: seq<Finding>)
    requires IsOperations(ops) && n <= |ops|
  {
    && (forall f :: f in findings ==> FaultAmong(ops, n, frags, f))
    && (forall i, name :: 0 <= i < n && Uses(ops[i], frags, name) != Declares(ops[i], name)
          ==> VariableReported(ops[i], frags, name, findings))
  }

  ghost predicate FaultAmong(ops: seq<Definition>, n: nat, frags: Fragments, f: Finding)
    requires IsOperations(ops) && n <= |ops|
  {
    exists i, name :: 0 <= i < n && Reports(ops[i], frags, name, f)
  }

  lemma {:induction false} ReportedStep(ops: seq<Definition>, n: nat, frags: Fragments, findings: seq<Finding>,
                                        names: seq<string>, more: seq<Finding>)
    requires IsOperations(ops) && n < |ops| && AllReported(ops, n, frags, findings)
    requires ReportsEach(ops[n], frags, names, more)
    requires forall name :: name in names <==> Uses(ops[n], frags, name) != Declares(ops[n], name)
    ensures AllReported(ops, n + 1, frags, findings + more)
  {
    hide Reports, Uses, Declares;
    forall f | f in findings + more ensures FaultAmong(ops, n + 1, frags, f) {
      if f in findings {
        assert FaultAmong(ops, n, frags, f);
      } else {
        var k :| 0 <= k < |more| && more[k] == f;
        assert Reports(ops[n], frags, names[k], f);
      }
    }
    forall i, name | 0 <= i < n + 1 && Uses(ops[i], frags, name) != Declares(ops[i], name)
      ensures VariableReported(ops[i], frags, name, findings + more)
    {
      if i < n {
        assert VariableReported(ops[i], frags, name, findings);
      } else {
        var k :| 0 <= k < |names| && names[k] == name;
        assert more[k] in findings + more;
      }
    }
  }

  method CheckVariablesOfAll(ops: seq<Definition>, frags: Fragments) returns (findings: seq<Finding>)
    requires IsOperations(ops)
    ensures AllReported(ops, |ops|, frags, findings)
  {
    findings := [];
    assert AllReported(ops, 0, frags, findings);
    hide AllReported, ReportsEach, Uses, Declares;
    for i := 0 to |ops|
      invariant AllReported(ops, i, frags, findings)
    {
      var more := CheckVariables(ops[i], frags);
      ghost var names :| ReportsEach(ops[i], frags, names, more) &&
        forall n :: n in names <==> Uses(ops[i], frags, n) != Declares(ops[i], n);
      ReportedStep(ops, i, frags, findings, names, more);
      findings := findings + more;
    }
  }

  method WalkDefinitions(ds: seq<Definition>, frags: Fragments, counts: map<string, nat>)
    returns (counts': map<string, nat>, findings: seq<Finding>)
    requires counts.Keys == frags.Keys
    ensures Counted(counts, counts', AllSpreads(ds))
    ensures findings == UnknownSpreads(frags, AllSpreads(ds))
  {
    hide SpreadNames;
    counts', findings := counts, [];
    for i := 0 to |ds|
      invariant Counted(counts, counts', AllSpreads(ds[..i]))
      invariant findings == UnknownSpreads(frags, AllSpreads(ds[..i]))
    {
      ghost var before := counts';
      var more;
      counts', more := WalkFragmentSpreads(ds[i].selectionSet.selections, frags, counts');
      findings := findings + more;
      assert ds[..i+1][..i] == ds[..i];
      CountedCompose(frags, counts, before, counts', AllSpreads(ds[..i]), SpreadNames(ds[i].selectionSet.selections));
    }
    assert ds[..|ds|] == ds;
  }

  method SplitDefinitions(defs: seq<Definition>)
    returns (ops: seq<Definition>, fragDefs: seq<Definition>, frags: Fragments, counts: map<string, nat>)
    ensures ops == Operations(defs) && fragDefs == FragmentsIn(defs) && frags == FragmentsByName(defs)
    ensures counts.Keys == frags.Keys && forall k :: k in counts ==> counts[k] == 0
  {
    ops, fragDefs, frags, counts := [], [], map[], map[];
    for i := 0 to |defs|
      invariant ops == Operations(defs[..i]) && fragDefs == FragmentsIn(defs[..i])
      invariant frags == FragmentsByName(defs[..i])
      invariant counts.Keys == frags.Keys && forall k :: k in counts ==> counts[k] == 0
    {
      assert defs[..i+1][..i] == defs[..i];
      if defs[i].Fragment? {
        frags := frags[defs[i].name.value := defs[i]];
        counts := counts[defs[i].name.value := 0];
        fragDefs := fragDefs + [defs[i]];
      } else {
        ops := ops + [defs[i]];
      }
    }
    assert defs[..|defs|] == defs;
  }

  method CheckUnusedFragments(fragDefs: seq<Definition>, counts: map<string, nat>) returns (findings: seq<Finding>)
    requires forall d :: d in fragDefs ==> d.Fragment?
    ensures forall f :: f in findings <==>
      f.rule == NoUnusedFragments && Uncounted(fragDefs, |fragDefs|, counts, f.span)
  {
    findings := [];
    for i := 0 to |fragDefs|
      invariant forall f :: f in findings <==> f.rule == NoUnusedFragments && Uncounted(fragDefs, i, counts, f.span)
    {
      assert fragDefs[i].Fragment?;
      var name := fragDefs[i].name.value;
      if name !in counts || counts[name] == 0 {
        findings := findings + [Finding(NoUnusedFragments, fragDefs[i].span)];
      }
    }
  }

  ghost predicate Uncounted(fragDefs: seq<Definition>, n: nat, counts: map<string, nat>, span: Span)
    requires n <= |fragDefs| && forall d :: d in fragDefs ==> d.Fragment?
  {
    exists i :: 0 <= i < n && fragDefs[i].span ==
      span && !(fragDefs[i].name.value in counts && counts[fragDefs[i].name.value] != 0)
  }

  /** `findings` are exactly the faults of one rule. */
  ghost predicate Exactly(defs: seq<Definition>, rule: Rule, findings: seq<Finding>) {
    forall f :: f in findings <==> f.rule == rule && Justified(defs, f)
  }

  ghost predicate VariablesReported(defs: seq<Definition>, findings: seq<Finding>) {
    && (forall f :: f in findings ==> f.rule in {NoUndefinedVariables, NoUnusedVariables} && Justified(defs, f))
    && (forall op, name :: op in defs && !op.Fragment? && Uses(op, FragmentsByName(defs), name) != Declares(op, name)
          ==> VariableReported(op, FragmentsByName(defs), name, findings))
  }

  lemma {:induction false} VariablesPart(defs: seq<Definition>, findings: seq<Finding>)
    requires IsOperations(Operations(defs))
    requires AllReported(Operations(defs), |Operations(defs)|, FragmentsByName(defs), findings)
    ensures VariablesReported(defs, findings)
  {
    DefinitionsSplit(defs);
    hide Operations, FragmentsByName, FragmentsIn, Uses, Declares, UsedBy, LastDeclared, VariableReported;
    var ops, frags := Operations(defs), FragmentsByName(defs);
    forall f | f in findings ensures f.rule in {NoUndefinedVariables, NoUnusedVariables} && Justified(defs, f) {
      assert FaultAmong(ops, |ops|, frags, f);
      var i, name :| 0 <= i < |ops| && Reports(ops[i], frags, name, f);
      assert ops[i] in defs;
      assert VariableFault(defs, f);
    }
    forall op, name | op in defs && !op.Fragment? && Uses(op, frags, name) != Declares(op, name)
      ensures VariableReported(op, frags, name, findings)
    {
      assert op in ops;
    }
  }

  lemma {:induction false} SpreadsPart(defs: seq<Definition>)
    ensures Exactly(defs, KnownFragmentNames, UnknownSpreads(FragmentsByName(defs), AllSpreads(Operations(defs)))
                                              + UnknownSpreads(FragmentsByName(defs), AllSpreads(FragmentsIn(defs))))
  {
    DefinitionsSplit(defs);
    var ops, rest, frags := Operations(defs), FragmentsIn(defs), FragmentsByName(defs);
    AllSpreadsAre(ops);
    AllSpreadsAre(rest);
    UnknownIsMembership(frags, AllSpreads(ops));
    UnknownIsMembership(frags, AllSpreads(rest));
    hide Operations, FragmentsIn, FragmentsByName, AllSpreads, UnknownSpreads, SpreadNames;
    var all := UnknownSpreads(frags, AllSpreads(ops)) + UnknownSpreads(frags, AllSpreads(rest));
    forall f | f in all ensures f.rule == KnownFragmentNames && Justified(defs, f) {
    }
    forall f: Finding | f.rule == KnownFragmentNames && Justified(defs, f) ensures f in all {
      var d, n :| d in defs && n in SpreadNames(d.selectionSet.selections) && n.value !in frags && n.span == f.span;
      assert d in ops || d in rest;
      assert n in AllSpreads(ops) || n in AllSpreads(rest);
      assert f == Finding(KnownFragmentNames, n.span);
    }
  }

  lemma {:induction false} CountedIsSpread(defs: seq<Definition>, name: string)
    ensures IsSpread(defs, name) <==>
      Times(AllSpreads(Operations(defs)), name) + Times(AllSpreads(FragmentsIn(defs)), name) != 0
  {
    DefinitionsSplit(defs);
    var ops, rest := Operations(defs), FragmentsIn(defs);
    AllSpreadsAre(ops);
    AllSpreadsAre(rest);
    TimesIsMembership(AllSpreads(ops), name);
    TimesIsMembership(AllSpreads(rest), name);
    hide Operations, FragmentsIn, FragmentsByName, AllSpreads, Times, SpreadNames;
    if IsSpread(defs, name) {
      var d :| d in defs && name in Spreads(d.selectionSet.selections);
      var n :| n in SpreadNames(d.selectionSet.selections) && n.value == name;
      assert d in ops || d in rest;
      assert n in AllSpreads(ops) || n in AllSpreads(rest);
    }
  }

  /** The counts tell which fragments are spread. */
  ghost predicate CountsTell(defs: seq<Definition>, counts: map<string, nat>) {
    forall d :: d in defs && d.Fragment? ==>
      d.name.value in counts && (counts[d.name.value] != 0 <==> IsSpread(defs, d.name.value))
  }

  lemma {:induction false} CountsDoTell(defs: seq<Definition>, zero: map<string, nat>, counts': map<string, nat>,
                                        counts: map<string, nat>)
    requires zero.Keys == FragmentsByName(defs).Keys && forall k :: k in zero ==> zero[k] == 0
    requires Counted(zero, counts', AllSpreads(Operations(defs)))
    requires Counted(counts', counts, AllSpreads(FragmentsIn(defs)))
    ensures CountsTell(defs, counts)
  {
    DefinitionsSplit(defs);
    hide Operations, FragmentsIn, FragmentsByName, AllSpreads, Times, IsSpread;
    forall d | d in defs && d.Fragment?
      ensures d.name.value in counts && (counts[d.name.value] != 0 <==> IsSpread(defs, d.name.value))
    {
      CountedIsSpread(defs, d.name.value);
      assert d.name.value in zero;
    }
  }

  lemma {:induction false} UnusedPart(defs: seq<Definition>, counts: map<string, nat>, findings: seq<Finding>)
    requires CountsTell(defs, counts) && forall d :: d in FragmentsIn(defs) ==> d.Fragment?
    requires forall f :: f in findings <==>
      f.rule == NoUnusedFragments && Uncounted(FragmentsIn(defs), |FragmentsIn(defs)|, counts, f.span)
    ensures Exactly(defs, NoUnusedFragments, findings)
  {
    DefinitionsSplit(defs);
    var rest := FragmentsIn(defs);
    hide Operations, FragmentsIn, FragmentsByName, IsSpread;
    forall f: Finding | f.rule == NoUnusedFragments && Justified(defs, f) ensures f in findings {
      var d :| d in defs && d.Fragment? && d.span == f.span && !IsSpread(defs, d.name.value);
      var i :| 0 <= i < |rest| && rest[i] == d;
      assert Uncounted(rest, |rest|, counts, f.span);
    }
    forall f | f in findings ensures Justified(defs, f) {
      var i :| 0 <= i < |rest| && rest[i].span ==
        f.span && !(rest[i].name.value in counts && counts[rest[i].name.value] != 0);
      assert rest[i] in rest;
    }
  }

  lemma {:induction false} PartsComplete(defs: seq<Definition>, naming: seq<Finding>, variables: seq<Finding>,
                                         unknown: seq<Finding>, unused: seq<Finding>)
    requires Exactly(defs, UniqueOperationNames, naming) && VariablesReported(defs, variables)
    requires Exactly(defs, KnownFragmentNames, unknown) && Exactly(defs, NoUnusedFragments, unused)
    ensures Complete(defs, naming + variables + unknown + unused)
  {
    hide Justified, Uses, Declares, FragmentsByName, Reports;
    var errors := naming + variables + unknown + unused;
    forall op, name | op in defs && !op.Fragment? && Uses(op, FragmentsByName(defs), name) != Declares(op, name)
      ensures VariableReported(op, FragmentsByName(defs), name, errors)
    {
      assert VariableReported(op, FragmentsByName(defs), name, variables);
      var f :| f in variables && Reports(op, FragmentsByName(defs), name, f);
      assert f in errors;
    }
  }

  /** For the definitions of any document, a rule is reported if and only if it is broken. */
  method ValidateOperations(defs: seq<Definition>) returns (errors: seq<Finding>)
    ensures Complete(defs, errors)
    ensures forall rule :: Mentions(errors, rule) <==> !Obeys(defs, rule)
    ensures errors == [] <==> forall rule :: Obeys(defs, rule)
  {
    hide Complete, Obeys, UsedBy, NamingFault, Uncounted, Operations, FragmentsIn, FragmentsByName, AllSpreads,
      AllReported,
      Times, UnknownSpreads, Mentions, VariablesReported, CountsTell;
    var ops, fragDefs, frags, zero := SplitDefinitions(defs);
    DefinitionsSplit(defs);
    var naming := CheckUniqueOperationNames(ops);
    var variables := CheckVariablesOfAll(ops, frags);
    var counts', unknown := WalkDefinitions(ops, frags, zero);
    var counts, unknown' := WalkDefinitions(fragDefs, frags, counts');
    var unused := CheckUnusedFragments(fragDefs, counts);
    errors := naming + variables + (unknown + unknown') + unused;
    VariablesPart(defs, variables);
    SpreadsPart(defs);
    CountsDoTell(defs, zero, counts', counts);
    UnusedPart(defs, counts, unused);
    assert Exactly(defs, UniqueOperationNames, naming);
    PartsComplete(defs, naming, variables, unknown + unknown', unused);
    ReportedIffBroken(defs, errors);
  }

  /** A document `{ a } query Q { b }`, for which the rule of unique names is reported although the
      names are unique: it breaks section 5.2.2.1 only. */
  lemma {:induction false} ReportedForAnotherSection(set_: SelectionSet, span: Span, name: Name, errors: seq<Finding>)
    requires var defs := [Shorthand(set_, span), Operation(Query, Some(name), None, [], set_, span)];
      Complete(defs, errors)
    ensures var defs := [Shorthand(set_, span), Operation(Query, Some(name), None, [], set_, span)];
      && Operations(defs) == defs && NamesDiffer(defs) && !AnonymousIsAlone(defs)
      && Mentions(errors, UniqueOperationNames)
  {
    var a, b := Shorthand(set_, span), Operation(Query, Some(name), None, [], set_, span);
    var defs := [a, b];
    assert defs[..1] == [a] && [a][..0] == [];
    assert Operations([a]) == [a];
    assert Operations(defs) == defs;
    assert OpName(defs[0]).None?;
    hide Complete, Operations;
    BrokenIsMentioned(defs, errors, UniqueOperationNames);
  }
}
