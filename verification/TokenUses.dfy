/** Variables and fragment spreads as they stand among the tokens of a document, and that the walks of
    magna-gqlmin `validate.rs` find exactly them. */
module TokenUses {
  import opened Basics
  import opened Syntax
  import opened Printer
  import opened Validation

  // ----- what stands among tokens -----

  /** `$` and a name, in front. */
  predicate IsVariable(ls: seq<Lexeme>) {
    |ls| >= 2 && ls[0].kind == Dollar && ls[1].kind == NameToken
  }

  predicate IsDeclaration(ls: seq<Lexeme>) {
    IsVariable(ls) && |ls| > 2 && ls[2].kind == Colon
  }

  /** `...` and a name other than `on`, in front. */
  predicate IsSpread(ls: seq<Lexeme>) {
    |ls| >= 2 && ls[0].kind == Spread && ls[1].kind == NameToken && ls[1].text != "on"
  }

  /** The names after `$` that no colon follows, in order. */
  function Used(ls: seq<Lexeme>): seq<string> {
    if ls == [] then []
    else (if IsVariable(ls) && !IsDeclaration(ls) then [ls[1].text] else []) + Used(ls[1..])
  }

  /** The names after `$` that a colon follows, in order: those of variable definitions. */
  function Declared(ls: seq<Lexeme>): seq<string> {
    if ls == [] then [] else (if IsDeclaration(ls) then [ls[1].text] else []) + Declared(ls[1..])
  }

  /** The names after `...` other than `on`, in order. */
  function SpreadWords(ls: seq<Lexeme>): seq<string> {
    if ls == [] then [] else (if IsSpread(ls) then [ls[1].text] else []) + SpreadWords(ls[1..])
  }

  // ----- concatenation -----

  /** Nothing at the end that what follows could belong to. */
  predicate Closed(ls: seq<Lexeme>) {
    ls == [] || (ls[|ls|-1].kind != Dollar && ls[|ls|-1].kind != Spread)
  }

  predicate NoColon(ls: seq<Lexeme>) {
    ls == [] || ls[0].kind != Colon
  }

  lemma {:induction false} FrontOfConcat(a: seq<Lexeme>, b: seq<Lexeme>)
    requires a != [] && Closed(a) && NoColon(b)
    ensures var ls := a + b;
      && ls[1..] == a[1..] + b && Closed(a[1..])
      && IsVariable(ls) == IsVariable(a) && IsDeclaration(ls) == IsDeclaration(a) && IsSpread(ls) == IsSpread(a)
      && (IsVariable(ls) || IsSpread(ls) ==> ls[1] == a[1])
  {
    var ls := a + b;
    assert ls[0] == a[0];
    assert |a| >= 2 ==> ls[1] == a[1];
    assert |a| >= 3 ==> ls[2] == a[2];
    assert |a| == 2 && |b| > 0 ==> ls[2] == b[0];
  }

  lemma {:induction false} Regroup<T>(a: seq<T>, b: seq<T>, c: seq<T>)
    ensures a + (b + c) == (a + b) + c
  {
  }

  lemma {:induction false} Concat(a: seq<Lexeme>, b: seq<Lexeme>)
    requires Closed(a) && NoColon(b)
    ensures Used(a + b) == Used(a) + Used(b) && Declared(a + b) == Declared(a) + Declared(b)
    ensures SpreadWords(a + b) == SpreadWords(a) + SpreadWords(b)
  {
    if a == [] {
      assert a + b == b;
    } else {
      FrontOfConcat(a, b);
      Concat(a[1..], b);
      hide IsVariable, IsDeclaration, IsSpread, Closed, NoColon;
      Regroup(if IsVariable(a) && !IsDeclaration(a) then [a[1].text] else [], Used(a[1..]), Used(b));
      Regroup(if IsDeclaration(a) then [a[1].text] else [], Declared(a[1..]), Declared(b));
      Regroup(if IsSpread(a) then [a[1].text] else [], SpreadWords(a[1..]), SpreadWords(b));
    }
  }

  function NamesOf(uses: set<Name>): set<string> {
    set n | n in uses :: n.value
  }

  /** The lexemes use the variables of `uses`, declare those of `declared` and spread those of `spreads`. */
  ghost predicate Tells(ls: seq<Lexeme>, uses: set<Name>, declared: seq<string>, spreads: seq<string>) {
    && Closed(ls) && NoColon(ls)
    && (forall x :: x in Used(ls) <==> x in NamesOf(uses))
    && Declared(ls) == declared && SpreadWords(ls) == spreads
  }

  lemma {:induction false} TellsBoth(a: seq<Lexeme>, u: set<Name>, d: seq<string>, s: seq<string>,
                                     b: seq<Lexeme>, v: set<Name>, e: seq<string>, t: seq<string>)
    requires Tells(a, u, d, s) && Tells(b, v, e, t)
    ensures Tells(a + b, u + v, d + e, s + t)
  {
    hide Used, Declared, SpreadWords;
    Concat(a, b);
    assert NamesOf(u + v) == NamesOf(u) + NamesOf(v);
  }

  /** Lexemes without `$` and `...`. */
  lemma {:induction false} TellsNothing(ls: seq<Lexeme>)
    requires IsQuiet(ls)
    ensures Tells(ls, {}, [], [])
  {
    if ls != [] {
      assert Used(ls) == Used(ls[1..]) && Declared(ls) == Declared(ls[1..]) && SpreadWords(ls) == SpreadWords(ls[1..]);
      Quiet(ls[1..]);
    }
    assert NamesOf({}) == {};
  }

  lemma {:induction false} Quiet(ls: seq<Lexeme>)
    requires forall i :: 0 <= i < |ls| ==> ls[i].kind != Dollar && ls[i].kind != Spread
    ensures Used(ls) == [] && Declared(ls) == [] && SpreadWords(ls) == []
  {
    if ls != [] {
      Quiet(ls[1..]);
    }
  }

  predicate IsQuiet(ls: seq<Lexeme>) {
    NoColon(ls) && forall i :: 0 <= i < |ls| ==> ls[i].kind != Dollar && ls[i].kind != Spread
  }

  lemma {:induction false} QuietMark(kind: TokenKind)
    requires kind != Dollar && kind != Spread && kind != Colon
    ensures IsQuiet([Mark(kind)])
  {
  }

  lemma {:induction false} TellsAfter(a: seq<Lexeme>, b: seq<Lexeme>, u: set<Name>, d: seq<string>, s: seq<string>)
    requires IsQuiet(a) && Tells(b, u, d, s)
    ensures Tells(a + b, u, d, s)
  {
    TellsNothing(a);
    hide Tells;
    TellsBoth(a, {}, [], [], b, u, d, s);
    assert {} + u == u && [] + d == d && [] + s == s;
  }

  lemma {:induction false} TellsBefore(b: seq<Lexeme>, u: set<Name>, d: seq<string>, s: seq<string>, c: seq<Lexeme>)
    requires IsQuiet(c) && Tells(b, u, d, s)
    ensures Tells(b + c, u, d, s)
  {
    TellsNothing(c);
    hide Tells;
    TellsBoth(b, u, d, s, c, {}, [], []);
    assert u + {} == u && d + [] == d && s + [] == s;
  }

  /** Pieces without variables or spreads around one that has some. */
  lemma {:induction false} TellsAround(a: seq<Lexeme>, b: seq<Lexeme>, u: set<Name>, d: seq<string>, s: seq<string>,
                                       c: seq<Lexeme>)
    requires IsQuiet(a) && IsQuiet(c) && Tells(b, u, d, s)
    ensures Tells(a + b + c, u, d, s) && Tells(a + (b + c), u, d, s)
  {
    hide Tells, IsQuiet;
    TellsAfter(a, b, u, d, s);
    TellsBefore(a + b, u, d, s, c);
    Regroup(a, b, c);
  }

  // ----- the walks, from the front -----

  lemma {:induction false} ItemsFront(xs: seq<Value>)
    requires xs != []
    ensures UsesInItems(xs) == UsesInValue(xs[0]) + UsesInItems(xs[1..])
  {
    var n := |xs| - 1;
    if n == 0 {
      assert xs[..0] == [] && xs[1..] == [];
    } else {
      ItemsFront(xs[..n]);
      assert xs[1..][..n-1] == xs[..n][1..];
    }
  }

  lemma {:induction false} EntriesFront(xs: seq<Entry>)
    requires xs != []
    ensures UsesInEntries(xs) == UsesInEntry(xs[0]) + UsesInEntries(xs[1..])
  {
    var n := |xs| - 1;
    if n == 0 {
      assert xs[..0] == [] && xs[1..] == [];
    } else {
      EntriesFront(xs[..n]);
      assert xs[1..][..n-1] == xs[..n][1..];
    }
  }

  lemma {:induction false} DirectivesFront(xs: seq<Directive>)
    requires xs != []
    ensures UsesInDirectives(xs) == UsesInEntries(Listed(xs[0].arguments)) + UsesInDirectives(xs[1..])
  {
    var n := |xs| - 1;
    if n == 0 {
      assert xs[..0] == [] && xs[1..] == [];
    } else {
      DirectivesFront(xs[..n]);
      assert xs[1..][..n-1] == xs[..n][1..];
    }
  }

  lemma {:induction false} SelectionsFront(xs: seq<Selection>)
    requires xs != []
    ensures UsesInSelections(xs) == UsesInSelection(xs[0]) + UsesInSelections(xs[1..])
  {
    var n := |xs| - 1;
    if n == 0 {
      assert xs[..0] == [] && xs[1..] == [];
    } else {
      SelectionsFront(xs[..n]);
      assert xs[1..][..n-1] == xs[..n][1..];
    }
  }

  lemma {:induction false} SpreadsFront(xs: seq<Selection>)
    requires xs != []
    ensures SpreadNames(xs) == SpreadNamesOf(xs[0]) + SpreadNames(xs[1..])
  {
    hide SpreadNamesOf;
    var n := |xs| - 1;
    if n == 0 {
      assert xs[..0] == [] && xs[1..] == [];
    } else {
      SpreadsFront(xs[..n]);
      assert xs[1..][..n-1] == xs[..n][1..] && xs[1..][n-1] == xs[n] && xs[..n][0] == xs[0];
      Regroup(SpreadNamesOf(xs[0]), SpreadNames(xs[..n][1..]), SpreadNamesOf(xs[n]));
    }
  }

  lemma {:induction false} VariablesFront(xs: seq<VariableDefinition>)
    requires xs != []
    ensures UsesInVariables(xs) == UsesInVariable(xs[0]) + UsesInVariables(xs[1..])
  {
    var n := |xs| - 1;
    if n == 0 {
      assert xs[..0] == [] && xs[1..] == [];
    } else {
      VariablesFront(xs[..n]);
      assert xs[1..][..n-1] == xs[..n][1..];
    }
  }

  // ----- values -----

  lemma {:induction false} VariableTells(name: Name)
    ensures Tells([Mark(Dollar), Word(name.value)], {name}, [], [])
  {
    var ls := [Mark(Dollar), Word(name.value)];
    assert ls[1..] == [Word(name.value)];
    Quiet(ls[1..]);
    assert Used(ls) == [name.value] && NamesOf({name}) == {name.value};
  }

  /** The variables of a value are the names after `$` in it. */
  lemma {:induction false} ValueTells(v: Value)
    ensures Tells(PrintValue(v), UsesInValue(v), [], [])
    decreases v, 0
  {
    hide Tells, PrintItems, PrintEntries, UsesInItems, UsesInEntries;
    match v
    case Variable(name) => VariableTells(name);
    case List(items) =>
      ItemsTell(items);
      TellsAround([Mark(LBracket)], PrintItems(items), UsesInItems(items), [], [], [Mark(RBracket)]);
    case Object(fields) =>
      EntriesTell(fields);
      TellsAround([Mark(LBrace)], PrintEntries(fields), UsesInEntries(fields), [], [], [Mark(RBrace)]);
    case _ => TellsNothing(PrintValue(v));
  }

  lemma {:induction false} ItemsTell(vs: seq<Value>)
    ensures Tells(PrintItems(vs), UsesInItems(vs), [], [])
    decreases vs, 1
  {
    if vs == [] {
      TellsNothing([]);
    } else {
      ItemsFront(vs);
      ValueTells(vs[0]);
      ItemsTell(vs[1..]);
      hide Tells, UsesInItems, UsesInValue, PrintValue;
      TellsBoth(PrintValue(vs[0]), UsesInValue(vs[0]), [], [], PrintItems(vs[1..]), UsesInItems(vs[1..]), [], []);
    }
  }

  lemma {:induction false} EntryTells(e: Entry)
    ensures Tells(PrintEntry(e), UsesInEntry(e), [], [])
    decreases e, 1
  {
    hide Tells;
    ValueTells(e.value);
    TellsAfter([Word(e.name.value), Mark(Colon)], PrintValue(e.value), UsesInValue(e.value), [], []);
  }

  lemma {:induction false} EntriesTell(es: seq<Entry>)
    ensures Tells(PrintEntries(es), UsesInEntries(es), [], [])
    decreases es, 1
  {
    if es == [] {
      TellsNothing([]);
    } else {
      EntriesFront(es);
      EntryTells(es[0]);
      EntriesTell(es[1..]);
      hide Tells, UsesInEntries, UsesInEntry, PrintEntry;
      TellsBoth(PrintEntry(es[0]), UsesInEntry(es[0]), [], [], PrintEntries(es[1..]), UsesInEntries(es[1..]), [], []);
    }
  }

  lemma {:induction false} ArgumentsTell(args: Option<seq<Entry>>)
    ensures Tells(PrintArguments(args), UsesInEntries(Listed(args)), [], [])
  {
    if args.None? {
      TellsNothing([]);
    } else {
      EntriesTell(args.value);
      hide Tells, PrintEntries, UsesInEntries, IsQuiet;
      QuietMark(LParen);
      QuietMark(RParen);
      TellsAround([Mark(LParen)], PrintEntries(args.value), UsesInEntries(args.value), [], [], [Mark(RParen)]);
    }
  }

  lemma {:induction false} DirectiveTells(d: Directive)
    ensures Tells([Mark(At)] + PrintDirective(d), UsesInEntries(Listed(d.arguments)), [], [])
  {
    hide Tells, UsesInEntries, PrintArguments;
    var front := [Mark(At), Word(d.name.value)];
    ArgumentsTell(d.arguments);
    TellsAfter(front, PrintArguments(d.arguments), UsesInEntries(Listed(d.arguments)), [], []);
    assert front + PrintArguments(d.arguments) == [Mark(At)] + PrintDirective(d);
  }

  lemma {:induction false} DirectivesTell(ds: seq<Directive>)
    ensures Tells(PrintDirectives(ds), UsesInDirectives(ds), [], [])
  {
    if ds == [] {
      TellsNothing([]);
    } else {
      DirectivesFront(ds);
      DirectiveTells(ds[0]);
      DirectivesTell(ds[1..]);
      hide Tells, UsesInDirectives, UsesInEntries, PrintDirective;
      TellsBoth([Mark(At)] + PrintDirective(ds[0]), UsesInEntries(Listed(ds[0].arguments)), [], [],
                PrintDirectives(ds[1..]), UsesInDirectives(ds[1..]), [], []);
    }
  }

  // ----- selections -----

  function TextsInOrder(names: seq<Name>): seq<string> {
    seq(|names|, i requires 0 <= i < |names| => names[i].value)
  }

  lemma {:induction false} TextsConcat(a: seq<Name>, b: seq<Name>)
    ensures TextsInOrder(a + b) == TextsInOrder(a) + TextsInOrder(b)
  {
  }

  /** The variables of selections are the names after `$`, and their spreads are, in order, the names after
      `...` other than `on`. */
  lemma {:induction false} SelectionsTell(sels: seq<Selection>)
    requires FineSelections(sels)
    ensures Tells(PrintSelections(sels), UsesInSelections(sels), [], TextsInOrder(SpreadNames(sels)))
    decreases sels, 1
  {
    if sels == [] {
      TellsNothing([]);
    } else {
      SelectionsFront(sels);
      SpreadsFront(sels);
      SelectionTells(sels[0]);
      SelectionsTell(sels[1..]);
      hide Tells, UsesInSelections, UsesInSelection, PrintSelection, SpreadNames, SpreadNamesOf, TextsInOrder;
      TextsConcat(SpreadNamesOf(sels[0]), SpreadNames(sels[1..]));
      TellsBoth(PrintSelection(sels[0]), UsesInSelection(sels[0]), [], TextsInOrder(SpreadNamesOf(sels[0])),
                PrintSelections(sels[1..]), UsesInSelections(sels[1..]), [], TextsInOrder(SpreadNames(sels[1..])));
    }
  }

  lemma {:induction false} SetTells(set_: SelectionSet)
    requires FineSet(set_)
    ensures Tells(PrintSet(set_), UsesInSelections(set_.selections), [], TextsInOrder(SpreadNames(set_.selections)))
    decreases set_, 2
  {
    SelectionsTell(set_.selections);
    hide Tells, PrintSelections, UsesInSelections, SpreadNames, FineSelections, TextsInOrder, IsQuiet;
    QuietMark(LBrace);
    QuietMark(RBrace);
    TellsAround([Mark(LBrace)], PrintSelections(set_.selections), UsesInSelections(set_.selections), [],
                TextsInOrder(SpreadNames(set_.selections)), [Mark(RBrace)]);
  }

  lemma {:induction false} BodyTells(ds: seq<Directive>, set_: SelectionSet)
    requires FineSet(set_)
    ensures Tells(PrintBody(ds, set_), UsesInDirectives(ds) + UsesInSelections(set_.selections), [],
                  TextsInOrder(SpreadNames(set_.selections)))
    decreases set_, 3
  {
    DirectivesTell(ds);
    SetTells(set_);
    hide Tells, PrintSet, PrintDirectives, UsesInDirectives, UsesInSelections, SpreadNames;
    var spreads := TextsInOrder(SpreadNames(set_.selections));
    TellsBoth(PrintDirectives(ds), UsesInDirectives(ds), [], [],
              PrintSet(set_), UsesInSelections(set_.selections), [], spreads);
    assert [] + spreads == spreads;
  }

  lemma {:induction false} FieldTells(sel: Selection)
    requires sel.Field? && FineSelection(sel)
    ensures Tells(PrintSelection(sel), UsesInSelection(sel), [], TextsInOrder(SpreadNamesOf(sel)))
    decreases sel, 0
  {
    hide Tells, UsesInEntries, UsesInDirectives, UsesInSelections, PrintArguments, PrintDirectives, PrintSet,
      SpreadNames, FineSet;
    var alias, args := PrintAlias(sel.alias, sel.name), PrintArguments(sel.arguments);
    var u := UsesInEntries(Listed(sel.arguments));
    ArgumentsTell(sel.arguments);
    TellsAfter(alias, args, u, [], []);
    var tail := PrintTail(sel.directives, sel.selectionSet);
    var none: seq<string> := [];
    if sel.selectionSet.None? {
      DirectivesTell(sel.directives);
      TellsBoth(alias + args, u, [], [],
                tail, UsesInDirectives(sel.directives), [], []);
      assert UsesInSelection(sel) == u + UsesInDirectives(sel.directives) + {};
      assert UsesInSelection(sel) == u + UsesInDirectives(sel.directives);
      assert SpreadNamesOf(sel) == [] && TextsInOrder(SpreadNamesOf(sel)) == [] + [];
    } else {
      var set_ := sel.selectionSet.value;
      var spreads := TextsInOrder(SpreadNames(set_.selections));
      BodyTells(sel.directives, set_);
      assert tail == PrintBody(sel.directives, set_);
      TellsBoth(alias + args, u, [], [],
                tail, UsesInDirectives(sel.directives) + UsesInSelections(set_.selections), [], spreads);
      assert u + (UsesInDirectives(sel.directives) + UsesInSelections(set_.selections)) == UsesInSelection(sel);
      assert none + spreads == TextsInOrder(SpreadNamesOf(sel)) && none + none == none;
    }
  }

  lemma {:induction false} SpreadTells(name: Name)
    requires name.value != "on"
    ensures Tells([Mark(Spread), Word(name.value)], {}, [], [name.value])
  {
    var ls := [Mark(Spread), Word(name.value)];
    assert ls[1..] == [Word(name.value)];
    Quiet(ls[1..]);
    assert SpreadWords(ls) == [name.value] && NamesOf({}) == {};
  }

  lemma {:induction false} OnTells(cond: string)
    ensures Tells([Mark(Spread), Word("on"), Word(cond)], {}, [], [])
  {
    var ls := [Mark(Spread), Word("on"), Word(cond)];
    assert ls[1..] == [Word("on"), Word(cond)];
    Quiet(ls[1..]);
    assert Used(ls) == [] && NamesOf({}) == {};
  }

  /** `...` in front of something that is no name. */
  lemma {:induction false} BareSpreadTells(ls: seq<Lexeme>, u: set<Name>, s: seq<string>)
    requires Tells(ls, u, [], s) && ls != [] && ls[0].kind != NameToken
    ensures Tells([Mark(Spread)] + ls, u, [], s)
  {
    var all := [Mark(Spread)] + ls;
    assert all[1..] == ls && all[1] == ls[0];
    assert Used(all) == Used(ls) && Declared(all) == Declared(ls) && SpreadWords(all) == SpreadWords(ls);
  }

  lemma {:induction false} BodyStarts(ds: seq<Directive>, set_: SelectionSet)
    ensures PrintBody(ds, set_) != [] && PrintBody(ds, set_)[0].kind != NameToken
  {
    hide PrintArguments, PrintSelections;
  }

  lemma {:induction false} SelectionTells(sel: Selection)
    requires FineSelection(sel)
    ensures Tells(PrintSelection(sel), UsesInSelection(sel), [], TextsInOrder(SpreadNamesOf(sel)))
    decreases sel, 1
  {
    hide Tells, UsesInDirectives, UsesInSelections, PrintDirectives, PrintBody, SpreadNames, FineSet;
    match sel
    case Field(_, _, _, _, _) => FieldTells(sel);
    case FragmentSpread(name, ds) =>
      SpreadTells(name);
      DirectivesTell(ds);
      TellsBoth([Mark(Spread), Word(name.value)], {}, [], [name.value],
                PrintDirectives(ds), UsesInDirectives(ds), [], []);
      assert {} + UsesInDirectives(ds) == UsesInSelection(sel);
      var none: seq<string> := [];
      assert SpreadNamesOf(sel) == [name] && TextsInOrder([name]) == [name.value] + none && none + none == none;
    case InlineFragment(cond, ds, set_) =>
      var body, u := PrintBody(ds, set_), UsesInDirectives(ds) + UsesInSelections(set_.selections);
      var spreads := TextsInOrder(SpreadNames(set_.selections));
      BodyTells(ds, set_);
      if cond.None? {
        BodyStarts(ds, set_);
        BareSpreadTells(body, u, spreads);
        assert PrintSelection(sel) == [Mark(Spread)] + body;
      } else {
        OnTells(cond.value.value);
        TellsBoth([Mark(Spread), Word("on"), Word(cond.value.value)], {}, [], [], body, u, [], spreads);
        assert PrintSelection(sel) == [Mark(Spread), Word("on"), Word(cond.value.value)] + body;
        var none: seq<string> := [];
        assert {} + u == u && none + spreads == spreads && none + none == none;
      }
  }

  // ----- definitions -----

  lemma {:induction false} TypeIsQuiet(t: Type)
    ensures PrintType(t) != [] && IsQuiet(PrintType(t))
  {
    match t
    case Named(_) =>
    case ListOf(elem) => TypeIsQuiet(elem);
    case NonNull(inner) => TypeIsQuiet(inner);
  }

  lemma {:induction false} DeclarationTells(name: string)
    ensures Tells([Mark(Dollar), Word(name), Mark(Colon)], {}, [name], [])
  {
    var ls := [Mark(Dollar), Word(name), Mark(Colon)];
    assert ls[1..] == [Word(name), Mark(Colon)];
    Quiet(ls[1..]);
    assert Declared(ls) == [name] && Used(ls) == [] && NamesOf({}) == {};
  }

  lemma {:induction false} DefaultTells(default_: Option<Value>)
    ensures Tells(PrintDefault(default_), if default_.Some? then UsesInValue(default_.value) else {}, [], [])
  {
    hide Tells;
    if default_.None? {
      TellsNothing([]);
    } else {
      ValueTells(default_.value);
      TellsAfter([Mark(Eq)], PrintValue(default_.value), UsesInValue(default_.value), [], []);
    }
  }

  /** A variable definition declares its name, and uses what its default and directives use. */
  lemma {:induction false} DefinitionOfVariableTells(v: VariableDefinition)
    ensures Tells(PrintVariable(v), UsesInVariable(v), [v.name.value], [])
  {
    hide Tells, PrintType, PrintDefault, PrintDirectives, UsesInValue, UsesInDirectives, IsQuiet;
    var none: seq<string> := [];
    var head := [Mark(Dollar), Word(v.name.value), Mark(Colon)];
    var u: set<Name> := if v.default.Some? then UsesInValue(v.default.value) else {};
    DeclarationTells(v.name.value);
    TypeIsQuiet(v.varType);
    TellsBefore(head, {}, [v.name.value], [], PrintType(v.varType));
    DefaultTells(v.default);
    TellsBoth(head + PrintType(v.varType), {}, [v.name.value], [], PrintDefault(v.default), u, [], []);
    assert {} + u == u && [v.name.value] + none == [v.name.value] && none + none == none;
    DirectivesTell(v.directives);
    TellsBoth(head + PrintType(v.varType) + PrintDefault(v.default), u, [v.name.value], [],
              PrintDirectives(v.directives), UsesInDirectives(v.directives), [], []);
  }

  function VariableNames(vs: seq<VariableDefinition>): seq<string> {
    seq(|vs|, i requires 0 <= i < |vs| => vs[i].name.value)
  }

  lemma {:induction false} VariablesTell(vs: seq<VariableDefinition>)
    ensures Tells(PrintVariables(vs), UsesInVariables(vs), VariableNames(vs), [])
  {
    if vs == [] {
      TellsNothing([]);
      assert VariableNames(vs) == [];
    } else {
      VariablesFront(vs);
      DefinitionOfVariableTells(vs[0]);
      VariablesTell(vs[1..]);
      hide Tells, UsesInVariables, UsesInVariable, PrintVariable, VariableNames;
      TellsBoth(PrintVariable(vs[0]), UsesInVariable(vs[0]), [vs[0].name.value], [],
                PrintVariables(vs[1..]), UsesInVariables(vs[1..]), VariableNames(vs[1..]), []);
      VariableNamesFront(vs);
    }
  }

  lemma {:induction false} VariableNamesFront(vs: seq<VariableDefinition>)
    requires vs != []
    ensures [vs[0].name.value] + VariableNames(vs[1..]) == VariableNames(vs)
  {
  }

  lemma {:induction false} OptVariablesTell(vs: Option<seq<VariableDefinition>>)
    ensures Tells(PrintOptVariables(vs), UsesInVariables(Listed(vs)), VariableNames(Listed(vs)), [])
  {
    if vs.None? {
      TellsNothing([]);
      assert VariableNames([]) == [];
    } else {
      VariablesTell(vs.value);
      hide Tells, PrintVariables, UsesInVariables, VariableNames, IsQuiet;
      QuietMark(LParen);
      QuietMark(RParen);
      TellsAround([Mark(LParen)], PrintVariables(vs.value), UsesInVariables(vs.value), VariableNames(vs.value), [],
                  [Mark(RParen)]);
    }
  }

  /** The variables used in a definition itself, without what its spreads reach. */
  function OwnUses(def: Definition): set<Name> {
    if def.Fragment? then FragmentUses(def)
    else
      UsesInDirectives(OpDirectives(def)) + UsesInSelections(def.selectionSet.selections) +
      UsesInVariables(OpVariables(def))
  }

  function OwnNames(def: Definition): seq<string> {
    if def.Fragment? then [] else VariableNames(OpVariables(def))
  }

  lemma {:induction false} OperationTells(def: Definition)
    requires def.Operation? && FineSet(def.selectionSet)
    ensures Tells(PrintDefinition(def), OwnUses(def), OwnNames(def),
                  TextsInOrder(SpreadNames(def.selectionSet.selections)))
  {
    hide Tells, PrintOptVariables, PrintBody, UsesInVariables, UsesInDirectives, UsesInSelections, SpreadNames, FineSet,
      TextsInOrder, VariableNames;
    var none: seq<string> := [];
    var head := [Word(Keyword(def.kind))] + PrintOpName(def.opName);
    var vars, body := PrintOptVariables(def.variables), PrintBody(def.directives, def.selectionSet);
    var u, names := UsesInVariables(Listed(def.variables)), VariableNames(Listed(def.variables));
    var w := UsesInDirectives(def.directives) + UsesInSelections(def.selectionSet.selections);
    var spreads := TextsInOrder(SpreadNames(def.selectionSet.selections));
    OptVariablesTell(def.variables);
    TellsAfter(head, vars, u, names, []);
    BodyTells(def.directives, def.selectionSet);
    TellsBoth(head + vars, u, names, [], body, w, [], spreads);
    assert u + w == OwnUses(def) && names + none == names && none + spreads == spreads;
  }

  lemma {:induction false} OtherTells(def: Definition)
    requires !def.Operation? && FineSet(def.selectionSet)
    ensures Tells(PrintDefinition(def), OwnUses(def), OwnNames(def),
                  TextsInOrder(SpreadNames(def.selectionSet.selections)))
  {
    hide Tells, PrintBody, PrintSet, UsesInDirectives, UsesInSelections, SpreadNames, FineSet, TextsInOrder;
    var spreads := TextsInOrder(SpreadNames(def.selectionSet.selections));
    if def.Shorthand? {
      SetTells(def.selectionSet);
      assert UsesInDirectives([]) == {} && UsesInVariables([]) == {} && VariableNames([]) == [] by {
        EmptyUses();
      }
      assert OwnUses(def) == UsesInSelections(def.selectionSet.selections);
    } else {
      var words := [Word("fragment"), Word(def.name.value), Word("on"), Word(def.typeCondition.value)];
      BodyTells(def.directives, def.selectionSet);
      TellsAfter(words, PrintBody(def.directives, def.selectionSet), FragmentUses(def), [], spreads);
    }
  }

  lemma {:induction false} EmptyUses()
    ensures UsesInDirectives([]) == {} && UsesInVariables([]) == {}
  {
  }

  /** Among the tokens of a definition stand exactly the uses, declarations and spreads that the walks
      find in it. */
  lemma {:induction false} DefinitionTells(def: Definition)
    requires FineDefinition(def)
    ensures Tells(PrintDefinition(def), OwnUses(def), OwnNames(def),
                  TextsInOrder(SpreadNames(def.selectionSet.selections)))
  {
    hide Tells, OwnUses, OwnNames, PrintDefinition, SpreadNames;
    if def.Operation? {
      OperationTells(def);
    } else {
      OtherTells(def);
    }
  }
}
