/** Whatever the grammar accepts is the printed form of the well-formed tree it builds. */
module Soundness {
  import opened Basics
  import opened Syntax
  import opened TreeParser
  import opened Printer

  /** The tokens from `a` to `b`, without positions. */
  function Text(s: Stream, a: nat, b: nat): (r: seq<Lexeme>)
    requires a <= b <= |s.tokens|
    ensures |r| == b - a
  {
    seq(b - a, i requires 0 <= i < b - a => Shape(s.tokens[a + i]))
  }

  lemma {:induction false} TextSplit(s: Stream, a: nat, b: nat, c: nat)
    requires a <= b <= c <= |s.tokens|
    ensures Text(s, a, c) == Text(s, a, b) + Text(s, b, c)
  {
  }

  lemma {:induction false} TextOne(s: Stream, a: nat)
    requires a < |s.tokens|
    ensures Text(s, a, a + 1) == [Shape(s.tokens[a])]
  {
  }

  /** One token, then the rest. */
  lemma {:induction false} TextCons(s: Stream, a: nat, c: nat)
    requires a < c <= |s.tokens|
    ensures Text(s, a, c) == [Shape(s.tokens[a])] + Text(s, a + 1, c)
  {
    TextSplit(s, a, a + 1, c);
    TextOne(s, a);
  }

  lemma {:induction false} TextSnoc(s: Stream, a: nat, c: nat)
    requires a < c <= |s.tokens|
    ensures Text(s, a, c) == Text(s, a, c - 1) + [Shape(s.tokens[c - 1])]
  {
    TextSplit(s, a, c - 1, c);
    TextOne(s, c - 1);
  }

  /** An accumulated list, seen past what was accumulated before `x`. */
  lemma {:induction false} Peel<T>(all: seq<T>, acc: seq<T>, x: T)
    requires |acc| < |all| && all[..|acc| + 1] == acc + [x]
    ensures all[..|acc|] == acc
    ensures all[|acc|..][0] == x && all[|acc|..][1..] == all[|acc| + 1..]
  {
    assert all[..|acc|] == all[..|acc| + 1][..|acc|];
    assert all[|acc|] == all[..|acc| + 1][|acc|];
  }

  // ----- values and types -----

  lemma {:induction false} ScalarSound(s: Stream, pos: nat, isConst: bool)
    requires ParseScalar(s, pos, isConst).Done?
    ensures var r := ParseScalar(s, pos, isConst);
      FineValue(r.value, isConst) && Text(s, pos, r.pos) == PrintValue(r.value)
  {
    hide PrintItems, PrintEntries, Text;
    var r := ParseScalar(s, pos, isConst);
    TextCons(s, pos, r.pos);
    if r.value.Variable? {
      TextOne(s, pos + 1);
    } else {
      NoText(s, pos + 1);
    }
  }

  lemma {:induction false} NoText(s: Stream, a: nat)
    requires a <= |s.tokens|
    ensures Text(s, a, a) == []
  {
  }

  lemma {:induction false} ValueSound(s: Stream, pos: nat, isConst: bool)
    requires ParseValue(s, pos, isConst).Done?
    ensures var r := ParseValue(s, pos, isConst);
      FineValue(r.value, isConst) && Text(s, pos, r.pos) == PrintValue(r.value)
    decreases |s.tokens| - pos, 0
  {
    hide PrintItems, PrintEntries, Text, ParseItems, ParseEntries, ParseScalar, FineItems, FineEntries;
    var r := ParseValue(s, pos, isConst);
    if s.tokens[pos].kind == LBracket {
      TextCons(s, pos, r.pos);
      ItemsSound(s, pos + 1, isConst, []);
    } else if s.tokens[pos].kind == LBrace {
      TextCons(s, pos, r.pos);
      EntriesSound(s, pos + 1, RBrace, isConst, []);
    } else {
      ScalarSound(s, pos, isConst);
    }
  }

  lemma {:induction false} ItemsSound(s: Stream, pos: nat, isConst: bool, acc: seq<Value>)
    requires ParseItems(s, pos, isConst, acc).Done?
    ensures var r := ParseItems(s, pos, isConst, acc);
      && |acc| <= |r.value| && r.value[..|acc|] == acc
      && FineItems(r.value[|acc|..], isConst)
      && Text(s, pos, r.pos) == PrintItems(r.value[|acc|..]) + [Mark(RBracket)]
    decreases |s.tokens| - pos, 1
  {
    hide Text, ParseValue, PrintValue, FineValue;
    var r := ParseItems(s, pos, isConst, acc);
    if s.tokens[pos].kind == RBracket {
      TextOne(s, pos);
      assert r.value[|acc|..] == [];
    } else {
      var v := ParseValue(s, pos, isConst);
      ValueSound(s, pos, isConst);
      ItemsSound(s, v.pos, isConst, acc + [v.value]);
      TextSplit(s, pos, v.pos, r.pos);
      Peel(r.value, acc, v.value);
    }
  }

  lemma {:induction false} EntrySound(s: Stream, pos: nat, isConst: bool)
    requires ParseEntry(s, pos, isConst).Done?
    ensures var r := ParseEntry(s, pos, isConst);
      FineEntry(r.value, isConst) && Text(s, pos, r.pos) == PrintEntry(r.value)
    decreases |s.tokens| - pos, 1
  {
    hide Text, ParseValue, PrintValue, FineValue;
    var r := ParseEntry(s, pos, isConst);
    TextCons(s, pos, r.pos);
    TextCons(s, pos + 1, r.pos);
    ValueSound(s, pos + 2, isConst);
  }

  lemma {:induction false} EntriesSound(s: Stream, pos: nat, close: TokenKind, isConst: bool, acc: seq<Entry>)
    requires close != Eof && !CarriesText(close) && ParseEntries(s, pos, close, isConst, acc).Done?
    ensures var r := ParseEntries(s, pos, close, isConst, acc);
      && |acc| <= |r.value| && r.value[..|acc|] == acc
      && FineEntries(r.value[|acc|..], isConst)
      && Text(s, pos, r.pos) == PrintEntries(r.value[|acc|..]) + [Mark(close)]
    decreases |s.tokens| - pos, 2
  {
    hide Text, ParseEntry, PrintEntry, FineEntry;
    var r := ParseEntries(s, pos, close, isConst, acc);
    if s.tokens[pos].kind == close {
      TextOne(s, pos);
      assert r.value[|acc|..] == [];
    } else {
      var e := ParseEntry(s, pos, isConst);
      EntrySound(s, pos, isConst);
      EntriesSound(s, e.pos, close, isConst, acc + [e.value]);
      TextSplit(s, pos, e.pos, r.pos);
      Peel(r.value, acc, e.value);
    }
  }

  lemma {:induction false} TypeAtomSound(s: Stream, pos: nat)
    requires ParseTypeAtom(s, pos).Done?
    ensures var r := ParseTypeAtom(s, pos);
      !r.value.NonNull? && FineType(r.value) && Text(s, pos, r.pos) == PrintType(r.value)
    decreases |s.tokens| - pos, 0
  {
    hide Text, ParseType;
    var r := ParseTypeAtom(s, pos);
    if s.tokens[pos].kind == LBracket {
      TypeSound(s, pos + 1);
      TextCons(s, pos, r.pos);
      TextSnoc(s, pos + 1, r.pos);
    } else {
      TextOne(s, pos);
    }
  }

  lemma {:induction false} TypeSound(s: Stream, pos: nat)
    requires ParseType(s, pos).Done?
    ensures var r := ParseType(s, pos);
      FineType(r.value) && Text(s, pos, r.pos) == PrintType(r.value)
    decreases |s.tokens| - pos, 1
  {
    hide Text, ParseTypeAtom;
    var r := ParseType(s, pos);
    TypeAtomSound(s, pos);
    if r.value.NonNull? {
      TextSnoc(s, pos, r.pos);
    }
  }

  // ----- arguments and directives -----

  lemma {:induction false} OptArgumentsSound(s: Stream, pos: nat)
    requires pos <= |s.tokens| && ParseOptArguments(s, pos).Done?
    ensures var r := ParseOptArguments(s, pos);
      FineArguments(r.value) && Text(s, pos, r.pos) == PrintArguments(r.value)
  {
    hide Text, ParseEntries, PrintEntries, FineEntries;
    var r := ParseOptArguments(s, pos);
    if r.value.Some? {
      TextCons(s, pos, r.pos);
      EntriesSound(s, pos + 1, RParen, false, []);
      assert r.value.value[0..] == r.value.value;
    } else {
      NoText(s, pos);
    }
  }

  lemma {:induction false} DirectiveSound(s: Stream, pos: nat)
    requires ParseDirective(s, pos).Done?
    ensures var r := ParseDirective(s, pos);
      FineArguments(r.value.arguments) && Text(s, pos, r.pos) == PrintDirective(r.value)
  {
    hide Text, ParseOptArguments, PrintArguments, FineArguments;
    var r := ParseDirective(s, pos);
    TextSplit(s, pos, pos + 1, r.pos);
    TextOne(s, pos);
    OptArgumentsSound(s, pos + 1);
  }

  lemma {:induction false} DirectivesSound(s: Stream, pos: nat, acc: seq<Directive>)
    requires pos <= |s.tokens| && ParseDirectives(s, pos, acc).Done?
    ensures var r := ParseDirectives(s, pos, acc);
      && |acc| <= |r.value| && r.value[..|acc|] == acc
      && FineDirectives(r.value[|acc|..])
      && Text(s, pos, r.pos) == PrintDirectives(r.value[|acc|..])
    decreases |s.tokens| - pos
  {
    hide Text, ParseDirective, PrintDirective, FineArguments;
    var r := ParseDirectives(s, pos, acc);
    if pos < |s.tokens| && s.tokens[pos].kind == At {
      var d := ParseDirective(s, pos + 1);
      DirectiveSound(s, pos + 1);
      DirectivesSound(s, d.pos, acc + [d.value]);
      TextCons(s, pos, r.pos);
      TextSplit(s, pos + 1, d.pos, r.pos);
      Peel(r.value, acc, d.value);
      var rest := r.value[|acc|..];
      assert [Mark(At)] + (PrintDirective(d.value) + PrintDirectives(rest[1..])) == PrintDirectives(rest);
    } else {
      NoText(s, pos);
      assert r.value[|acc|..] == [];
    }
  }

  lemma {:induction false} AllDirectivesSound(s: Stream, pos: nat)
    requires pos <= |s.tokens| && ParseDirectives(s, pos, []).Done?
    ensures var r := ParseDirectives(s, pos, []);
      FineDirectives(r.value) && Text(s, pos, r.pos) == PrintDirectives(r.value)
  {
    hide Text, ParseDirectives, PrintDirectives, FineDirectives;
    DirectivesSound(s, pos, []);
    assert ParseDirectives(s, pos, []).value[0..] == ParseDirectives(s, pos, []).value;
  }

  // ----- selections -----

  lemma {:induction false} SetSound(s: Stream, pos: nat)
    requires ParseSelectionSet(s, pos).Done?
    ensures var r := ParseSelectionSet(s, pos);
      FineSet(r.value) && Text(s, pos, r.pos) == PrintSet(r.value)
    decreases |s.tokens| - pos, 0
  {
    hide Text, ParseSelections, PrintSelections, FineSelections;
    var r := ParseSelectionSet(s, pos);
    TextCons(s, pos, r.pos);
    SelectionsSound(s, pos + 1, s.tokens[pos], []);
    assert r.value.selections[0..] == r.value.selections;
  }

  lemma {:induction false} SelectionsSound(s: Stream, pos: nat, open: Token, acc: seq<Selection>)
    requires pos <= |s.tokens| && ParseSelections(s, pos, open, acc).Done?
    ensures var r := ParseSelections(s, pos, open, acc);
      && r.value.selections != []
      && |acc| <= |r.value.selections| && r.value.selections[..|acc|] == acc
      && FineSelections(r.value.selections[|acc|..])
      && Text(s, pos, r.pos) == PrintSelections(r.value.selections[|acc|..]) + [Mark(RBrace)]
    decreases |s.tokens| - pos, 4
  {
    hide Text, ParseSelection, PrintSelection, FineSelection;
    var r := ParseSelections(s, pos, open, acc);
    if s.tokens[pos].kind == RBrace {
      TextOne(s, pos);
      assert r.value.selections[|acc|..] == [];
    } else {
      var sel := ParseSelection(s, pos);
      SelectionSound(s, pos);
      SelectionsSound(s, sel.pos, open, acc + [sel.value]);
      TextSplit(s, pos, sel.pos, r.pos);
      Peel(r.value.selections, acc, sel.value);
    }
  }

  lemma {:induction false} BodySound(s: Stream, pos: nat)
    requires pos <= |s.tokens| && ParseBody(s, pos).Done?
    ensures var r := ParseBody(s, pos);
      FineDirectives(r.value.0) && FineSet(r.value.1) && Text(s, pos, r.pos) == PrintBody(r.value.0, r.value.1)
    decreases |s.tokens| - pos, 1
  {
    hide Text, ParseDirectives, PrintDirectives, FineDirectives, ParseSelectionSet, PrintSet, FineSet;
    var r := ParseBody(s, pos);
    var d := ParseDirectives(s, pos, []);
    AllDirectivesSound(s, pos);
    SetSound(s, d.pos);
    TextSplit(s, pos, d.pos, r.pos);
  }

  lemma {:induction false} TailSound(s: Stream, pos: nat)
    requires pos <= |s.tokens| && ParseTail(s, pos).Done?
    ensures var r := ParseTail(s, pos);
      && FineDirectives(r.value.0) && (r.value.1.Some? ==> FineSet(r.value.1.value))
      && Text(s, pos, r.pos) == PrintTail(r.value.0, r.value.1)
    decreases |s.tokens| - pos, 1
  {
    hide Text, ParseDirectives, PrintDirectives, FineDirectives, ParseSelectionSet, PrintSet, FineSet;
    var r := ParseTail(s, pos);
    var d := ParseDirectives(s, pos, []);
    AllDirectivesSound(s, pos);
    if r.value.1.Some? {
      SetSound(s, d.pos);
      TextSplit(s, pos, d.pos, r.pos);
    }
  }

  lemma {:induction false} SpreadSound(s: Stream, pos: nat)
    requires pos <= |s.tokens| && ParseSpread(s, pos).Done?
    ensures var r := ParseSpread(s, pos);
      FineSelection(r.value) && [Mark(Spread)] + Text(s, pos, r.pos) == PrintSelection(r.value)
    decreases |s.tokens| - pos, 2
  {
    hide Text, ParseDirectives, PrintDirectives, FineDirectives, ParseBody, PrintBody, FineSet;
    var r := ParseSpread(s, pos);
    if pos < |s.tokens| && s.tokens[pos].kind == NameToken && s.tokens[pos].text == "on" {
      TextCons(s, pos, r.pos);
      TextCons(s, pos + 1, r.pos);
      BodySound(s, pos + 2);
      assert PrintSelection(r.value) ==
        [Mark(Spread)] + [Word("on"), Word(r.value.typeCondition.value.value)] + Text(s, pos + 2, r.pos);
    } else if pos < |s.tokens| && s.tokens[pos].kind == NameToken {
      TextCons(s, pos, r.pos);
      AllDirectivesSound(s, pos + 1);
    } else {
      BodySound(s, pos);
      assert PrintSelection(r.value) == [Mark(Spread)] + [] + Text(s, pos, r.pos);
    }
  }

  lemma {:induction false} AliasSound(s: Stream, pos: nat)
    requires ParseAlias(s, pos).Done?
    ensures var r := ParseAlias(s, pos);
      Text(s, pos, r.pos) == PrintAlias(r.value.0, r.value.1)
  {
    hide Text;
    var r := ParseAlias(s, pos);
    TextOne(s, pos);
    if r.value.0.Some? {
      TextCons(s, pos, r.pos);
      TextCons(s, pos + 1, r.pos);
      TextOne(s, pos + 2);
    }
  }

  lemma {:induction false} FieldSound(s: Stream, pos: nat)
    requires ParseField(s, pos).Done?
    ensures var r := ParseField(s, pos);
      FineSelection(r.value) && Text(s, pos, r.pos) == PrintSelection(r.value)
    decreases |s.tokens| - pos, 2
  {
    hide Text, ParseAlias, ParseOptArguments, ParseTail, PrintAlias, PrintArguments, PrintTail, FineArguments,
      FineDirectives, FineSet;
    var r := ParseField(s, pos);
    var p1 := ParseAlias(s, pos).pos;
    var p2 := ParseOptArguments(s, p1).pos;
    AliasSound(s, pos);
    OptArgumentsSound(s, p1);
    TailSound(s, p2);
    TextSplit(s, pos, p1, p2);
    TextSplit(s, pos, p2, r.pos);
  }

  lemma {:induction false} SelectionSound(s: Stream, pos: nat)
    requires pos <= |s.tokens| && ParseSelection(s, pos).Done?
    ensures var r := ParseSelection(s, pos);
      FineSelection(r.value) && Text(s, pos, r.pos) == PrintSelection(r.value)
    decreases |s.tokens| - pos, 3
  {
    hide Text, ParseSpread, ParseField, PrintSelection, FineSelection;
    var r := ParseSelection(s, pos);
    if s.tokens[pos].kind == Spread {
      SpreadSound(s, pos + 1);
      TextCons(s, pos, r.pos);
    } else {
      FieldSound(s, pos);
    }
  }

  // ----- definitions -----

  lemma {:induction false} DefaultSound(s: Stream, pos: nat)
    requires pos <= |s.tokens| && ParseDefault(s, pos).Done?
    ensures var r := ParseDefault(s, pos);
      (r.value.Some? ==> FineValue(r.value.value, true)) && Text(s, pos, r.pos) == PrintDefault(r.value)
  {
    hide Text, ParseValue, PrintValue, FineValue;
    var r := ParseDefault(s, pos);
    if r.value.Some? {
      TextCons(s, pos, r.pos);
      ValueSound(s, pos + 1, true);
    } else {
      NoText(s, pos);
    }
  }

  lemma {:induction false} VariableHeadSound(s: Stream, pos: nat)
    requires ParseVariableHead(s, pos).Done?
    ensures var r := ParseVariableHead(s, pos);
      FineType(r.value.1) && Text(s, pos, r.pos) ==
        [Mark(Dollar), Word(r.value.0.value), Mark(Colon)] + PrintType(r.value.1)
  {
    hide Text, ParseType, PrintType, FineType;
    var r := ParseVariableHead(s, pos);
    TextCons(s, pos, r.pos);
    TextCons(s, pos + 1, r.pos);
    TextCons(s, pos + 2, r.pos);
    TypeSound(s, pos + 3);
  }

  lemma {:induction false} VariableSound(s: Stream, pos: nat)
    requires ParseVariable(s, pos).Done?
    ensures var r := ParseVariable(s, pos);
      FineVariable(r.value) && Text(s, pos, r.pos) == PrintVariable(r.value)
  {
    hide Text, ParseVariableHead, ParseDefault, ParseDirectives, PrintType, PrintDefault, PrintDirectives, FineType,
      FineValue, FineDirectives;
    var r := ParseVariable(s, pos);
    var p1 := ParseVariableHead(s, pos).pos;
    var p2 := ParseDefault(s, p1).pos;
    VariableHeadSound(s, pos);
    DefaultSound(s, p1);
    AllDirectivesSound(s, p2);
    TextSplit(s, pos, p1, p2);
    TextSplit(s, pos, p2, r.pos);
  }

  lemma {:induction false} VariablesSound(s: Stream, pos: nat, acc: seq<VariableDefinition>)
    requires ParseVariables(s, pos, acc).Done?
    ensures var r := ParseVariables(s, pos, acc);
      && |acc| <= |r.value| && r.value[..|acc|] == acc
      && FineVariables(r.value[|acc|..])
      && Text(s, pos, r.pos) == PrintVariables(r.value[|acc|..]) + [Mark(RParen)]
    decreases |s.tokens| - pos
  {
    hide Text, ParseVariable, PrintVariable, FineVariable;
    var r := ParseVariables(s, pos, acc);
    if s.tokens[pos].kind == RParen {
      TextOne(s, pos);
      assert r.value[|acc|..] == [];
    } else {
      var v := ParseVariable(s, pos);
      VariableSound(s, pos);
      VariablesSound(s, v.pos, acc + [v.value]);
      TextSplit(s, pos, v.pos, r.pos);
      Peel(r.value, acc, v.value);
    }
  }

  lemma {:induction false} OptVariablesSound(s: Stream, pos: nat)
    requires pos <= |s.tokens| && ParseOptVariables(s, pos).Done?
    ensures var r := ParseOptVariables(s, pos);
      (r.value.Some? ==> FineVariables(r.value.value)) && Text(s, pos, r.pos) == PrintOptVariables(r.value)
  {
    hide Text, ParseVariables, PrintVariables, FineVariables;
    var r := ParseOptVariables(s, pos);
    if r.value.Some? {
      TextCons(s, pos, r.pos);
      VariablesSound(s, pos + 1, []);
      assert r.value.value[0..] == r.value.value;
    } else {
      NoText(s, pos);
    }
  }

  lemma {:induction false} OpNameSound(s: Stream, pos: nat)
    requires pos <= |s.tokens| && ParseOpName(s, pos).Done?
    ensures var r := ParseOpName(s, pos); Text(s, pos, r.pos) == PrintOpName(r.value)
  {
    hide Text;
    if ParseOpName(s, pos).value.Some? {
      TextOne(s, pos);
    } else {
      NoText(s, pos);
    }
  }

  lemma {:induction false} OperationSound(s: Stream, pos: nat)
    requires pos < |s.tokens| && s.tokens[pos].kind == NameToken && ParseOperation(s, pos + 1, s.tokens[pos]).Done?
    ensures var r := ParseOperation(s, pos + 1, s.tokens[pos]);
      FineDefinition(r.value) && Text(s, pos, r.pos) == PrintDefinition(r.value)
  {
    hide Text, ParseOpName, ParseOptVariables, ParseBody, PrintOpName, PrintOptVariables, PrintBody, FineVariables,
      FineDirectives, FineSet;
    var r := ParseOperation(s, pos + 1, s.tokens[pos]);
    var p1 := ParseOpName(s, pos + 1).pos;
    var p2 := ParseOptVariables(s, p1).pos;
    OpNameSound(s, pos + 1);
    OptVariablesSound(s, p1);
    BodySound(s, p2);
    TextCons(s, pos, r.pos);
    TextSplit(s, pos + 1, p1, r.pos);
    TextSplit(s, p1, p2, r.pos);
    assert s.tokens[pos].text == Keyword(r.value.kind);
  }

  lemma {:induction false} FragmentSound(s: Stream, pos: nat)
    requires pos < |s.tokens| && s.tokens[pos].kind == NameToken && s.tokens[pos].text == "fragment"
    requires ParseFragment(s, pos + 1, s.tokens[pos]).Done?
    ensures var r := ParseFragment(s, pos + 1, s.tokens[pos]);
      FineDefinition(r.value) && Text(s, pos, r.pos) == PrintDefinition(r.value)
  {
    hide Text, ParseBody, PrintBody, FineDirectives, FineSet;
    var r := ParseFragment(s, pos + 1, s.tokens[pos]);
    TextCons(s, pos, r.pos);
    TextCons(s, pos + 1, r.pos);
    TextCons(s, pos + 2, r.pos);
    TextCons(s, pos + 3, r.pos);
    BodySound(s, pos + 4);
  }

  lemma {:induction false} DefinitionSound(s: Stream, pos: nat)
    requires pos <= |s.tokens| && ParseDefinition(s, pos).Done?
    ensures var r := ParseDefinition(s, pos);
      FineDefinition(r.value) && Text(s, pos, r.pos) == PrintDefinition(r.value)
  {
    hide Text, ParseSelectionSet, ParseOperation, ParseFragment, PrintSet, PrintBody, PrintOptVariables, FineSet;
    if s.tokens[pos].kind == LBrace {
      SetSound(s, pos);
    } else if OperationOf(s.tokens[pos].text).Some? {
      OperationSound(s, pos);
    } else {
      FragmentSound(s, pos);
    }
  }

  lemma {:induction false} DefinitionsSound(s: Stream, pos: nat, acc: seq<Definition>)
    requires pos <= |s.tokens| && ParseDefinitions(s, pos, acc).Done?
    ensures var r := ParseDefinitions(s, pos, acc);
      && r.value != []
      && |acc| <= |r.value| && r.value[..|acc|] == acc
      && FineDefinitions(r.value[|acc|..])
      && Text(s, pos, |s.tokens|) == PrintDocument(r.value[|acc|..])
    decreases |s.tokens| - pos
  {
    hide Text, ParseDefinition, PrintDefinition, FineDefinition;
    var r := ParseDefinitions(s, pos, acc);
    if pos == |s.tokens| {
      NoText(s, pos);
      assert r.value[|acc|..] == [];
    } else {
      var d := ParseDefinition(s, pos);
      DefinitionSound(s, pos);
      DefinitionsSound(s, d.pos, acc + [d.value]);
      TextSplit(s, pos, d.pos, r.pos);
      Peel(r.value, acc, d.value);
    }
  }

  /** An accepted token stream is exactly the printed form of the tree, and the tree is well formed. */
  lemma {:induction false} DocumentSound(s: Stream)
    requires ParseDocument(s).Done?
    ensures var defs := ParseDocument(s).value;
      FineDocument(defs) && Text(s, 0, |s.tokens|) == PrintDocument(defs)
  {
    hide Text, ParseDefinitions, PrintDocument, FineDefinitions;
    DefinitionsSound(s, 0, []);
    assert ParseDocument(s).value[0..] == ParseDocument(s).value;
  }
}
