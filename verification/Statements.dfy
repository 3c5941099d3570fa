/** A statement built by the SELECT builder reads as what was given to it (magna-sql `builder.rs`). */
module Statements {
  import opened Basics
  import opened Decimal
  import opened Sql
  import opened SelectBuilder
  import opened SqlWords
  import opened StatementReader

  /** The text of a fragment whose first placeholder is `$n`. */
  function Shown(f: SqlFragment, n: nat): string {
    Rendered(Meaning(f), n)
  }

  // ----- what a builder was given -----

  function GivenColumns(cs: seq<ColumnExpr>, n: nat): seq<Item> {
    if cs == [] then [] else
      [Item(Shown(cs[0].expr, n), cs[0].alias)] + GivenColumns(cs[1..], n + |cs[0].expr.params|)
  }

  function GivenJoins(js: seq<JoinClause>, n: nat): seq<Joined> {
    if js == [] then [] else
      var j, m := js[0], n + |js[0].table.params|;
      [Joined(j.joinType, Item(Shown(j.table, n), j.alias), Shown(j.on, m))] + GivenJoins(js[1..], m + |j.on.params|)
  }

  function GivenConditions(fs: seq<SqlFragment>, n: nat): seq<string> {
    if fs == [] then [] else [Shown(fs[0], n)] + GivenConditions(fs[1..], n + |fs[0].params|)
  }

  function GivenOrder(os: seq<OrderByItem>, n: nat): seq<Sorted> {
    if os == [] then [] else
      [Sorted(Shown(os[0].column, n), os[0].ascending)] + GivenOrder(os[1..], n + |os[0].column.params|)
  }

  function GivenNumber(n: Option<I64>): Option<PgValue> {
    if n.None? then None else Some(Int(n.value))
  }

  /** What `b` was given, its placeholders numbered clause after clause; no columns are all columns. */
  function Given(b: SqlBuilder): Statement {
    var n1 := 1 + |Concat(Map((c: ColumnExpr) => c.expr.params, b.columns))|;
    var n2 := n1 + |Concat(Map((j: JoinClause) => j.table.params + j.on.params, b.joins))|;
    var n3 := n2 + |Concat(Map((f: SqlFragment) => f.params, b.conditions))|;
    Statement(
      if b.columns == [] then [Item("*", None)] else GivenColumns(b.columns, 1),
      b.schema, b.table, b.tableAlias, GivenJoins(b.joins, n1), GivenConditions(b.conditions, n2),
      GivenOrder(b.orderBy, n3), GivenNumber(b.limit), GivenNumber(b.offset))
  }

  /** What `b` was given up to its table. */
  function Bare(b: SqlBuilder): Statement {
    Given(b).(joins := [], conditions := [], order := [], limit := None, offset := None)
  }

  // ----- fragments that keep to their clauses -----

  /** Closed text without any of the words `stops`. */
  ghost predicate Keeps(f: SqlFragment, stops: set<string>) {
    forall n :: Closed(Shown(f, n)) && Avoids(Words(Shown(f, n)), stops)
  }

  /** No comma ends a word: commas stand in parentheses, quotes or words. */
  ghost predicate Commaless(f: SqlFragment) {
    forall n :: NoCommas(Words(Shown(f, n)))
  }

  ghost predicate IsBalanced(f: SqlFragment) {
    forall n :: Balanced(Shown(f, n))
  }

  /** Every fragment is closed, and holds no word that would end its own clause. */
  ghost predicate Readable(b: SqlBuilder) {
    && (forall i :: 0 <= i < |b.columns| ==> Keeps(b.columns[i].expr, {"AS", "FROM"}) && Commaless(b.columns[i].expr))
    && (forall i :: 0 <= i < |b.joins| ==> Keeps(b.joins[i].table, {"AS", "ON"}) && Keeps(b.joins[i].on, AfterOn))
    && (forall i :: 0 <= i < |b.conditions| ==> IsBalanced(b.conditions[i]))
    && (forall i :: 0 <= i < |b.orderBy| ==> Keeps(b.orderBy[i].column, AfterOrder) && Commaless(b.orderBy[i].column))
  }

  /** Identifiers keep to every clause. */
  lemma {:induction false} IdentKeeps(name: string, stops: set<string>)
    requires forall w :: w in stops ==> w == "" || w[0] != '"'
    ensures Keeps(Ident(name), stops) && Commaless(Ident(name)) && IsBalanced(Ident(name))
    ensures forall n :: Shown(Ident(name), n) == Quoted(name)
  {
    QuotedIsWord(name);
    QuotedIsBalanced(name);
    QuotedIsNoKeyword(name);
    forall n ensures Shown(Ident(name), n) == Quoted(name) {
      hide Rendered, Quoted;
      FixedText(Quoted(name), n);
    }
    hide Shown, Words, Closed, Balanced;
  }

  lemma {:induction false} StarKeeps()
    ensures Keeps(Raw("*"), {"AS", "FROM"}) && Commaless(Raw("*"))
    ensures forall n :: Shown(Raw("*"), n) == "*"
  {
    InertIsWord("*");
    forall n ensures Shown(Raw("*"), n) == "*" {
      FixedText("*", n);
    }
    hide Shown, Words, Closed;
  }

  // ----- texts of lists -----

  lemma {:induction false} SeparatedLast(separator: string, items: seq<seq<Chunk>>, last: seq<Chunk>)
    requires items != []
    ensures Separated(separator, items + [last]) == Separated(separator, items) + ([Fixed(separator)] + last)
  {
    assert (items + [last])[..|items|] == items;
  }

  lemma {:induction false} SeparatedFront(separator: string, items: seq<seq<Chunk>>)
    requires items != []
    ensures Separated(separator, items) ==
      items[0] + if |items| == 1 then [] else [Fixed(separator)] + Separated(separator, items[1..])
  {
    var n := |items| - 1;
    if n == 0 {
      assert Separated(separator, items[..0]) == [];
    } else {
      var init, last, mid := items[..n], items[n], [Fixed(separator)];
      if n == 1 {
        assert items[1..][..0] == [] && Separated(separator, []) == [];
      }
      hide Separated;
      SeparatedFront(separator, init);
      SeparatedLast(separator, init, last);
      assert items == init + [last] && items[1..] == init[1..] + [last];
      if n > 1 {
        SeparatedLast(separator, init[1..], last);
        Associative(mid, Separated(separator, init[1..]), mid + last);
        Associative(items[0], mid + Separated(separator, init[1..]), mid + last);
      }
    }
  }

  lemma {:induction false} ConcatLast<T>(items: seq<seq<T>>, last: seq<T>)
    ensures Concat(items + [last]) == Concat(items) + last
  {
    assert (items + [last])[..|items|] == items;
  }

  lemma {:induction false} ConcatFront<T>(items: seq<seq<T>>)
    requires items != []
    ensures Concat(items) == items[0] + Concat(items[1..])
  {
    var n := |items| - 1;
    if n == 0 {
      assert Concat(items[..0]) == [] && Concat(items[1..]) == [];
    } else {
      hide Concat;
      var init, last := items[..n], items[n];
      ConcatFront(init);
      ConcatLast(init, last);
      ConcatLast(init[1..], last);
      assert items == init + [last] && items[1..] == init[1..] + [last];
      Associative(items[0], Concat(init[1..]), last);
    }
  }

  lemma {:induction false} MapRest<S, T>(f: S -> T, items: seq<S>)
    requires items != []
    ensures Map(f, items)[1..] == Map(f, items[1..]) && Map(f, items)[0] == f(items[0])
  {
  }

  lemma {:induction false} FixedText(text: string, n: nat)
    ensures Rendered([Fixed(text)], n) == text && Values([Fixed(text)]) == []
  {
    NoValues([Fixed(text)]);
    assert [Fixed(text)][1..] == [];
    assert Rendered([], n) == "";
    assert text + "" == text;
  }

  /** The text of a list is that of its first item, and of the others after the separator. */
  lemma {:induction false} ListText<T>(separator: string, text: T -> seq<Chunk>, items: seq<T>, n: nat)
    requires items != []
    ensures var first := text(items[0]);
      Rendered(Separated(separator, Map(text, items)), n) == Rendered(first, n) +
        if |items| ==
          1 then "" else separator + Rendered(Separated(separator, Map(text, items[1..])), n + |Values(first)|)
  {
    hide Rendered, Values, Separated, Map;
    MapRest(text, items);
    MapLength(text, items);
    SeparatedFront(separator, Map(text, items));
    var first, m := text(items[0]), n + |Values(text(items[0]))|;
    if |items| == 1 {
      assert first + [] == first;
    } else {
      var rest := Separated(separator, Map(text, items[1..]));
      RenderedConcat(first, [Fixed(separator)] + rest, n);
      RenderedConcat([Fixed(separator)], rest, m);
      FixedText(separator, m);
    }
  }

  lemma {:induction false} MapLength<S, T>(f: S -> T, items: seq<S>)
    ensures |Map(f, items)| == |items|
  {
  }

  // ----- aliases -----

  function AliasString(alias: Option<string>): string {
    if alias.None? then "" else " " + ("AS" + (" " + Quoted(alias.value)))
  }

  function AliasWords(alias: Option<string>): seq<string> {
    if alias.None? then [] else ["AS", Quoted(alias.value)]
  }

  lemma {:induction false} AliasIs(alias: Option<string>, n: nat)
    ensures Rendered(AliasText(alias), n) == AliasString(alias) && Values(AliasText(alias)) == []
    ensures Tail(AliasString(alias), AliasWords(alias))
  {
    hide Quoted, Words, Closed;
    if alias.Some? {
      var q := Quoted(alias.value);
      RenderedConcat([Fixed(" AS ")], [Fixed(q)], n);
      FixedText(" AS ", n);
      FixedText(q, n);
      assert [Fixed(" AS ")] + [Fixed(q)] == AliasText(alias);
      ValuesConcat([Fixed(" AS ")], [Fixed(q)]);
      assert " AS " + q == " " + ("AS" + (" " + q));
      InertIsWord("AS");
      QuotedIsWord(alias.value);
      WordsOver("AS", q);
      TailOf("AS" + (" " + q), ["AS", q]);
    }
  }

  lemma {:induction false} AliasReads(alias: Option<string>, rest: seq<string>)
    requires rest == [] || rest[0] != "AS"
    ensures ReadAlias(AliasWords(alias) + rest) == Some((alias, rest))
  {
    hide ReadIdentifier, Quoted;
    if alias.Some? {
      ReadsIdentifier(alias.value);
      assert (AliasWords(alias) + rest)[2..] == rest;
    } else {
      assert AliasWords(alias) + rest == rest;
    }
  }

  /** A quoted identifier is no keyword, and no comma ends it. */
  lemma {:induction false} QuotedIsNoKeyword(name: string)
    ensures Quoted(name)[0] == '"' && !EndsWithComma(Quoted(name))
  {
  }

  lemma {:induction false} AliasKeeps(alias: Option<string>)
    ensures NoCommas(AliasWords(alias)) && Avoids(AliasWords(alias), {"FROM"})
  {
    if alias.Some? {
      QuotedIsNoKeyword(alias.value);
    }
  }

  // ----- columns -----

  /** A column is read back, from words that neither end with a comma nor begin the next clause. */
  lemma {:induction false} ColumnReads(c: ColumnExpr, n: nat)
    requires Keeps(c.expr, {"AS", "FROM"}) && Commaless(c.expr)
    ensures var t := Rendered(ColumnText(c), n);
      && Closed(t) && NoCommas(Words(t)) && Avoids(Words(t), {"FROM"})
      && ReadColumn(Words(t)) == Some(Item(Shown(c.expr, n), c.alias))
  {
    hide Closed, Words, Rendered, Values, Meaning, EndsWithComma;
    var t, e := Rendered(ColumnText(c), n), Shown(c.expr, n);
    RenderedConcat(Meaning(c.expr), AliasText(c.alias), n);
    AliasIs(c.alias, n + |Values(Meaning(c.expr))|);
    TailAfter(e, AliasString(c.alias), AliasWords(c.alias));
    AliasKeeps(c.alias);
    assert Closed(e) && NoCommas(Words(e)) && Avoids(Words(e), {"AS", "FROM"});
    hide Keeps, Commaless, Shown;
    UntilIs({"AS"}, Words(e), AliasWords(c.alias));
    AliasReads(c.alias, []);
    assert AliasWords(c.alias) + [] == AliasWords(c.alias);
    assert Words(t)[|Words(e)|..] == AliasWords(c.alias) && Words(t)[..|Words(e)|] == Words(e);
    SpacedWords(e);
  }

  lemma {:induction false} CommaIsNoKeyword(ws: seq<string>, stops: set<string>)
    requires ws != [] && Avoids(ws, stops) && forall w :: w in stops ==> !EndsWithComma(w)
    ensures Avoids(WithComma(ws), stops)
  {
    assert EndsWithComma(ws[|ws|-1] + ",");
  }

  lemma {:induction false} ColumnsRead(cs: seq<ColumnExpr>, n: nat)
    requires cs != []
    requires forall i :: 0 <= i < |cs| ==> Keeps(cs[i].expr, {"AS", "FROM"}) && Commaless(cs[i].expr)
    ensures var t := Rendered(Separated(", ", Map(ColumnText, cs)), n);
      && Closed(t) && Avoids(Words(t), {"FROM"})
      && ReadAll(ReadColumn, Cut([], Words(t))) == Some(GivenColumns(cs, n))
  {
    hide Closed, Words, Rendered, Separated, Map, Keeps, Commaless, ReadColumn, ColumnText, Values, Shown, NoCommas;
    var t := Rendered(Separated(", ", Map(ColumnText, cs)), n);
    var first := Rendered(ColumnText(cs[0]), n);
    var ws := Words(first);
    ListText(", ", ColumnText, cs, n);
    ColumnReads(cs[0], n);
    ColumnValues(cs[0]);
    if |cs| == 1 {
      assert first + "" == first;
      CutOne([], ws);
      assert [] + ws == ws;
      ReadOne(ReadColumn, ws, []);
    } else {
      var m := n + |cs[0].expr.params|;
      var rest := Rendered(Separated(", ", Map(ColumnText, cs[1..])), m);
      ColumnsRead(cs[1..], m);
      WordsComma(first);
      WordsOver(first + ",", rest);
      assert t == first + "," + (" " + rest);
      CommaIsNoKeyword(ws, {"FROM"});
      CutMore([], ws, Words(rest));
      assert [] + ws == ws;
      ReadOne(ReadColumn, ws, Cut([], Words(rest)));
    }
  }

  lemma {:induction false} ReadOne<S, T>(read: S -> Option<T>, first: S, rest: seq<S>)
    requires read(first).Some? && ReadAll(read, rest).Some?
    ensures ReadAll(read, [first] + rest) == Some([read(first).value] + ReadAll(read, rest).value)
  {
    assert ([first] + rest)[1..] == rest;
  }

  // ----- the head -----

  function ColumnsString(b: SqlBuilder): string {
    if b.columns == [] then "*" else Rendered(Separated(", ", Map(ColumnText, b.columns)), 1)
  }

  function TableString(b: SqlBuilder): string {
    Quoted(b.schema) + ("." + Quoted(b.table))
  }

  function HeadWords(b: SqlBuilder): seq<string> {
    ["SELECT"] + Words(ColumnsString(b)) + (["FROM", TableString(b)] + AliasWords(b.tableAlias))
  }

  lemma {:induction false} StarReads()
    ensures IsWord("*") && Avoids(["*"], {"FROM"})
    ensures ReadAll(ReadColumn, Cut([], ["*"])) == Some([Item("*", None)])
  {
    var star := ["*"];
    InertIsWord("*");
    CutOne([], star);
    UntilIs({"AS"}, star, []);
    assert star + [] == star && [] + star == star;
    assert star[1..] == [] && Spaced(star[..1]) == "*";
    assert ReadColumn(star) == Some(Item("*", None));
    ReadOne(ReadColumn, star, []);
    assert [star] + [] == [star] && [Item("*", None)] + [] == [Item("*", None)];
  }

  lemma {:induction false} ColumnListReads(b: SqlBuilder)
    requires Readable(b)
    ensures var t := ColumnsString(b);
      && Closed(t) && Avoids(Words(t), {"FROM"})
      && ReadAll(ReadColumn, Cut([], Words(t))) == Some(Given(b).columns)
  {
    hide Closed, Words, Rendered, Separated, Map, Keeps, Commaless, ReadAll, ReadColumn, Cut, GivenColumns;
    if b.columns == [] {
      StarReads();
    } else {
      ColumnsRead(b.columns, 1);
    }
  }

  lemma {:induction false} ColumnsRendered(b: SqlBuilder)
    ensures Rendered(if b.columns == [] then [Fixed("*")] else Separated(", ", Map(ColumnText, b.columns)), 1) ==
      ColumnsString(b)
  {
    FixedText("*", 1);
  }

  lemma {:induction false} HeadIs(b: SqlBuilder)
    requires Readable(b)
    ensures var t := Rendered(HeadText(b), 1); Closed(t) && Words(t) == HeadWords(b)
  {
    hide Closed, Words, Rendered, Values, Readable, Quoted, AliasText, AliasString, AliasWords, TableString;
    var columns := if b.columns == [] then [Fixed("*")] else Separated(", ", Map(ColumnText, b.columns));
    hide Separated, Map;
    ColumnsRendered(b);
    ColumnListReads(b);
    hide ColumnsString;
    var table := [Fixed(Quoted(b.schema)), Fixed("."), Fixed(Quoted(b.table))];
    var from := [Fixed(" FROM ")] + table + AliasText(b.tableAlias);
    assert HeadText(b) == [Fixed("SELECT ")] + (columns + from);
    hide HeadText;
    RenderedConcat([Fixed("SELECT ")], columns + from, 1);
    FixedText("SELECT ", 1);
    RenderedConcat(columns, from, 1);
    FromIs(b, 1 + |Values(columns)|);
    HeadTextIs(b);
  }

  function FromString(b: SqlBuilder): string {
    " " + ("FROM" + (" " + TableString(b))) + AliasString(b.tableAlias)
  }

  /** The words of the head, from its texts. */
  lemma {:induction false} HeadTextIs(b: SqlBuilder)
    requires Closed(ColumnsString(b)) && Tail(FromString(b), ["FROM", TableString(b)] + AliasWords(b.tableAlias))
    ensures var t := "SELECT " + (ColumnsString(b) + FromString(b)); Closed(t) && Words(t) == HeadWords(b)
  {
    hide Closed, Words, ColumnsString, FromString, TableString, Tail;
    var cols := ColumnsString(b);
    InertIsWord("SELECT");
    WordsOver("SELECT", cols);
    var start := "SELECT" + (" " + cols);
    TailAfter(start, FromString(b), ["FROM", TableString(b)] + AliasWords(b.tableAlias));
    assert "SELECT " + (cols + FromString(b)) == start + FromString(b);
  }

  lemma {:induction false} FromIs(b: SqlBuilder, n: nat)
    ensures Rendered([Fixed(" FROM ")] + [Fixed(Quoted(b.schema)), Fixed("."), Fixed(Quoted(b.table))] +
                     AliasText(b.tableAlias), n) == FromString(b)
    ensures Tail(FromString(b), ["FROM", TableString(b)] + AliasWords(b.tableAlias))
  {
    hide Closed, Words, Rendered, Values, Quoted, AliasText, AliasString, AliasWords;
    var s, t, name := Quoted(b.schema), Quoted(b.table), TableString(b);
    var from := [Fixed(" FROM "), Fixed(s), Fixed("."), Fixed(t)];
    FixedTexts(" FROM ", s, t, n);
    NoValues(from);
    RenderedConcat(from, AliasText(b.tableAlias), n);
    assert [Fixed(" FROM ")] + [Fixed(s), Fixed("."), Fixed(t)] == from;
    AliasIs(b.tableAlias, n);
    InertIsWord("FROM");
    TableIsWord(b.schema, b.table);
    WordsOver("FROM", name);
    TailOf("FROM" + (" " + name), ["FROM", name]);
    TailConcat(" " + ("FROM" + (" " + name)), ["FROM", name], AliasString(b.tableAlias), AliasWords(b.tableAlias));
    assert " FROM " + name == " " + ("FROM" + (" " + name));
  }

  lemma {:induction false} FixedTexts(a: string, s: string, t: string, n: nat)
    ensures Rendered([Fixed(a), Fixed(s), Fixed("."), Fixed(t)], n) == a + (s + ("." + t))
  {
    hide Rendered, Values;
    FixedText(a, n);
    FixedText(s, n);
    FixedText(".", n);
    FixedText(t, n);
    RenderedConcat([Fixed(".")], [Fixed(t)], n);
    assert [Fixed(".")] + [Fixed(t)] == [Fixed("."), Fixed(t)];
    RenderedConcat([Fixed(s)], [Fixed("."), Fixed(t)], n);
    assert [Fixed(s)] + [Fixed("."), Fixed(t)] == [Fixed(s), Fixed("."), Fixed(t)];
    RenderedConcat([Fixed(a)], [Fixed(s), Fixed("."), Fixed(t)], n);
    assert [Fixed(a)] + [Fixed(s), Fixed("."), Fixed(t)] == [Fixed(a), Fixed(s), Fixed("."), Fixed(t)];
  }

  lemma {:induction false} HeadWordsRead(cols: seq<string>, name: string, alias: seq<string>, rest: seq<string>)
    requires Avoids(cols, {"FROM"})
    requires ReadAll(ReadColumn, Cut([], cols)).Some? && ReadTable(name).Some? && ReadAlias(alias + rest).Some?
    ensures var items, table := ReadAll(ReadColumn, Cut([], cols)).value, ReadTable(name).value;
      var as_ := ReadAlias(alias + rest).value;
      ReadHead(["SELECT"] + cols + (["FROM", name] + alias) + rest) ==
        Some((Statement(items, table.0, table.1, as_.0, [], [], [], None, None), as_.1))
  {
    hide ReadAll, Cut, ReadTable, ReadAlias, Until;
    var before, after := ["SELECT"] + cols, ["FROM", name] + (alias + rest);
    var all := ["SELECT"] + cols + (["FROM", name] + alias) + rest;
    assert all == before + after;
    UntilIs({"FROM"}, before, after);
    assert all[1..|before|] == cols && all[|before|+1] == name && all[|before|+2..] == alias + rest;
  }

  lemma {:induction false} HeadReads(b: SqlBuilder, rest: seq<string>)
    requires Readable(b) && (rest == [] || rest[0] != "AS")
    ensures ReadHead(HeadWords(b) + rest) == Some((Bare(b), rest))
  {
    ColumnListReads(b);
    ReadsTable(b.schema, b.table);
    AliasReads(b.tableAlias, rest);
    HeadWordsRead(Words(ColumnsString(b)), TableString(b), AliasWords(b.tableAlias), rest);
    hide Closed, Words, Readable, ReadAll, Cut, ReadTable, ReadAlias, Quoted, AliasWords, ColumnsString, Values,
      HeadText;
    hide GivenColumns, GivenJoins, GivenConditions, GivenOrder, ReadHead;
  }

  // ----- joins -----

  function TypeWords(t: JoinType): seq<string> {
    match t
    case Inner => ["INNER", "JOIN"]
    case Left => ["LEFT", "JOIN"]
    case Right => ["RIGHT", "JOIN"]
    case Full => ["FULL", "JOIN"]
  }

  lemma {:induction false} TwoWords(a: string, b: string)
    requires Inert(a) && Inert(b)
    ensures Closed(a + (" " + b)) && Words(a + (" " + b)) == [a, b]
  {
    InertIsWord(a);
    InertIsWord(b);
    WordsOver(a, b);
  }

  lemma {:induction false} TypeIs(t: JoinType)
    ensures Closed(Keyword(t)) && Words(Keyword(t)) == TypeWords(t)
  {
    hide Closed, Words;
    var w := match t case Inner => "INNER" case Left => "LEFT" case Right => "RIGHT" case Full => "FULL";
    TwoWords(w, "JOIN");
    assert Keyword(t) == w + (" " + "JOIN");
  }

  function JoinString(j: JoinClause, n: nat): string {
    " " + (Keyword(j.joinType) + (" " + Shown(j.table, n))) + AliasString(j.alias) +
    (" " + ("ON" + (" " + Shown(j.on, n + |j.table.params|))))
  }

  function JoinWords(j: JoinClause, n: nat): seq<string> {
    TypeWords(j.joinType) + Words(Shown(j.table, n)) + AliasWords(j.alias) +
    (["ON"] + Words(Shown(j.on, n + |j.table.params|)))
  }

  lemma {:induction false} JoinRendered(j: JoinClause, n: nat)
    ensures Rendered(JoinText(j), n) == JoinString(j, n)
  {
    hide Rendered, Values, Meaning, AliasText, AliasString, Keyword;
    var k := Keyword(j.joinType);
    var before, table, as_, after := [Fixed(" "), Fixed(k), Fixed(" ")], Meaning(j.table), AliasText(j.alias),
      [Fixed(" ON ")] + Meaning(j.on);
    assert JoinText(j) == before + (table + (as_ + after));
    var m := n + |j.table.params|;
    ParamsAreValues(j.table);
    FixedThree(" ", k, " ", n);
    RenderedConcat(before, table + (as_ + after), n);
    RenderedConcat(table, as_ + after, n);
    AliasIs(j.alias, m);
    RenderedConcat(as_, after, m);
    RenderedConcat([Fixed(" ON ")], Meaning(j.on), m);
    FixedText(" ON ", m);
  }

  lemma {:induction false} FixedThree(a: string, b: string, c: string, n: nat)
    ensures Rendered([Fixed(a), Fixed(b), Fixed(c)], n) == a + b + c && Values([Fixed(a), Fixed(b), Fixed(c)]) == []
  {
    hide Rendered, Values;
    NoValues([Fixed(a), Fixed(b), Fixed(c)]);
    FixedText(a, n);
    FixedText(b, n);
    FixedText(c, n);
    RenderedConcat([Fixed(b)], [Fixed(c)], n);
    assert [Fixed(b)] + [Fixed(c)] == [Fixed(b), Fixed(c)];
    RenderedConcat([Fixed(a)], [Fixed(b), Fixed(c)], n);
    assert [Fixed(a)] + [Fixed(b), Fixed(c)] == [Fixed(a), Fixed(b), Fixed(c)];
  }

  ghost predicate KeepsJoin(j: JoinClause) {
    Keeps(j.table, {"AS", "ON"}) && Keeps(j.on, AfterOn)
  }

  lemma {:induction false} TableTail(j: JoinClause, table: string)
    requires Closed(table)
    ensures Tail(" " + (Keyword(j.joinType) + (" " + table)) + AliasString(j.alias),
                 TypeWords(j.joinType) + Words(table) + AliasWords(j.alias))
  {
    hide Closed, Words, Keyword, AliasString, AliasWords, TypeWords, Tail;
    TypeIs(j.joinType);
    WordsOver(Keyword(j.joinType), table);
    TailOf(Keyword(j.joinType) + (" " + table), TypeWords(j.joinType) + Words(table));
    AliasIs(j.alias, 0);
    TailConcat(" " + (Keyword(j.joinType) + (" " + table)), TypeWords(j.joinType) + Words(table),
               AliasString(j.alias), AliasWords(j.alias));
  }

  lemma {:induction false} OnTail(on: string)
    requires Closed(on)
    ensures Tail(" " + ("ON" + (" " + on)), ["ON"] + Words(on))
  {
    hide Closed, Words, Tail;
    InertIsWord("ON");
    WordsOver("ON", on);
    TailOf("ON" + (" " + on), ["ON"] + Words(on));
  }

  lemma {:induction false} JoinTail(j: JoinClause, n: nat)
    requires KeepsJoin(j)
    ensures Tail(JoinString(j, n), JoinWords(j, n))
  {
    var table, on := Shown(j.table, n), Shown(j.on, n + |j.table.params|);
    assert Closed(table) && Closed(on);
    hide Closed, Words, Shown, KeepsJoin, Keyword, AliasString, AliasWords, TypeWords, Tail;
    TableTail(j, table);
    OnTail(on);
    TailConcat(" " + (Keyword(j.joinType) + (" " + table)) + AliasString(j.alias),
               TypeWords(j.joinType) + Words(table) + AliasWords(j.alias),
               " " + ("ON" + (" " + on)), ["ON"] + Words(on));
  }

  function GivenJoin(j: JoinClause, n: nat): Joined {
    Joined(j.joinType, Item(Shown(j.table, n), j.alias), Shown(j.on, n + |j.table.params|))
  }

  lemma {:induction false} JoinWordsRead(kind: seq<string>, table: seq<string>, as_: seq<string>, on: seq<string>,
                                         rest: seq<string>)
    requires |kind| == 2 && ReadJoinType(kind[0]).Some? && kind[1] == "JOIN"
    requires Until({"AS", "ON"}, table + (as_ + (["ON"] + on + rest))) == |table|
    requires Until(AfterOn, on + rest) == |on|
    requires ReadAlias(as_ + (["ON"] + on + rest)).Some? && ReadJoins(rest).Some?
    requires ReadAlias(as_ + (["ON"] + on + rest)).value.1 == ["ON"] + on + rest
    ensures var alias := ReadAlias(as_ + (["ON"] + on + rest)).value.0;
      ReadJoins(kind + table + as_ + (["ON"] + on) + rest) ==
      Some(([Joined(ReadJoinType(kind[0]).value, Item(Spaced(table), alias), Spaced(on))] + ReadJoins(rest).value.0,
            ReadJoins(rest).value.1))
  {
    hide ReadAlias, Until, ReadJoinType, Spaced;
    var tail := ["ON"] + on + rest;
    var all := kind + table + as_ + (["ON"] + on) + rest;
    assert all == kind + (table + (as_ + tail));
    assert all[2..] == table + (as_ + tail) && all[2..2+|table|] == table && all[2+|table|..] == as_ + tail;
    assert tail[1..] == on + rest && tail[1..1+|on|] == on && tail[1+|on|..] == rest;
  }

  lemma {:induction false} TypeReads(t: JoinType)
    ensures |TypeWords(t)| == 2 && ReadJoinType(TypeWords(t)[0]) == Some(t) && TypeWords(t)[1] == "JOIN"
    ensures TypeWords(t)[0] in AfterOn
  {
  }

  lemma {:induction false} JoinReads(j: JoinClause, n: nat, rest: seq<string>)
    requires KeepsJoin(j) && Stops(rest, AfterOn) && ReadJoins(rest).Some?
    ensures ReadJoins(JoinWords(j, n) + rest) ==
      Some(([GivenJoin(j, n)] + ReadJoins(rest).value.0, ReadJoins(rest).value.1))
  {
    hide ReadAlias, Until, ReadJoins, Words, Shown, Spaced, AliasWords, ReadJoinType, TypeWords;
    var tableText, onText := Shown(j.table, n), Shown(j.on, n + |j.table.params|);
    var table, on, as_ := Words(tableText), Words(onText), AliasWords(j.alias);
    assert Avoids(table, {"AS", "ON"}) && Avoids(on, AfterOn);
    hide KeepsJoin, Avoids;
    var tail := ["ON"] + on + rest;
    AliasReads(j.alias, tail);
    AliasStops(j.alias, tail);
    UntilIs({"AS", "ON"}, table, as_ + tail);
    UntilIs(AfterOn, on, rest);
    SpacedWords(tableText);
    SpacedWords(onText);
    TypeReads(j.joinType);
    JoinWordsRead(TypeWords(j.joinType), table, as_, on, rest);
  }

  lemma {:induction false} AliasStops(alias: Option<string>, tail: seq<string>)
    requires tail != [] && tail[0] == "ON"
    ensures Stops(AliasWords(alias) + tail, {"AS", "ON"})
  {
  }

  function JoinsWords(js: seq<JoinClause>, n: nat): seq<string> {
    if js == [] then [] else
      JoinWords(js[0], n) + JoinsWords(js[1..], n + |js[0].table.params| + |js[0].on.params|)
  }

  lemma {:induction false} JoinsTail(js: seq<JoinClause>, n: nat)
    requires forall i :: 0 <= i < |js| ==> KeepsJoin(js[i])
    ensures Tail(Rendered(Concat(Map(JoinText, js)), n), JoinsWords(js, n))
  {
    hide Rendered, Values, JoinText, JoinWords, JoinString, Tail, KeepsJoin;
    if js == [] {
      assert Concat(Map(JoinText, js)) == [];
      NothingAdds(n);
    } else {
      var m := n + |js[0].table.params| + |js[0].on.params|;
      MapRest(JoinText, js);
      ConcatFront(Map(JoinText, js));
      hide Map, Concat;
      JoinValues(js[0]);
      RenderedConcat(JoinText(js[0]), Concat(Map(JoinText, js[1..])), n);
      JoinRendered(js[0], n);
      JoinTail(js[0], n);
      JoinsTail(js[1..], m);
      TailConcat(JoinString(js[0], n), JoinWords(js[0], n), Rendered(Concat(Map(JoinText, js[1..])), m),
                 JoinsWords(js[1..], m));
    }
  }

  lemma {:induction false} NothingAdds(n: nat)
    ensures Tail(Rendered([], n), [])
  {
  }

  lemma {:induction false} NoJoins(rest: seq<string>)
    requires Stops(rest, {"WHERE"} + AfterWhere)
    ensures ReadJoins(rest) == Some(([], rest)) && Stops(rest, AfterOn)
  {
  }

  lemma {:induction false} JoinsRead(js: seq<JoinClause>, n: nat, rest: seq<string>)
    requires forall i :: 0 <= i < |js| ==> KeepsJoin(js[i])
    requires Stops(rest, {"WHERE"} + AfterWhere)
    ensures ReadJoins(JoinsWords(js, n) + rest) == Some((GivenJoins(js, n), rest))
    ensures Stops(JoinsWords(js, n) + rest, AfterOn)
  {
    hide KeepsJoin, Shown, ReadJoins, Words, TypeWords;
    if js == [] {
      assert JoinsWords(js, n) + rest == rest;
      NoJoins(rest);
    } else {
      var m := n + |js[0].table.params| + |js[0].on.params|;
      JoinsRead(js[1..], m, rest);
      JoinReads(js[0], n, JoinsWords(js[1..], m) + rest);
      assert JoinsWords(js, n) + rest == JoinWords(js[0], n) + (JoinsWords(js[1..], m) + rest);
      TypeReads(js[0].joinType);
      assert JoinWords(js[0], n)[0] == TypeWords(js[0].joinType)[0];
      hide JoinWords, JoinsWords;
    }
  }

  // ----- conditions -----

  lemma {:induction false} ConditionReads(f: SqlFragment, n: nat)
    requires IsBalanced(f)
    ensures var t := Rendered(ConditionText(f), n);
      IsWord(t) && t !in AfterWhere && ReadWrapped(t) == Some(Shown(f, n))
  {
    hide Rendered, Values, Meaning, IsWord, Balanced;
    var e := Shown(f, n);
    RenderedConcat([Fixed("(")] + Meaning(f), [Fixed(")")], n);
    RenderedConcat([Fixed("(")], Meaning(f), n);
    FixedText("(", n);
    FixedText(")", n + |Values([Fixed("(")] + Meaning(f))|);
    assert Balanced(e);
    WrappedIsWord(e);
    var t := Rendered(ConditionText(f), n);
    assert t == "(" + e + ")";
    assert t[0] == '(' && t[1..|t|-1] == e;
  }

  lemma {:induction false} ConditionsRead(fs: seq<SqlFragment>, n: nat)
    requires fs != [] && forall i :: 0 <= i < |fs| ==> IsBalanced(fs[i])
    ensures var t := Rendered(Separated(" AND ", Map(ConditionText, fs)), n);
      && Closed(t) && Avoids(Words(t), AfterWhere) && ReadConditions(Words(t)) == Some(GivenConditions(fs, n))
  {
    hide Closed, Words, Rendered, Separated, Map, IsBalanced, ConditionText, Values, Shown, ReadWrapped;
    var t := Rendered(Separated(" AND ", Map(ConditionText, fs)), n);
    var first := Rendered(ConditionText(fs[0]), n);
    ListText(" AND ", ConditionText, fs, n);
    ConditionReads(fs[0], n);
    ConditionValues(fs[0]);
    if |fs| == 1 {
      assert first + "" == first && fs[1..] == [] && [Shown(fs[0], n)] + [] == [Shown(fs[0], n)];
    } else {
      var m := n + |fs[0].params|;
      var rest := Rendered(Separated(" AND ", Map(ConditionText, fs[1..])), m);
      ConditionsRead(fs[1..], m);
      InertIsWord("AND");
      WordsOver("AND", rest);
      WordsOver(first, "AND" + (" " + rest));
      assert t == first + (" " + ("AND" + (" " + rest)));
      hide Avoids;
      assert Words(t) == [first] + (["AND"] + Words(rest));
      assert Words(t)[2..] == Words(rest);
      AvoidsMore(first, "AND", Words(rest), AfterWhere);
    }
  }

  lemma {:induction false} AvoidsMore(a: string, b: string, rest: seq<string>, stops: set<string>)
    requires a !in stops && b !in stops && Avoids(rest, stops)
    ensures Avoids([a] + ([b] + rest), stops)
  {
  }

  function WhereString(fs: seq<SqlFragment>, n: nat): string {
    Rendered(Clause(" WHERE ", " AND ", Map(ConditionText, fs)), n)
  }

  function WhereWords(fs: seq<SqlFragment>, n: nat): seq<string> {
    if fs == [] then [] else ["WHERE"] + Words(Rendered(Separated(" AND ", Map(ConditionText, fs)), n))
  }

  /** A clause with its keyword. */
  lemma {:induction false} ClauseTail(keyword: string, word: string, separator: string, items: seq<seq<Chunk>>, n: nat)
    requires items != [] && keyword == " " + word + " " && Closed(word)
    requires Closed(Rendered(Separated(separator, items), n))
    ensures Tail(Rendered(Clause(keyword, separator, items), n),
                 Words(word) + Words(Rendered(Separated(separator, items), n)))
  {
    hide Closed, Words, Rendered, Separated, Values, Tail;
    var t := Rendered(Separated(separator, items), n);
    RenderedConcat([Fixed(keyword)], Separated(separator, items), n);
    FixedText(keyword, n);
    WordsOver(word, t);
    TailOf(word + (" " + t), Words(word) + Words(t));
    assert keyword + t == " " + (word + (" " + t));
  }

  lemma {:induction false} WhereTail(fs: seq<SqlFragment>, n: nat)
    requires forall i :: 0 <= i < |fs| ==> IsBalanced(fs[i])
    ensures Tail(WhereString(fs, n), WhereWords(fs, n))
  {
    hide Closed, Words, Rendered, Separated, IsBalanced, ConditionText, Tail;
    MapLength(ConditionText, fs);
    if fs == [] {
      assert Clause(" WHERE ", " AND ", Map(ConditionText, fs)) == [];
      NothingAdds(n);
    } else {
      ConditionsRead(fs, n);
      InertIsWord("WHERE");
      ClauseTail(" WHERE ", "WHERE", " AND ", Map(ConditionText, fs), n);
    }
  }

  lemma {:induction false} WhereReads(fs: seq<SqlFragment>, n: nat, rest: seq<string>)
    requires forall i :: 0 <= i < |fs| ==> IsBalanced(fs[i])
    requires Stops(rest, AfterWhere)
    ensures ReadWhere(WhereWords(fs, n) + rest) == Some((GivenConditions(fs, n), rest))
    ensures Stops(WhereWords(fs, n) + rest, {"WHERE"} + AfterWhere)
  {
    hide Closed, Words, Rendered, Separated, IsBalanced, ConditionText, Map, ReadConditions, Until, Shown;
    var all := WhereWords(fs, n) + rest;
    if fs == [] {
      assert all == rest;
    } else {
      ConditionsRead(fs, n);
      var ws := Words(Rendered(Separated(" AND ", Map(ConditionText, fs)), n));
      UntilIs(AfterWhere, ws, rest);
      hide Avoids;
      assert all[1..] == ws + rest && all[1..1+|ws|] == ws && all[1+|ws|..] == rest;
    }
  }

  // ----- order -----

  ghost predicate KeepsOrder(o: OrderByItem) {
    Keeps(o.column, AfterOrder) && Commaless(o.column)
  }

  lemma {:induction false} OrderReads(o: OrderByItem, n: nat)
    requires KeepsOrder(o)
    ensures var t := Rendered(OrderText(o), n);
      && Closed(t) && NoCommas(Words(t)) && Avoids(Words(t), AfterOrder)
      && ReadSorted(Words(t)) == Some(Sorted(Shown(o.column, n), o.ascending))
  {
    hide Closed, Words, Rendered, Values, Meaning;
    var t, e, d := Rendered(OrderText(o), n), Shown(o.column, n), if o.ascending then "ASC" else "DESC";
    assert (if o.ascending then " ASC" else " DESC") == " " + d;
    RenderedConcat(Meaning(o.column), [Fixed(" " + d)], n);
    FixedText(" " + d, n + |Values(Meaning(o.column))|);
    assert Closed(e) && NoCommas(Words(e)) && Avoids(Words(e), AfterOrder);
    hide KeepsOrder, Shown;
    InertIsWord(d);
    WordsOver(e, d);
    assert Words(t)[..|Words(e)|] == Words(e);
    SpacedWords(e);
  }

  lemma {:induction false} OrderListReads(os: seq<OrderByItem>, n: nat)
    requires os != [] && forall i :: 0 <= i < |os| ==> KeepsOrder(os[i])
    ensures var t := Rendered(Separated(", ", Map(OrderText, os)), n);
      && Closed(t) && Avoids(Words(t), AfterOrder)
      && ReadAll(ReadSorted, Cut([], Words(t))) == Some(GivenOrder(os, n))
  {
    hide Closed, Words, Rendered, Separated, Map, KeepsOrder, ReadSorted, OrderText, Values, Shown, NoCommas;
    var t := Rendered(Separated(", ", Map(OrderText, os)), n);
    var first := Rendered(OrderText(os[0]), n);
    var ws := Words(first);
    ListText(", ", OrderText, os, n);
    OrderReads(os[0], n);
    OrderValues(os[0]);
    assert [] + ws == ws;
    if |os| == 1 {
      assert first + "" == first;
      CutOne([], ws);
      ReadOne(ReadSorted, ws, []);
    } else {
      var m := n + |os[0].column.params|;
      var rest := Rendered(Separated(", ", Map(OrderText, os[1..])), m);
      OrderListReads(os[1..], m);
      WordsComma(first);
      WordsOver(first + ",", rest);
      assert t == first + "," + (" " + rest);
      CommaIsNoKeyword(ws, AfterOrder);
      CutMore([], ws, Words(rest));
      ReadOne(ReadSorted, ws, Cut([], Words(rest)));
    }
  }

  function OrderString(os: seq<OrderByItem>, n: nat): string {
    Rendered(Clause(" ORDER BY ", ", ", Map(OrderText, os)), n)
  }

  function OrderWords(os: seq<OrderByItem>, n: nat): seq<string> {
    if os == [] then [] else ["ORDER", "BY"] + Words(Rendered(Separated(", ", Map(OrderText, os)), n))
  }

  lemma {:induction false} OrderTail(os: seq<OrderByItem>, n: nat)
    requires forall i :: 0 <= i < |os| ==> KeepsOrder(os[i])
    ensures Tail(OrderString(os, n), OrderWords(os, n))
  {
    hide Closed, Words, Rendered, Separated, KeepsOrder, OrderText, Tail;
    MapLength(OrderText, os);
    if os == [] {
      assert Clause(" ORDER BY ", ", ", Map(OrderText, os)) == [];
      NothingAdds(n);
    } else {
      OrderListReads(os, n);
      TwoWords("ORDER", "BY");
      assert " ORDER BY " == " " + ("ORDER" + (" " + "BY")) + " ";
      ClauseTail(" ORDER BY ", "ORDER" + (" " + "BY"), ", ", Map(OrderText, os), n);
    }
  }

  lemma {:induction false} OrderClauseReads(os: seq<OrderByItem>, n: nat, rest: seq<string>)
    requires forall i :: 0 <= i < |os| ==> KeepsOrder(os[i])
    requires Stops(rest, AfterOrder)
    ensures ReadOrder(OrderWords(os, n) + rest) == Some((GivenOrder(os, n), rest))
    ensures Stops(OrderWords(os, n) + rest, AfterWhere)
  {
    hide Closed, Words, Rendered, Separated, KeepsOrder, OrderText, Map, ReadAll, Cut, Until, Shown;
    var all := OrderWords(os, n) + rest;
    if os == [] {
      assert all == rest;
    } else {
      OrderListReads(os, n);
      var ws := Words(Rendered(Separated(", ", Map(OrderText, os)), n));
      UntilIs(AfterOrder, ws, rest);
      hide Avoids;
      assert all[2..] == ws + rest && all[2..2+|ws|] == ws && all[2+|ws|..] == rest;
    }
  }

  // ----- limit and offset -----

  lemma {:induction false} DigitsAreInert(n: nat)
    ensures Inert(Digits(n))
  {
    if n >= 10 {
      DigitsAreInert(n / 10);
    }
  }

  function NumberWords(word: string, value: Option<I64>, n: nat): seq<string> {
    if value.None? then [] else [word, "$" + Digits(n)]
  }

  lemma {:induction false} NumberTail(keyword: string, word: string, value: Option<I64>, n: nat)
    requires keyword == " " + word + " " && Inert(word)
    ensures Tail(Rendered(NumberText(keyword, value), n), NumberWords(word, value, n))
  {
    hide Closed, Words, Digits, Rendered, Values, Tail;
    if value.None? {
      NothingAdds(n);
    } else {
      var p := "$" + Digits(n);
      DigitsAreInert(n);
      TwoWords(word, p);
      TailOf(word + (" " + p), [word, p]);
      FixedText(keyword, n);
      PlaceholderText(Int(value.value), n);
      RenderedConcat([Fixed(keyword)], [Bound(Int(value.value))], n);
      assert [Fixed(keyword)] + [Bound(Int(value.value))] == NumberText(keyword, value);
      assert keyword + p == " " + (word + (" " + p));
    }
  }

  lemma {:induction false} PlaceholderText(v: PgValue, n: nat)
    ensures Rendered([Bound(v)], n) == "$" + Digits(n)
  {
    hide Digits;
    assert [Bound(v)][1..] == [];
    assert Rendered([], n + 1) == "";
  }

  lemma {:induction false} NumberReads(word: string, value: Option<I64>, n: nat, rest: seq<string>,
                                       params: seq<PgValue>)
    requires rest == [] || rest[0] != word
    requires value.Some? ==> 1 <= n <= |params| && params[n-1] == Int(value.value)
    ensures ReadNumber(word, NumberWords(word, value, n) + rest, params) == Some((GivenNumber(value), rest))
  {
    hide ReadParam, Digits;
    var all := NumberWords(word, value, n) + rest;
    if value.Some? {
      ReadsParam(n, params);
      assert all[2..] == rest;
    } else {
      assert all == rest;
    }
  }

  // ----- the statement -----

  lemma {:induction false} RenderedSix(a: seq<Chunk>, b: seq<Chunk>, c: seq<Chunk>, d: seq<Chunk>, e: seq<Chunk>,
                                       f: seq<Chunk>)
    ensures var n1 := 1 + |Values(a)|; var n2 := n1 + |Values(b)|; var n3 := n2 + |Values(c)|;
      var n4 := n3 + |Values(d)|; var n5 := n4 + |Values(e)|;
      Rendered(a + b + c + d + e + f, 1) ==
      Rendered(a, 1) + Rendered(b, n1) + Rendered(c, n2) + Rendered(d, n3) + Rendered(e, n4) + Rendered(f, n5)
  {
    hide Values, Rendered;
    RenderedConcat(a, b, 1);
    ValuesConcat(a, b);
    RenderedConcat(a + b, c, 1);
    ValuesConcat(a + b, c);
    RenderedConcat(a + b + c, d, 1);
    ValuesConcat(a + b + c, d);
    RenderedConcat(a + b + c + d, e, 1);
    ValuesConcat(a + b + c + d, e);
    RenderedConcat(a + b + c + d + e, f, 1);
  }

  /** Six texts, each going on after a space, and their words. */
  lemma {:induction false} TailsAfter(a: string, u: seq<string>, b: string, v: seq<string>, c: string, w: seq<string>,
                                      d: string, x: seq<string>, e: string, y: seq<string>, f: string, z: seq<string>)
    requires Closed(a) && Words(a) == u && Tail(b, v) && Tail(c, w) && Tail(d, x) && Tail(e, y) && Tail(f, z)
    ensures Words(a + b + c + d + e + f) == u + v + w + x + y + z
  {
    hide Closed, Words, Tail;
    TailAfter(a, b, v);
    TailAfter(a + b, c, w);
    TailAfter(a + b + c, d, x);
    TailAfter(a + b + c + d, e, y);
    TailAfter(a + b + c + d + e, f, z);
  }

  /** The numbers of the placeholders that begin the clauses. */
  function Starts(b: SqlBuilder): (nat, nat, nat, nat, nat) {
    var n1 := 1 + |Values(HeadText(b))|;
    var n2 := n1 + |Values(Concat(Map(JoinText, b.joins)))|;
    var n3 := n2 + |Values(Concat(Map(ConditionText, b.conditions)))|;
    var n4 := n3 + |Values(Concat(Map(OrderText, b.orderBy)))|;
    (n1, n2, n3, n4, n4 + |NumberValues(b.limit)|)
  }

  lemma {:induction false} StatementWords(b: SqlBuilder)
    requires Readable(b)
    ensures var (n1, n2, n3, n4, n5) := Starts(b);
      Words(Rendered(SelectText(b), 1)) ==
      HeadWords(b) + JoinsWords(b.joins, n1) + WhereWords(b.conditions, n2) + OrderWords(b.orderBy, n3) +
      NumberWords("LIMIT", b.limit, n4) + NumberWords("OFFSET", b.offset, n5)
  {
    hide Values, Rendered, Words, HeadText, Concat, Map, Clause, NumberText, HeadWords, JoinsWords, WhereWords,
      OrderWords,
      NumberWords, NumberValues, KeepsJoin, Tail, Closed, Keeps, Commaless;
    var (n1, n2, n3, n4, n5) := Starts(b);
    var joins := Concat(Map(JoinText, b.joins));
    var conds := Clause(" WHERE ", " AND ", Map(ConditionText, b.conditions));
    var order := Clause(" ORDER BY ", ", ", Map(OrderText, b.orderBy));
    ClauseValues(" WHERE ", " AND ", Map(ConditionText, b.conditions));
    ClauseValues(" ORDER BY ", ", ", Map(OrderText, b.orderBy));
    NumberTextValues(" LIMIT ", b.limit);
    RenderedSix(HeadText(b), joins, conds, order, NumberText(" LIMIT ", b.limit), NumberText(" OFFSET ", b.offset));
    HeadIs(b);
    ReadableParts(b);
    JoinsTail(b.joins, n1);
    WhereTail(b.conditions, n2);
    OrderTail(b.orderBy, n3);
    NumberTail(" LIMIT ", "LIMIT", b.limit, n4);
    NumberTail(" OFFSET ", "OFFSET", b.offset, n5);
    TailsAfter(Rendered(HeadText(b), 1), HeadWords(b), Rendered(joins, n1), JoinsWords(b.joins, n1),
               Rendered(conds, n2), WhereWords(b.conditions, n2), Rendered(order, n3), OrderWords(b.orderBy, n3),
               Rendered(NumberText(" LIMIT ", b.limit), n4), NumberWords("LIMIT", b.limit, n4),
               Rendered(NumberText(" OFFSET ", b.offset), n5), NumberWords("OFFSET", b.offset, n5));
  }

  lemma {:induction false} ReadableParts(b: SqlBuilder)
    requires Readable(b)
    ensures forall i :: 0 <= i < |b.joins| ==> KeepsJoin(b.joins[i])
    ensures forall i :: 0 <= i < |b.conditions| ==> IsBalanced(b.conditions[i])
    ensures forall i :: 0 <= i < |b.orderBy| ==> KeepsOrder(b.orderBy[i])
  {
    hide Keeps, Commaless, IsBalanced;
  }

  /** Where the values of LIMIT and OFFSET stand among all values. */
  lemma {:induction false} NumbersAt(b: SqlBuilder)
    ensures var params := Values(SelectText(b));
      var n4, n5 := Starts(b).3, Starts(b).4;
      && (b.limit.Some? ==> n4 <= |params| && params[n4-1] == Int(b.limit.value))
      && (b.offset.Some? ==> n5 <= |params| && params[n5-1] == Int(b.offset.value))
  {
    hide Values, HeadText, Concat, Map, Clause, NumberText;
    ClauseValues(" WHERE ", " AND ", Map(ConditionText, b.conditions));
    ClauseValues(" ORDER BY ", ", ", Map(OrderText, b.orderBy));
    NumberTextValues(" LIMIT ", b.limit);
    NumberTextValues(" OFFSET ", b.offset);
    ConcatSix(HeadText(b), Concat(Map(JoinText, b.joins)), Clause(" WHERE ", " AND ", Map(ConditionText, b.conditions)),
              Clause(" ORDER BY ", ", ", Map(OrderText, b.orderBy)), NumberText(" LIMIT ", b.limit),
              NumberText(" OFFSET ", b.offset));
  }

  lemma {:induction false} ClausesInTurn(head: Statement, params: seq<PgValue>, w1: seq<string>, w2: seq<string>,
                                         w3: seq<string>, w4: seq<string>, w5: seq<string>)
    requires ReadJoins(w1).Some? && ReadJoins(w1).value.1 == w2
    requires ReadWhere(w2).Some? && ReadWhere(w2).value.1 == w3
    requires ReadOrder(w3).Some? && ReadOrder(w3).value.1 == w4
    requires ReadNumber("LIMIT", w4, params).Some? && ReadNumber("LIMIT", w4, params).value.1 == w5
    requires ReadNumber("OFFSET", w5, params).Some? && ReadNumber("OFFSET", w5, params).value.1 == []
    ensures ReadClauses(head, w1, params) == Some(head.(
      joins := ReadJoins(w1).value.0, conditions := ReadWhere(w2).value.0, order := ReadOrder(w3).value.0,
      limit := ReadNumber("LIMIT", w4, params).value.0, offset := ReadNumber("OFFSET", w5, params).value.0))
  {
    hide ReadJoins, ReadWhere, ReadOrder, ReadNumber;
  }

  lemma {:induction false} GivenParts(b: SqlBuilder)
    ensures var (n1, n2, n3, n4, n5) := Starts(b);
      Given(b) == Bare(b).(joins := GivenJoins(b.joins, n1), conditions := GivenConditions(b.conditions, n2),
        order := GivenOrder(b.orderBy, n3), limit := GivenNumber(b.limit), offset := GivenNumber(b.offset))
  {
    hide GivenJoins, GivenConditions, GivenOrder, Values, HeadText, Concat, Map;
    HeadValues(b);
    ClausesValues(b);
  }

  lemma {:induction false} LimitStops(b: SqlBuilder, n4: nat, n5: nat)
    ensures Stops(NumberWords("LIMIT", b.limit, n4) + (NumberWords("OFFSET", b.offset, n5) + []), AfterOrder)
    ensures var offset := NumberWords("OFFSET", b.offset, n5) + []; offset == [] || offset[0] != "LIMIT"
  {
  }

  lemma {:induction false} NumbersRead(b: SqlBuilder, params: seq<PgValue>)
    requires params == Values(SelectText(b))
    ensures var w5 := NumberWords("OFFSET", b.offset, Starts(b).4) + [];
      var w4 := NumberWords("LIMIT", b.limit, Starts(b).3) + w5;
      && Stops(w4, AfterOrder)
      && ReadNumber("LIMIT", w4, params) == Some((GivenNumber(b.limit), w5))
      && ReadNumber("OFFSET", w5, params) == Some((GivenNumber(b.offset), []))
  {
    var (_, _, _, n4, n5) := Starts(b);
    NumbersAt(b);
    assert n4 >= 1 && n5 >= 1;
    hide Values, SelectText, Starts, NumberWords, ReadNumber, GivenNumber, Stops;
    LimitStops(b, n4, n5);
    NumberReads("OFFSET", b.offset, n5, [], params);
    NumberReads("LIMIT", b.limit, n4, NumberWords("OFFSET", b.offset, n5) + [], params);
  }

  /** The clauses are read back, each up to where the next begins. */
  lemma {:induction false} ClausesRead(b: SqlBuilder, params: seq<PgValue>)
    requires Readable(b) && params == Values(SelectText(b))
    ensures var (n1, n2, n3, n4, n5) := Starts(b);
      var rest := JoinsWords(b.joins, n1) + (WhereWords(b.conditions, n2) + (OrderWords(b.orderBy, n3) +
        (NumberWords("LIMIT", b.limit, n4) + (NumberWords("OFFSET", b.offset, n5) + []))));
      Stops(rest, AfterOn) && ReadClauses(Bare(b), rest, params) == Some(Given(b))
  {
    hide Readable, Values, SelectText, NumberWords, JoinsWords, WhereWords, OrderWords, ReadNumber, ReadJoins,
      ReadWhere,
      ReadOrder, GivenJoins, GivenConditions, GivenOrder, KeepsJoin, IsBalanced, KeepsOrder, Starts, Given, Bare, Stops,
      GivenNumber, ReadClauses;
    var (n1, n2, n3, n4, n5) := Starts(b);
    ReadableParts(b);
    GivenParts(b);
    NumbersRead(b, params);
    var w5 := NumberWords("OFFSET", b.offset, n5) + [];
    var w4 := NumberWords("LIMIT", b.limit, n4) + w5;
    var w3 := OrderWords(b.orderBy, n3) + w4;
    var w2 := WhereWords(b.conditions, n2) + w3;
    OrderClauseReads(b.orderBy, n3, w4);
    WhereReads(b.conditions, n2, w3);
    JoinsRead(b.joins, n1, w2);
    ClausesInTurn(Bare(b), params, JoinsWords(b.joins, n1) + w2, w2, w3, w4, w5);
  }

  /** What was given to the builder is what the statement says: the columns, the tables, the kinds of joins, the
      conditions, the directions, and the values bound as limit and offset. */
  lemma {:induction false} SelectReadsBack(b: SqlBuilder)
    requires Readable(b)
    ensures ReadStatement(Rendered(SelectText(b), 1), Values(SelectText(b))) == Some(Given(b))
  {
    var (n1, n2, n3, n4, n5) := Starts(b);
    var params := Values(SelectText(b));
    var joins, conds, order, limit, offset := JoinsWords(b.joins, n1), WhereWords(b.conditions, n2),
      OrderWords(b.orderBy, n3), NumberWords("LIMIT", b.limit, n4), NumberWords("OFFSET", b.offset, n5);
    var rest := joins + (conds + (order + (limit + (offset + []))));
    hide Readable, Values, SelectText, Words, Rendered, HeadWords, JoinsWords, WhereWords, OrderWords, NumberWords,
      ReadHead,
      ReadClauses, Starts, Given, Bare;
    StatementWords(b);
    assert HeadWords(b) + joins + conds + order + limit + offset == HeadWords(b) + rest;
    ClausesRead(b, params);
    NoAlias(rest);
    HeadReads(b, rest);
  }

  lemma {:induction false} NoAlias(rest: seq<string>)
    requires Stops(rest, AfterOn)
    ensures rest == [] || rest[0] != "AS"
  {
  }

  /** Building a SELECT and flattening it: each value that was given is bound where it is used, and the text
      says what was given. */
  method BuildStatement(b: SqlBuilder) returns (sql: string, params: seq<PgValue>)
    ensures sql == Rendered(SelectText(b), 1)
    ensures params == Values(SelectText(b)) == GivenValues(b)
    ensures Readable(b) ==> ReadStatement(sql, params) == Some(Given(b))
  {
    hide Meaning, SelectText, GivenValues, Given, Readable, ReadStatement;
    var f := BuildSelect(b);
    ParamsAreValues(f);
    SelectValues(b);
    sql, params := Build(f);
    if Readable(b) {
      SelectReadsBack(b);
    }
  }
}
