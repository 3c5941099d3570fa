/** The statement behind a page (magna-build `QueryExecutor::select_connection`): its text, and that the rows it
    asks for are those from which the page is made. */
module PagingQuery {
  import opened Basics
  import opened Decimal
  import opened Sql
  import opened SelectBuilder
  import opened SqlWords
  import opened StatementReader
  import opened Statements
  import opened Paging

  // ----- the statement -----

  function Compared(column: string, operator: string, value: PgValue): (f: SqlFragment)
    ensures Meaning(f) == [Fixed(Quoted(column)), Fixed(operator), Bound(value)]
  {
    Append(PushRaw(Ident(column), operator), ParamOf(value))
  }

  function KeysetConditions(key: string, cursor: Option<PgValue>, backward: bool): seq<SqlFragment> {
    if cursor.None? then [] else [Compared(key, if backward then " < " else " > ", cursor.value)]
  }

  /** The builder for a page next to `cursor`, with the other conditions `conds`. */
  function ConnectionQuery(schema: string, table: string, key: string, cursor: Option<PgValue>, conds: seq<SqlFragment>,
                           limit: I64, backward: bool): SqlBuilder {
    SqlBuilder(schema, table, None, [ColumnExpr(Raw("*"), None)], [], KeysetConditions(key, cursor, backward) + conds,
               [OrderByItem(Ident(key), !backward)], Some(Wrapped(limit + 1)), None)
  }

  // ----- its text -----

  lemma {:induction false} RenderedCons(chunk: Chunk, rest: seq<Chunk>, n: nat)
    ensures Rendered([chunk] + rest, n) == RenderedOne(chunk, n) + Rendered(rest, Next(chunk, n))
  {
    assert ([chunk] + rest)[1..] == rest;
  }

  lemma {:induction false} RenderedNone(n: nat)
    ensures Rendered([], n) == ""
  {
  }

  lemma {:induction false} SmallNumbers()
    ensures Digits(1) == "1" && Digits(2) == "2"
  {
  }

  function FromPart(schema: string, table: string): string {
    "SELECT * FROM " + (Quoted(schema) + "." + Quoted(table))
  }

  function KeysetPart(key: string, cursor: Option<PgValue>, backward: bool): string {
    if cursor.None? then "" else " WHERE (" + Quoted(key) + (if backward then " < $1)" else " > $1)")
  }

  function OrderPart(key: string, backward: bool): string {
    " ORDER BY " + Quoted(key) + (if backward then " DESC" else " ASC")
  }

  function LimitPart(cursor: Option<PgValue>): string {
    if cursor.None? then " LIMIT $1" else " LIMIT $2"
  }

  /** `SELECT * FROM "schema"."table"`. */
  lemma {:induction false} StarHead(b: SqlBuilder)
    requires b.columns == [ColumnExpr(Raw("*"), None)] && b.tableAlias == None
    ensures HeadText(b) ==
      [Fixed("SELECT "), Fixed("*"), Fixed(" FROM "), Fixed(Quoted(b.schema)), Fixed("."), Fixed(Quoted(b.table))]
  {
    hide Quoted;
    var items := Map(ColumnText, b.columns);
    assert ColumnText(b.columns[0]) == [Fixed("*")] + [] == [Fixed("*")];
    assert |items| == 1 && items[0] == ColumnText(b.columns[0]);
    assert items == [[Fixed("*")]];
    assert Separated(", ", items) == [Fixed("*")] by {
      assert Separated(", ", items[..0]) == [];
    }
  }

  lemma {:induction false} StarHeadText(b: SqlBuilder)
    requires b.columns == [ColumnExpr(Raw("*"), None)] && b.tableAlias == None
    ensures Rendered(HeadText(b), 1) == FromPart(b.schema, b.table)
    ensures Values(HeadText(b)) == []
  {
    hide Rendered, Values, HeadText, Quoted;
    var s, t := Quoted(b.schema), Quoted(b.table);
    var first := [Fixed("SELECT "), Fixed("*"), Fixed(" FROM ")];
    var second := [Fixed(s), Fixed("."), Fixed(t)];
    StarHead(b);
    assert HeadText(b) == first + second;
    FixedThree("SELECT ", "*", " FROM ", 1);
    FixedThree(s, ".", t, 1);
    RenderedConcat(first, second, 1);
    ValuesConcat(first, second);
  }

  lemma {:induction false} NoClause(keyword: string, separator: string, n: nat)
    ensures Rendered(Clause(keyword, separator, []), n) == "" && Values(Clause(keyword, separator, [])) == []
  {
  }

  lemma {:induction false} OneItem(keyword: string, separator: string, item: seq<Chunk>, n: nat)
    ensures Rendered(Clause(keyword, separator, [item]), n) == keyword + Rendered(item, n)
    ensures Values(Clause(keyword, separator, [item])) == Values(item)
  {
    assert [item][..0] == [];
    assert Separated(separator, [item]) == [] + [] + item == item;
    hide Rendered, Values, Separated;
    RenderedConcat([Fixed(keyword)], item, n);
    ValuesConcat([Fixed(keyword)], item);
    FixedText(keyword, n);
  }

  lemma {:induction false} OneValue(v: PgValue)
    ensures Values([Bound(v)]) == [v]
  {
    assert [Bound(v)][1..] == [] && Values([]) == [];
  }

  lemma {:induction false} ComparedText(key: string, operator: string, v: PgValue, n: nat)
    ensures Shown(Compared(key, operator, v), n) == Quoted(key) + operator + ("$" + Digits(n))
    ensures Values(Meaning(Compared(key, operator, v))) == [v]
  {
    hide Rendered, Values, Meaning, Quoted, Digits, Compared;
    var k, o, p := Fixed(Quoted(key)), Fixed(operator), Bound(v);
    assert Meaning(Compared(key, operator, v)) == [k, o] + [p] && [k, o] == [k] + [o];
    RenderedConcat([k], [o], n);
    FixedText(Quoted(key), n);
    FixedText(operator, n);
    NoValues([k, o]);
    OneValue(v);
    ValuesConcat([k, o], [p]);
    RenderedConcat([k, o], [p], n);
    PlaceholderText(v, n);
  }

  lemma {:induction false} ConditionIs(f: SqlFragment, n: nat)
    ensures Rendered(ConditionText(f), n) == "(" + Shown(f, n) + ")" && Values(ConditionText(f)) == Values(Meaning(f))
  {
    hide Rendered, Values, Meaning;
    RenderedConcat([Fixed("(")] + Meaning(f), [Fixed(")")], n);
    RenderedConcat([Fixed("(")], Meaning(f), n);
    FixedText("(", n);
    FixedText(")", n + |Values([Fixed("(")] + Meaning(f))|);
    Around([Fixed("(")], Meaning(f), [Fixed(")")]);
  }

  lemma {:induction false} ComparisonText(k: string)
    ensures " WHERE " + ("(" + (k + " > " + ("$" + "1")) + ")") == " WHERE (" + k + " > $1)"
    ensures " WHERE " + ("(" + (k + " < " + ("$" + "1")) + ")") == " WHERE (" + k + " < $1)"
  {
    assert " WHERE " + "(" == " WHERE (";
    assert " > " + ("$" + "1") + ")" == " > $1)" && " < " + ("$" + "1") + ")" == " < $1)";
  }

  lemma {:induction false} KeysetText(key: string, cursor: Option<PgValue>, backward: bool)
    ensures var clause := Clause(" WHERE ", " AND ", Map(ConditionText, KeysetConditions(key, cursor, backward)));
      && Rendered(clause, 1) == KeysetPart(key, cursor, backward)
      && Values(clause) == if cursor.None? then [] else [cursor.value]
  {
    hide Rendered, Values, Quoted, Meaning, Shown, ConditionText, Digits, Clause;
    var fs := KeysetConditions(key, cursor, backward);
    if cursor.None? {
      assert Map(ConditionText, fs) == [];
      NoClause(" WHERE ", " AND ", 1);
    } else {
      assert Map(ConditionText, fs) == [ConditionText(fs[0])];
      hide Map, KeysetConditions;
      var operator := if backward then " < " else " > ";
      assert fs[0] == Compared(key, operator, cursor.value);
      OneItem(" WHERE ", " AND ", ConditionText(fs[0]), 1);
      ConditionIs(fs[0], 1);
      ComparedText(key, operator, cursor.value, 1);
      SmallNumbers();
      ComparisonText(Quoted(key));
    }
  }

  lemma {:induction false} KeyOrderText(key: string, backward: bool, n: nat)
    ensures var clause := Clause(" ORDER BY ", ", ", Map(OrderText, [OrderByItem(Ident(key), !backward)]));
      Rendered(clause, n) == OrderPart(key, backward) && Values(clause) == []
  {
    hide Rendered, Values, Quoted, Clause;
    var o := OrderByItem(Ident(key), !backward);
    var d := if backward then " DESC" else " ASC";
    assert Map(OrderText, [o]) == [OrderText(o)];
    OneItem(" ORDER BY ", ", ", OrderText(o), n);
    assert OrderText(o) == [Fixed(Quoted(key))] + [Fixed(d)];
    RenderedConcat([Fixed(Quoted(key))], [Fixed(d)], n);
    ValuesConcat([Fixed(Quoted(key))], [Fixed(d)]);
    FixedText(Quoted(key), n);
    FixedText(d, n);
    assert " ORDER BY " + (Quoted(key) + d) == " ORDER BY " + Quoted(key) + d;
  }

  lemma {:induction false} LimitText(value: I64, cursor: Option<PgValue>, n: nat)
    requires n == if cursor.None? then 1 else 2
    ensures Rendered(NumberText(" LIMIT ", Some(value)), n) == LimitPart(cursor)
    ensures Rendered(NumberText(" OFFSET ", None), n + 1) == ""
    ensures Values(NumberText(" LIMIT ", Some(value))) == [Int(value)] && Values(NumberText(" OFFSET ", None)) == []
  {
    NumberTextValues(" LIMIT ", Some(value));
    NumberTextValues(" OFFSET ", None);
    RenderedNone(n + 1);
    SmallNumbers();
    hide Rendered, Values, Digits;
    RenderedCons(Fixed(" LIMIT "), [Bound(Int(value))], n);
    PlaceholderText(Int(value), n);
    assert [Fixed(" LIMIT ")] + [Bound(Int(value))] == NumberText(" LIMIT ", Some(value));
  }

  /** The clauses of a page's statement, one after the other. */
  lemma {:induction false} PagingClauses(schema: string, table: string, key: string, cursor: Option<PgValue>,
                                         limit: I64,
                                         backward: bool)
    ensures var q := ConnectionQuery(schema, table, key, cursor, [], limit, backward);
      && Rendered(SelectText(q), 1) ==
           FromPart(schema, table) + KeysetPart(key, cursor, backward) + OrderPart(key, backward) + LimitPart(cursor)
      && Values(SelectText(q)) ==
           (if cursor.None? then [Int(Wrapped(limit + 1))] else [cursor.value, Int(Wrapped(limit + 1))])
  {
    hide Rendered, Values, Clause, NumberText, HeadText, Concat, Wrapped, FromPart, KeysetPart, OrderPart, LimitPart,
      Ident,
      Raw, Quoted;
    var q := ConnectionQuery(schema, table, key, cursor, [], limit, backward);
    var fs := KeysetConditions(key, cursor, backward);
    assert fs + [] == fs;
    hide KeysetConditions;
    var joins := Concat(Map(JoinText, q.joins));
    NoJoinText();
    assert Map(JoinText, q.joins) == [];
    hide Map;
    var n := if cursor.None? then 1 else 2;
    var conds := Clause(" WHERE ", " AND ", Map(ConditionText, fs));
    var order := Clause(" ORDER BY ", ", ", Map(OrderText, q.orderBy));
    var limits, offsets := NumberText(" LIMIT ", q.limit), NumberText(" OFFSET ", q.offset);
    StarHeadText(q);
    KeysetText(key, cursor, backward);
    KeyOrderText(key, backward, n);
    LimitText(Wrapped(limit + 1), cursor, n);
    OnlyLimited(HeadText(q), joins, conds, order, limits, offsets);
    assert SelectText(q) == HeadText(q) + joins + conds + order + limits + offsets;
  }

  /** A statement whose values are at most that of its conditions and that of its limit. */
  lemma {:induction false} OnlyLimited(a: seq<Chunk>, b: seq<Chunk>, c: seq<Chunk>, d: seq<Chunk>, e: seq<Chunk>,
                                       f: seq<Chunk>)
    requires b == [] && Values(a) == [] && Values(d) == [] && |Values(e)| == 1 && Values(f) == []
    requires Rendered(f, 2 + |Values(c)|) == ""
    ensures Rendered(a + b + c + d + e + f, 1) ==
      Rendered(a, 1) + Rendered(c, 1) + Rendered(d, 1 + |Values(c)|) + Rendered(e, 1 + |Values(c)|)
    ensures Values(a + b + c + d + e + f) == Values(c) + Values(e)
  {
    NoJoinText();
    hide Rendered, Values;
    RenderedSix(a, b, c, d, e, f);
    ConcatSix(a, b, c, d, e, f);
    assert Rendered(a, 1) + "" == Rendered(a, 1);
  }

  lemma {:induction false} FirstPageText(from: string, k: string)
    ensures from + "" + (" ORDER BY " + k + " ASC") + " LIMIT $1" == from + " ORDER BY " + k + " ASC LIMIT $1"
    ensures from + "" + (" ORDER BY " + k + " DESC") + " LIMIT $1" == from + " ORDER BY " + k + " DESC LIMIT $1"
  {
    assert " ASC" + " LIMIT $1" == " ASC LIMIT $1" && " DESC" + " LIMIT $1" == " DESC LIMIT $1";
  }

  lemma {:induction false} NextPageText(from: string, k: string)
    ensures from + (" WHERE (" + k + " > $1)") + (" ORDER BY " + k + " ASC") + " LIMIT $2" ==
      from + " WHERE (" + k + " > $1) ORDER BY " + k + " ASC LIMIT $2"
  {
    assert " > $1)" + " ORDER BY " == " > $1) ORDER BY " && " ASC" + " LIMIT $2" == " ASC LIMIT $2";
  }

  lemma {:induction false} PreviousPageText(from: string, k: string)
    ensures from + (" WHERE (" + k + " < $1)") + (" ORDER BY " + k + " DESC") + " LIMIT $2" ==
      from + " WHERE (" + k + " < $1) ORDER BY " + k + " DESC LIMIT $2"
  {
    assert " < $1)" + " ORDER BY " == " < $1) ORDER BY " && " DESC" + " LIMIT $2" == " DESC LIMIT $2";
  }

  /** The text and the parameters of a page's statement, for every schema, table and key: forward past a cursor it
      is `SELECT * FROM "s"."t" WHERE ("k" > $1) ORDER BY "k" ASC LIMIT $2`, backward `<` and `DESC`. */
  lemma {:induction false} PagingText(schema: string, table: string, key: string, cursor: Option<PgValue>, limit: I64,
                                      backward: bool)
    ensures var q := ConnectionQuery(schema, table, key, cursor, [], limit, backward);
      var (from, k) := ("SELECT * FROM " + (Quoted(schema) + "." + Quoted(table)), Quoted(key));
      && Rendered(SelectText(q), 1) ==
           (if cursor.None? && !backward then from + " ORDER BY " + k + " ASC LIMIT $1"
            else if cursor.None? then from + " ORDER BY " + k + " DESC LIMIT $1"
            else if !backward then from + " WHERE (" + k + " > $1) ORDER BY " + k + " ASC LIMIT $2"
            else from + " WHERE (" + k + " < $1) ORDER BY " + k + " DESC LIMIT $2")
      && Values(SelectText(q)) ==
           (if cursor.None? then [Int(Wrapped(limit + 1))] else [cursor.value, Int(Wrapped(limit + 1))])
  {
    hide Rendered, Values, Quoted, Wrapped, SelectText, ConnectionQuery;
    PagingClauses(schema, table, key, cursor, limit, backward);
    var from, k := FromPart(schema, table), Quoted(key);
    if cursor.None? {
      FirstPageText(from, k);
    } else if backward {
      PreviousPageText(from, k);
    } else {
      NextPageText(from, k);
    }
  }

  lemma {:induction false} NoJoinText()
    ensures Concat<Chunk>([]) == [] && Rendered([], 1) == "" && Values([]) == []
  {
  }

  // ----- what a database makes of it -----

  /** A comparison of the key with a parameter; `other` gives the meaning of all other conditions. */
  function Condition<K, V>(less: (K, K) -> bool, key: string, read: PgValue -> Option<K>,
                           other: string -> Row<K, V> -> bool, params: seq<PgValue>, text: string): Row<K, V> -> bool {
    var ws := Words(text);
    if |ws| != 3 || ReadIdentifier(ws[0]) != Some(key) || ReadParam(ws[2], params).None? then other(text) else
      var bound := read(ReadParam(ws[2], params).value);
      if bound.None? then other(text)
      else if ws[1] == ">" then (row: Row<K, V>) => less(bound.value, row.key)
      else if ws[1] == "<" then (row: Row<K, V>) => less(row.key, bound.value)
      else other(text)
  }

  function Conditions<K, V>(less: (K, K) -> bool, key: string, read: PgValue -> Option<K>,
                            other: string -> Row<K, V> -> bool, params: seq<PgValue>, texts: seq<string>)
    : seq<Row<K, V> -> bool>
  {
    seq(|texts|, i requires 0 <= i < |texts| => Condition(less, key, read, other, params, texts[i]))
  }

  /** The rows of `table`, which is `"schema"."name"`, that a statement ordered by the key asks for. */
  function Evaluate<K, V>(less: (K, K) -> bool, schema: string, name: string, key: string, read: PgValue -> Option<K>,
                          other: string -> Row<K, V> -> bool, table: seq<Row<K, V>>, sql: string, params: seq<PgValue>)
    : Option<seq<Row<K, V>>>
  {
    match ReadStatement(sql, params)
    case None => None
    case Some(st) =>
      if st.columns != [Item("*", None)] || st.schema != schema || st.table != name || st.joins != [] then None
      else if |st.order| != 1 || ReadIdentifier(st.order[0].expr) != Some(key) then None
      else if st.offset.Some? || st.limit.None? || !st.limit.value.Int? || st.limit.value.n < 0 then None
      else
        var conds := Conditions(less, key, read, other, params, st.conditions);
        Some(Answer(less, table, Query(conds, st.order[0].ascending, st.limit.value.n)))
  }

  // ----- the rows of a page -----

  lemma {:induction false} ComparedIsBalanced(column: string, operator: string, v: PgValue)
    requires Plain(operator)
    ensures IsBalanced(Compared(column, operator, v))
  {
    hide Balanced, Shown, Quoted, Digits;
    forall n ensures Balanced(Shown(Compared(column, operator, v), n)) {
      ComparedText(column, operator, v, n);
      QuotedIsBalanced(column);
      PlainIsBalanced(operator);
      DigitsAreInert(n);
      PlainIsBalanced("$" + Digits(n));
      BalancedConcat(Quoted(column), operator);
      BalancedConcat(Quoted(column) + operator, "$" + Digits(n));
    }
  }

  lemma {:induction false} ComparedWords(key: string, word: string, n: nat)
    requires Inert(word)
    ensures Words(Quoted(key) + (" " + word + " ") + ("$" + Digits(n))) == [Quoted(key), word, "$" + Digits(n)]
  {
    hide Words, Quoted, Digits;
    var k, p := Quoted(key), "$" + Digits(n);
    QuotedIsWord(key);
    DigitsAreInert(n);
    TwoWords(word, p);
    WordsOver(k, word + (" " + p));
    assert k + (" " + word + " ") + p == k + (" " + (word + (" " + p)));
  }

  /** The statement of a page can be read, whatever its other conditions, as long as they are balanced. */
  lemma {:induction false} QueryIsReadable(schema: string, table: string, key: string, cursor: Option<PgValue>,
                                           conds: seq<SqlFragment>, limit: I64, backward: bool)
    requires forall i :: 0 <= i < |conds| ==> IsBalanced(conds[i])
    ensures Readable(ConnectionQuery(schema, table, key, cursor, conds, limit, backward))
  {
    hide IsBalanced, Keeps, Commaless, Compared, Raw, Ident;
    StarKeeps();
    IdentKeeps(key, AfterOrder);
    if cursor.Some? {
      ComparedIsBalanced(key, if backward then " < " else " > ", cursor.value);
    }
  }

  lemma {:induction false} GivenStar()
    ensures var columns := [ColumnExpr(Raw("*"), None)];
      && GivenColumns(columns, 1) == [Item("*", None)]
      && Concat(Map((c: ColumnExpr) => c.expr.params, columns)) == []
      && Concat(Map((j: JoinClause) => j.table.params + j.on.params, [])) == []
  {
    StarKeeps();
    hide Keeps, Commaless, Shown, Rendered;
    var columns := [ColumnExpr(Raw("*"), None)];
    assert columns[1..] == [] && GivenColumns([], 1) == [];
    var params := Map((c: ColumnExpr) => c.expr.params, columns);
    assert params == [[]] && params[..0] == [];
  }

  lemma {:induction false} GivenKeyOrder(key: string, ascending: bool, n: nat)
    ensures GivenOrder([OrderByItem(Ident(key), ascending)], n) == [Sorted(Quoted(key), ascending)]
  {
    hide Quoted, Rendered;
    IdentKeeps(key, {});
    hide Keeps, Commaless, IsBalanced, Shown;
    var order := [OrderByItem(Ident(key), ascending)];
    assert order[1..] == [] && GivenOrder([], n) == [];
  }

  lemma {:induction false} GivenQuery(schema: string, table: string, key: string, cursor: Option<PgValue>,
                                      conds: seq<SqlFragment>, limit: I64, backward: bool)
    ensures var q := ConnectionQuery(schema, table, key, cursor, conds, limit, backward);
      Given(q) == Statement([Item("*", None)], schema, table, None, [], GivenConditions(q.conditions, 1),
                            [Sorted(Quoted(key), !backward)], Some(Int(Wrapped(limit + 1))), None)
  {
    hide GivenConditions, GivenColumns, GivenOrder, Quoted, Wrapped, KeysetConditions, Concat, Map, Ident, Raw;
    var q := ConnectionQuery(schema, table, key, cursor, conds, limit, backward);
    GivenStar();
    GivenKeyOrder(key, !backward, 1 + |Concat(Map((f: SqlFragment) => f.params, q.conditions))|);
  }

  lemma {:induction false} ConditionsLength(fs: seq<SqlFragment>, n: nat)
    ensures |GivenConditions(fs, n)| == |fs|
    ensures fs != [] ==> GivenConditions(fs, n)[0] == Shown(fs[0], n)
  {
    if fs != [] {
      ConditionsLength(fs[1..], n + |fs[0].params|);
    }
  }

  /** The value of the cursor is the first parameter. */
  lemma {:induction false} CursorIsFirst(schema: string, table: string, key: string, cursor: Option<PgValue>,
                                         conds: seq<SqlFragment>, limit: I64, backward: bool)
    requires cursor.Some?
    ensures var params := Values(SelectText(ConnectionQuery(schema, table, key, cursor, conds, limit, backward)));
      params != [] && params[0] == cursor.value
  {
    var q := ConnectionQuery(schema, table, key, cursor, conds, limit, backward);
    SelectValues(q);
    hide Values, SelectText;
    var columns := Map((c: ColumnExpr) => c.expr.params, q.columns);
    assert columns == [[]] && columns[..0] == [];
    assert Concat(columns) == [];
    assert Concat(Map((j: JoinClause) => j.table.params + j.on.params, q.joins)) == [];
    var values := Map((f: SqlFragment) => f.params, q.conditions);
    ConcatFront(values);
    assert values[0] == [cursor.value];
  }

  /** The keyset condition of the statement says that a row lies past the cursor. */
  lemma {:induction false} KeysetMeans<K, V>(less: (K, K) -> bool, key: string, read: PgValue -> Option<K>,
                                             other: string -> Row<K, V> -> bool, params: seq<PgValue>, cursor: PgValue,
                                             backward: bool, row: Row<K, V>)
    requires params != [] && params[0] == cursor && read(cursor).Some?
    ensures var text := Shown(Compared(key, if backward then " < " else " > ", cursor), 1);
      var k := read(cursor).value;
      Condition(less, key, read, other, params, text)(row) == if backward then less(row.key, k) else less(k, row.key)
  {
    hide Shown, Quoted, Digits, Words, ReadIdentifier, ReadParam;
    var word := if backward then "<" else ">";
    assert (if backward then " < " else " > ") == " " + word + " ";
    ComparedText(key, " " + word + " ", cursor, 1);
    ComparedWords(key, word, 1);
    ReadsIdentifier(key);
    ReadsParam(1, params);
  }

  // ----- the theorem -----

  /** The texts of `conds`, which stand last in the statement, mean `preds`. */
  ghost predicate Means<K(!new), V(!new)>(less: (K, K) -> bool, key: string, read: PgValue -> Option<K>,
                                          other: string -> Row<K, V> -> bool, q: SqlBuilder,
                                          preds: seq<Row<K, V> -> bool>) {
    var params, texts := Values(SelectText(q)), GivenConditions(q.conditions, 1);
    |preds| <= |texts| &&
    forall i, row :: 0 <= i < |preds| ==>
      Condition(less, key, read, other, params, texts[|texts|-|preds|+i])(row) == preds[i](row)
  }

  lemma {:induction false} AllHoldSame<K(!new), V(!new)>(a: seq<Row<K, V> -> bool>, b: seq<Row<K, V> -> bool>,
                                                         row: Row<K, V>)
    requires |a| == |b| && forall i :: 0 <= i < |a| ==> a[i](row) == b[i](row)
    ensures AllHold(a, row) == AllHold(b, row)
  {
    if a != [] {
      AllHoldSame(a[1..], b[1..], row);
    }
  }

  lemma {:induction false} WhereSame<K(!new), V(!new)>(a: seq<Row<K, V> -> bool>, b: seq<Row<K, V> -> bool>,
                                                       rows: seq<Row<K, V>>)
    requires |a| == |b| && forall i, row :: 0 <= i < |a| ==> a[i](row) == b[i](row)
    ensures Where(a, rows) == Where(b, rows)
  {
    forall row | row in rows ensures AllHold(a, row) == AllHold(b, row) {
      AllHoldSame(a, b, row);
    }
    FilterSame(row => AllHold(a, row), row => AllHold(b, row), rows);
  }

  /** The database's answer to the text is what the page is made from: from the window of the rows past the cursor
      that meet the conditions, the next `limit + 1` in paging direction; a limit below zero is refused. */
  lemma {:induction false} QueryFetches<K(!new), V(!new)>(
    less: (K, K) -> bool, codec: Codec<K>, table: seq<Row<K, V>>, args: Args<K, V>, schema: string, name: string,
    key: string, read: PgValue -> Option<K>, other: string -> Row<K, V> -> bool, cursor: Option<PgValue>,
    conds: seq<SqlFragment>, q: SqlBuilder)
    requires cursor.Some? <==> CursorKey(codec, args).Some?
    requires cursor.Some? ==> read(cursor.value) == CursorKey(codec, args)
    requires |conds| == |args.conds| && forall i :: 0 <= i < |conds| ==> IsBalanced(conds[i])
    requires q == ConnectionQuery(schema, name, key, cursor, conds, LimitOf(args), IsBackward(args))
    requires Means(less, key, read, other, q, args.conds)
    ensures var n, window := Wrapped(LimitOf(args) + 1), Window(less, codec, table, args);
      Evaluate(less, schema, name, key, read, other, table, Rendered(SelectText(q), 1), Values(SelectText(q))) ==
      if n < 0 then None else Some(Prefix(if IsBackward(args) then Reverse(window) else window, n))
  {
    hide Rendered, Values, SelectText, GivenConditions, Conditions, ReadStatement, IsBalanced, Quoted, ConnectionQuery,
      Window, InKeyOrder, Where, Wrapped, Readable, Given, ReadIdentifier, Means, CursorKey;
    var limit, backward := LimitOf(args), IsBackward(args);
    var params, texts := Values(SelectText(q)), GivenConditions(q.conditions, 1);
    QueryIsReadable(schema, name, key, cursor, conds, limit, backward);
    SelectReadsBack(q);
    GivenQuery(schema, name, key, cursor, conds, limit, backward);
    ReadsIdentifier(key);
    EvaluatedWindow(less, codec, table, args, schema, name, key, read, other, cursor, conds, q);
  }

  /** The first condition of the statement is the keyset condition, if there is a cursor. */
  lemma {:induction false} KeysetIs<K(!new), V(!new)>(
    less: (K, K) -> bool, codec: Codec<K>, args: Args<K, V>, schema: string, name: string, key: string,
    read: PgValue -> Option<K>, other: string -> Row<K, V> -> bool, cursor: Option<PgValue>, conds: seq<SqlFragment>,
    q: SqlBuilder)
    requires cursor.Some? <==> CursorKey(codec, args).Some?
    requires cursor.Some? ==> read(cursor.value) == CursorKey(codec, args)
    requires q == ConnectionQuery(schema, name, key, cursor, conds, LimitOf(args), IsBackward(args))
    ensures var evaluated :=
      Conditions(less, key, read, other, Values(SelectText(q)), GivenConditions(q.conditions, 1));
      var k := if cursor.None? then 0 else 1;
      |evaluated| == k + |conds| && IsKeyset(less, codec, args, evaluated[..k])
  {
    hide Rendered, Values, SelectText, GivenConditions, Condition, Quoted, Shown, Compared, Wrapped;
    var backward := IsBackward(args);
    var evaluated := Conditions(less, key, read, other, Values(SelectText(q)), GivenConditions(q.conditions, 1));
    ConditionsLength(q.conditions, 1);
    if cursor.Some? {
      CursorIsFirst(schema, name, key, cursor, conds, LimitOf(args), backward);
      assert q.conditions[0] == Compared(key, if backward then " < " else " > ", cursor.value);
      forall row ensures evaluated[0](row) == IsPast(less, codec, args, row) {
        KeysetMeans(less, key, read, other, Values(SelectText(q)), cursor.value, backward, row);
      }
    }
  }

  /** The conditions of the statement select the window. */
  lemma {:induction false} EvaluatedWindow<K(!new), V(!new)>(
    less: (K, K) -> bool, codec: Codec<K>, table: seq<Row<K, V>>, args: Args<K, V>, schema: string, name: string,
    key: string, read: PgValue -> Option<K>, other: string -> Row<K, V> -> bool, cursor: Option<PgValue>,
    conds: seq<SqlFragment>, q: SqlBuilder)
    requires cursor.Some? <==> CursorKey(codec, args).Some?
    requires cursor.Some? ==> read(cursor.value) == CursorKey(codec, args)
    requires |conds| == |args.conds|
    requires q == ConnectionQuery(schema, name, key, cursor, conds, LimitOf(args), IsBackward(args))
    requires Means(less, key, read, other, q, args.conds)
    ensures var evaluated :=
      Conditions(less, key, read, other, Values(SelectText(q)), GivenConditions(q.conditions, 1));
      Where(evaluated, InKeyOrder(less, table)) == Window(less, codec, table, args)
  {
    hide Values, SelectText, GivenConditions, Condition, Window, InKeyOrder, Where, ConnectionQuery, IsKeyset,
      CursorKey;
    var evaluated := Conditions(less, key, read, other, Values(SelectText(q)), GivenConditions(q.conditions, 1));
    KeysetIs(less, codec, args, schema, name, key, read, other, cursor, conds, q);
    var keyset := evaluated[..if cursor.None? then 0 else 1];
    WindowIsFound(less, codec, table, args, keyset);
    var same := keyset + args.conds;
    forall i, row | 0 <= i < |evaluated| ensures evaluated[i](row) == same[i](row) {
    }
    WhereSame(evaluated, same, InKeyOrder(less, table));
  }
}
