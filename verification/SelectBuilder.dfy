/** The SELECT builder (magna-sql `builder.rs`): its clauses, their order, and the order of the values
    bound in them. */
module SelectBuilder {
  import opened Basics
  import opened Decimal
  import opened Sql

  datatype JoinType = Inner | Left | Right | Full

  datatype ColumnExpr = ColumnExpr(expr: SqlFragment, alias: Option<string>)

  datatype JoinClause = JoinClause(joinType: JoinType, table: SqlFragment, alias: Option<string>, on: SqlFragment)

  datatype OrderByItem = OrderByItem(column: SqlFragment, ascending: bool)

  datatype SqlBuilder = SqlBuilder(
    schema: string, table: string, tableAlias: Option<string>, columns: seq<ColumnExpr>, joins: seq<JoinClause>,
    conditions: seq<SqlFragment>, orderBy: seq<OrderByItem>, limit: Option<I64>, offset: Option<I64>)

  function Keyword(t: JoinType): string {
    match t
    case Inner => "INNER JOIN"
    case Left => "LEFT JOIN"
    case Right => "RIGHT JOIN"
    case Full => "FULL JOIN"
  }

  // ----- the statement, clause by clause -----

  function Concat<T>(items: seq<seq<T>>): seq<T> {
    if items == [] then [] else Concat(items[..|items|-1]) + items[|items|-1]
  }

  /** Items with a separator between them. */
  function Separated(separator: string, items: seq<seq<Chunk>>): seq<Chunk> {
    if items == [] then [] else
      Separated(separator, items[..|items|-1]) +
      (if |items| > 1 then [Fixed(separator)] else []) + items[|items|-1]
  }

  function AliasText(alias: Option<string>): seq<Chunk> {
    if alias.None? then [] else [Fixed(" AS "), Fixed(Quoted(alias.value))]
  }

  function ColumnText(c: ColumnExpr): seq<Chunk> {
    Meaning(c.expr) + AliasText(c.alias)
  }

  function JoinText(j: JoinClause): seq<Chunk> {
    [Fixed(" "), Fixed(Keyword(j.joinType)), Fixed(" ")] + Meaning(j.table) + AliasText(j.alias) + [Fixed(" ON ")] +
      Meaning(j.on)
  }

  function ConditionText(f: SqlFragment): seq<Chunk> {
    [Fixed("(")] + Meaning(f) + [Fixed(")")]
  }

  function OrderText(o: OrderByItem): seq<Chunk> {
    Meaning(o.column) + [Fixed(if o.ascending then " ASC" else " DESC")]
  }

  function Map<S, T>(f: S -> T, items: seq<S>): seq<T> {
    seq(|items|, i requires 0 <= i < |items| => f(items[i]))
  }

  function Clause(keyword: string, separator: string, items: seq<seq<Chunk>>): seq<Chunk> {
    if items == [] then [] else [Fixed(keyword)] + Separated(separator, items)
  }

  function NumberText(keyword: string, n: Option<I64>): seq<Chunk> {
    if n.None? then [] else [Fixed(keyword), Bound(Int(n.value))]
  }

  function HeadText(b: SqlBuilder): seq<Chunk> {
    [Fixed("SELECT ")] +
    (if b.columns == [] then [Fixed("*")] else Separated(", ", Map(ColumnText, b.columns))) +
    [Fixed(" FROM ")] + [Fixed(Quoted(b.schema)), Fixed("."), Fixed(Quoted(b.table))] + AliasText(b.tableAlias)
  }

  function SelectText(b: SqlBuilder): seq<Chunk> {
    HeadText(b) +
    Concat(Map(JoinText, b.joins)) +
    Clause(" WHERE ", " AND ", Map(ConditionText, b.conditions)) +
    Clause(" ORDER BY ", ", ", Map(OrderText, b.orderBy)) +
    NumberText(" LIMIT ", b.limit) + NumberText(" OFFSET ", b.offset)
  }

  method PushAlias(f: SqlFragment, alias: Option<string>) returns (result: SqlFragment)
    ensures Meaning(result) == Meaning(f) + AliasText(alias)
  {
    hide Meaning;
    result := f;
    if alias.Some? {
      result := PushRaw(result, " AS ");
      result := Append(result, Ident(alias.value));
    }
  }

  function Separator(separator: string, i: nat): seq<Chunk> {
    if i > 0 then [Fixed(separator)] else []
  }

  lemma {:induction false} SeparatedStep(separator: string, items: seq<seq<Chunk>>, i: nat)
    requires i < |items|
    ensures Separated(separator, items[..i+1]) ==
      Separated(separator, items[..i]) + (Separator(separator, i) + items[i])
  {
    assert items[..i+1][..i] == items[..i];
  }

  /** One round of a clause's loop: a separator and an item. */
  lemma {:induction false} ClauseStep(separator: string, items: seq<seq<Chunk>>, i: nat, start: seq<Chunk>,
                                      m0: seq<Chunk>, m1: seq<Chunk>, m2: seq<Chunk>)
    requires i < |items| && m0 == start + Separated(separator, items[..i])
    requires m1 == m0 + Separator(separator, i) && m2 == m1 + items[i]
    ensures m2 == start + Separated(separator, items[..i+1])
  {
    SeparatedStep(separator, items, i);
    hide Separated, Separator;
    Associative(m0, Separator(separator, i), items[i]);
    Associative(start, Separated(separator, items[..i]), Separator(separator, i) + items[i]);
  }

  method PushSeparator(f: SqlFragment, separator: string, i: nat) returns (result: SqlFragment)
    ensures Meaning(result) == Meaning(f) + Separator(separator, i)
  {
    hide Meaning;
    result := f;
    if i > 0 {
      result := PushRaw(result, separator);
    }
  }

  method PushColumn(f: SqlFragment, c: ColumnExpr) returns (result: SqlFragment)
    ensures Meaning(result) == Meaning(f) + ColumnText(c)
  {
    hide Meaning, AliasText;
    result := Append(f, c.expr);
    result := PushAlias(result, c.alias);
  }

  method BuildColumns(b: SqlBuilder, f: SqlFragment) returns (result: SqlFragment)
    ensures Meaning(result) == Meaning(f) + if b.columns ==
      [] then [Fixed("*")] else Separated(", ", Map(ColumnText, b.columns))
  {
    hide Meaning, ColumnText, Separator;
    result := f;
    if b.columns == [] {
      result := PushRaw(result, "*");
    } else {
      ghost var items := Map(ColumnText, b.columns);
      assert Separated(", ", items[..0]) == [];
      hide Separated;
      for i := 0 to |b.columns|
        invariant Meaning(result) == Meaning(f) + Separated(", ", items[..i])
      {
        ghost var m0 := Meaning(result);
        result := PushSeparator(result, ", ", i);
        ghost var m1 := Meaning(result);
        result := PushColumn(result, b.columns[i]);
        ClauseStep(", ", items, i, Meaning(f), m0, m1, Meaning(result));
      }
      assert items[..|b.columns|] == items;
    }
  }

  method PushJoin(f: SqlFragment, j: JoinClause) returns (result: SqlFragment)
    ensures Meaning(result) == Meaning(f) + JoinText(j)
  {
    hide Meaning, AliasText;
    result := PushRaw(f, " ");
    result := PushRaw(result, Keyword(j.joinType));
    result := PushRaw(result, " ");
    assert Meaning(result) == Meaning(f) + [Fixed(" "), Fixed(Keyword(j.joinType)), Fixed(" ")];
    result := Append(result, j.table);
    result := PushAlias(result, j.alias);
    result := PushRaw(result, " ON ");
    result := Append(result, j.on);
  }

  method BuildJoins(b: SqlBuilder, f: SqlFragment) returns (result: SqlFragment)
    ensures Meaning(result) == Meaning(f) + Concat(Map(JoinText, b.joins))
  {
    hide Meaning, JoinText;
    result := f;
    ghost var items := Map(JoinText, b.joins);
    for i := 0 to |b.joins|
      invariant Meaning(result) == Meaning(f) + Concat(items[..i])
    {
      assert items[..i+1][..i] == items[..i] && items[i] == JoinText(b.joins[i]);
      result := PushJoin(result, b.joins[i]);
    }
    assert items[..|b.joins|] == items;
  }

  method PushCondition(f: SqlFragment, cond: SqlFragment) returns (result: SqlFragment)
    ensures Meaning(result) == Meaning(f) + ConditionText(cond)
  {
    hide Meaning;
    result := PushRaw(f, "(");
    result := Append(result, cond);
    result := PushRaw(result, ")");
  }

  method BuildConditions(b: SqlBuilder, f: SqlFragment) returns (result: SqlFragment)
    ensures Meaning(result) == Meaning(f) + Clause(" WHERE ", " AND ", Map(ConditionText, b.conditions))
  {
    result := f;
    ghost var items := Map(ConditionText, b.conditions);
    assert Separated(" AND ", items[..0]) == [];
    hide Meaning, Separator, Separated, ConditionText;
    if b.conditions != [] {
      result := PushRaw(result, " WHERE ");
      ghost var start := Meaning(result);
      for i := 0 to |b.conditions|
        invariant Meaning(result) == start + Separated(" AND ", items[..i])
      {
        ghost var m0 := Meaning(result);
        result := PushSeparator(result, " AND ", i);
        ghost var m1 := Meaning(result);
        result := PushCondition(result, b.conditions[i]);
        ClauseStep(" AND ", items, i, start, m0, m1, Meaning(result));
      }
      assert items[..|b.conditions|] == items;
    }
  }

  method PushOrder(f: SqlFragment, item: OrderByItem) returns (result: SqlFragment)
    ensures Meaning(result) == Meaning(f) + OrderText(item)
  {
    hide Meaning;
    result := Append(f, item.column);
    if item.ascending {
      result := PushRaw(result, " ASC");
    } else {
      result := PushRaw(result, " DESC");
    }
  }

  method BuildOrder(b: SqlBuilder, f: SqlFragment) returns (result: SqlFragment)
    ensures Meaning(result) == Meaning(f) + Clause(" ORDER BY ", ", ", Map(OrderText, b.orderBy))
  {
    result := f;
    ghost var items := Map(OrderText, b.orderBy);
    assert Separated(", ", items[..0]) == [];
    hide Meaning, Separator, Separated, OrderText;
    if b.orderBy != [] {
      result := PushRaw(result, " ORDER BY ");
      ghost var start := Meaning(result);
      for i := 0 to |b.orderBy|
        invariant Meaning(result) == start + Separated(", ", items[..i])
      {
        ghost var m0 := Meaning(result);
        result := PushSeparator(result, ", ", i);
        ghost var m1 := Meaning(result);
        result := PushOrder(result, b.orderBy[i]);
        ClauseStep(", ", items, i, start, m0, m1, Meaning(result));
      }
      assert items[..|b.orderBy|] == items;
    }
  }

  method BuildNumber(f: SqlFragment, keyword: string, n: Option<I64>) returns (result: SqlFragment)
    ensures Meaning(result) == Meaning(f) + NumberText(keyword, n)
  {
    hide Meaning;
    result := f;
    if n.Some? {
      result := PushRaw(result, keyword);
      result := Append(result, ParamOf(Int(n.value)));
    }
  }

  method BuildHead(b: SqlBuilder) returns (result: SqlFragment)
    ensures Meaning(result) == HeadText(b)
  {
    hide Meaning, Separated, Map, AliasText, Quoted;
    result := PushRaw(Empty(), "SELECT ");
    assert Meaning(result) == [Fixed("SELECT ")];
    result := BuildColumns(b, result);
    result := PushRaw(result, " FROM ");
    result := Append(result, QualifiedIdent(b.schema, b.table));
    result := PushAlias(result, b.tableAlias);
  }

  method BuildSelect(b: SqlBuilder) returns (result: SqlFragment)
    ensures Meaning(result) == SelectText(b)
  {
    hide Meaning, Concat, Map, Clause, NumberText, HeadText;
    result := BuildHead(b);
    result := BuildJoins(b, result);
    result := BuildConditions(b, result);
    result := BuildOrder(b, result);
    result := BuildNumber(result, " LIMIT ", b.limit);
    result := BuildNumber(result, " OFFSET ", b.offset);
  }

  // ----- the order of the bound values -----

  function NumberValues(n: Option<I64>): seq<PgValue> {
    if n.None? then [] else [Int(n.value)]
  }

  /** All values given to the builder, in the order of the clauses. */
  function GivenValues(b: SqlBuilder): seq<PgValue> {
    Concat(Map((c: ColumnExpr) => c.expr.params, b.columns)) +
    Concat(Map((j: JoinClause) => j.table.params + j.on.params, b.joins)) +
    Concat(Map((f: SqlFragment) => f.params, b.conditions)) +
    Concat(Map((o: OrderByItem) => o.column.params, b.orderBy)) +
    NumberValues(b.limit) + NumberValues(b.offset)
  }

  lemma {:induction false} ConcatValues(items: seq<seq<Chunk>>, values: seq<seq<PgValue>>)
    requires |items| == |values| && forall i :: 0 <= i < |items| ==> Values(items[i]) == values[i]
    ensures Values(Concat(items)) == Concat(values)
  {
    hide Values;
    if items != [] {
      var n := |items| - 1;
      ConcatValues(items[..n], values[..n]);
      ValuesConcat(Concat(items[..n]), items[n]);
    } else {
      assert Concat(items) == [] && Concat(values) == [];
      NoValues([]);
    }
  }

  lemma {:induction false} NoValues(texts: seq<Chunk>)
    requires forall t :: t in texts ==> t.Fixed?
    ensures Values(texts) == []
  {
    if texts != [] {
      assert texts[0] in texts;
      NoValues(texts[1..]);
    }
  }

  lemma {:induction false} SeparatedValues(separator: string, items: seq<seq<Chunk>>)
    ensures Values(Separated(separator, items)) == Values(Concat(items))
  {
    hide Values;
    if items != [] {
      var n := |items| - 1;
      SeparatedValues(separator, items[..n]);
      var mid := if |items| > 1 then [Fixed(separator)] else [];
      NoValues(mid);
      ValuesConcat(Separated(separator, items[..n]) + mid, items[n]);
      ValuesConcat(Separated(separator, items[..n]), mid);
      ValuesConcat(Concat(items[..n]), items[n]);
    }
  }

  lemma {:induction false} MappedValues<T>(text: T -> seq<Chunk>, values: T -> seq<PgValue>, items: seq<T>)
    requires forall i :: 0 <= i < |items| ==> Values(text(items[i])) == values(items[i])
    ensures Values(Concat(Map(text, items))) == Concat(Map(values, items))
  {
    ConcatValues(Map(text, items), Map(values, items));
  }

  lemma {:induction false} ClauseValues(keyword: string, separator: string, items: seq<seq<Chunk>>)
    ensures Values(Clause(keyword, separator, items)) == Values(Concat(items))
  {
    if items != [] {
      SeparatedValues(separator, items);
      hide Separated, Concat;
      Around([Fixed(keyword)], Separated(separator, items), []);
      assert [Fixed(keyword)] + Separated(separator, items) + [] == [Fixed(keyword)] + Separated(separator, items);
    }
  }

  /** Fixed text contributes no values. */
  lemma {:induction false} Around(before: seq<Chunk>, chunks: seq<Chunk>, after: seq<Chunk>)
    requires forall t :: t in before || t in after ==> t.Fixed?
    ensures Values(before + chunks + after) == Values(chunks)
  {
    ValuesConcat(before + chunks, after);
    ValuesConcat(before, chunks);
    NoValues(before);
    NoValues(after);
  }

  lemma {:induction false} ColumnValues(c: ColumnExpr)
    ensures Values(ColumnText(c)) == c.expr.params
  {
    hide Values, Meaning, Quoted;
    Around([], Meaning(c.expr), AliasText(c.alias));
    assert [] + Meaning(c.expr) + AliasText(c.alias) == ColumnText(c);
    ParamsAreValues(c.expr);
  }

  lemma {:induction false} JoinValues(j: JoinClause)
    ensures Values(JoinText(j)) == j.table.params + j.on.params
  {
    hide Values, Meaning, Quoted, Keyword;
    var before := [Fixed(" "), Fixed(Keyword(j.joinType)), Fixed(" ")];
    var table := before + Meaning(j.table) + (AliasText(j.alias) + [Fixed(" ON ")]);
    Around(before, Meaning(j.table), AliasText(j.alias) + [Fixed(" ON ")]);
    ValuesConcat(table, Meaning(j.on));
    assert JoinText(j) == table + Meaning(j.on);
    ParamsAreValues(j.table);
    ParamsAreValues(j.on);
  }

  lemma {:induction false} ConditionValues(f: SqlFragment)
    ensures Values(ConditionText(f)) == f.params
  {
    hide Values, Meaning;
    Around([Fixed("(")], Meaning(f), [Fixed(")")]);
    ParamsAreValues(f);
  }

  lemma {:induction false} OrderValues(o: OrderByItem)
    ensures Values(OrderText(o)) == o.column.params
  {
    hide Values, Meaning;
    var direction := [Fixed(if o.ascending then " ASC" else " DESC")];
    Around([], Meaning(o.column), direction);
    assert [] + Meaning(o.column) + direction == OrderText(o);
    ParamsAreValues(o.column);
  }

  lemma {:induction false} HeadValues(b: SqlBuilder)
    ensures Values(HeadText(b)) == Concat(Map((c: ColumnExpr) => c.expr.params, b.columns))
  {
    hide Values, Meaning, Quoted;
    var items := Map(ColumnText, b.columns);
    var columns := if b.columns == [] then [Fixed("*")] else Separated(", ", items);
    var from := [Fixed(" FROM ")] + [Fixed(Quoted(b.schema)), Fixed("."), Fixed(Quoted(b.table))] +
      AliasText(b.tableAlias);
    Around([Fixed("SELECT ")], columns, from);
    assert HeadText(b) == [Fixed("SELECT ")] + columns + from;
    if b.columns == [] {
      NoValues(columns);
    } else {
      SeparatedValues(", ", items);
      forall i | 0 <= i < |b.columns| ensures Values(ColumnText(b.columns[i])) == b.columns[i].expr.params {
        ColumnValues(b.columns[i]);
      }
      MappedValues(ColumnText, (c: ColumnExpr) => c.expr.params, b.columns);
    }
  }

  lemma {:induction false} NumberTextValues(keyword: string, n: Option<I64>)
    ensures Values(NumberText(keyword, n)) == NumberValues(n)
  {
    if n.Some? {
      var bound := [Bound(Int(n.value))];
      assert bound[1..] == [] && Values(bound) == [Int(n.value)] + Values([]);
      ValuesConcat([Fixed(keyword)], bound);
      NoValues([Fixed(keyword)]);
      assert NumberText(keyword, n) == [Fixed(keyword)] + bound;
    }
  }

  lemma {:induction false} ConcatSix(a: seq<Chunk>, b: seq<Chunk>, c: seq<Chunk>, d: seq<Chunk>, e: seq<Chunk>,
                                     f: seq<Chunk>)
    ensures Values(a + b + c + d + e + f) == Values(a) + Values(b) + Values(c) + Values(d) + Values(e) + Values(f)
  {
    hide Values;
    ValuesConcat(a, b);
    ValuesConcat(a + b, c);
    ValuesConcat(a + b + c, d);
    ValuesConcat(a + b + c + d, e);
    ValuesConcat(a + b + c + d + e, f);
  }

  /** The values of the clauses, each those of its items in turn. */
  lemma {:induction false} ClausesValues(b: SqlBuilder)
    ensures Values(Concat(Map(JoinText, b.joins))) ==
      Concat(Map((j: JoinClause) => j.table.params + j.on.params, b.joins))
    ensures Values(Concat(Map(ConditionText, b.conditions))) == Concat(Map((f: SqlFragment) => f.params, b.conditions))
    ensures Values(Concat(Map(OrderText, b.orderBy))) == Concat(Map((o: OrderByItem) => o.column.params, b.orderBy))
  {
    hide Values, Meaning, Concat, Map, JoinText, ConditionText, OrderText;
    forall j: JoinClause ensures Values(JoinText(j)) == j.table.params + j.on.params {
      JoinValues(j);
    }
    MappedValues(JoinText, (j: JoinClause) => j.table.params + j.on.params, b.joins);
    forall f: SqlFragment ensures Values(ConditionText(f)) == f.params {
      ConditionValues(f);
    }
    MappedValues(ConditionText, (f: SqlFragment) => f.params, b.conditions);
    forall o: OrderByItem ensures Values(OrderText(o)) == o.column.params {
      OrderValues(o);
    }
    MappedValues(OrderText, (o: OrderByItem) => o.column.params, b.orderBy);
  }

  /** The values bound in a SELECT are those given to the builder: of the columns, the joins (table
      before condition), WHERE, ORDER BY, LIMIT and OFFSET, in this order. */
  lemma {:induction false} SelectValues(b: SqlBuilder)
    ensures Values(SelectText(b)) == GivenValues(b)
  {
    hide Values, Meaning, Concat, Map, Separated, Clause, NumberText, HeadText, JoinText, ConditionText, OrderText;
    ConcatSix(HeadText(b), Concat(Map(JoinText, b.joins)), Clause(" WHERE ", " AND ", Map(ConditionText, b.conditions)),
              Clause(" ORDER BY ", ", ", Map(OrderText, b.orderBy)), NumberText(" LIMIT ", b.limit),
              NumberText(" OFFSET ", b.offset));
    HeadValues(b);
    ClausesValues(b);
    ClauseValues(" WHERE ", " AND ", Map(ConditionText, b.conditions));
    ClauseValues(" ORDER BY ", ", ", Map(OrderText, b.orderBy));
    NumberTextValues(" LIMIT ", b.limit);
    NumberTextValues(" OFFSET ", b.offset);
  }
}
