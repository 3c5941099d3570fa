/** A reader of SELECT statements, with its own keywords: what a database would take from the text. */
module StatementReader {
  import opened Basics
  import Decimal
  import opened Sql
  import opened SqlWords
  import SelectBuilder

  datatype Item = Item(expr: string, alias: Option<string>)

  datatype Joined = Joined(joinType: SelectBuilder.JoinType, table: Item, on: string)

  datatype Sorted = Sorted(expr: string, ascending: bool)

  datatype Statement = Statement(
    columns: seq<Item>, schema: string, table: string, alias: Option<string>, joins: seq<Joined>,
    conditions: seq<string>, order: seq<Sorted>, limit: Option<PgValue>, offset: Option<PgValue>)

  // ----- words -----

  /** How many words stand before the first of `stops`. */
  function Until(stops: set<string>, ws: seq<string>): (n: nat)
    ensures n <= |ws|
  {
    if ws == [] || ws[0] in stops then 0 else 1 + Until(stops, ws[1..])
  }

  predicate EndsWithComma(w: string) {
    w != "" && w[|w|-1] == ','
  }

  /** The word lists between commas; `acc` is the one that has begun. */
  function Cut(acc: seq<string>, ws: seq<string>): seq<seq<string>>
    decreases |ws|
  {
    if ws == [] then [acc]
    else if EndsWithComma(ws[0]) then [acc + [ws[0][..|ws[0]|-1]]] + Cut([], ws[1..])
    else Cut(acc + [ws[0]], ws[1..])
  }

  function ReadAll<S, T>(read: S -> Option<T>, items: seq<S>): Option<seq<T>> {
    if items == [] then Some([]) else
      var first, rest := read(items[0]), ReadAll(read, items[1..]);
      if first.None? || rest.None? then None else Some([first.value] + rest.value)
  }

  function ReadIdentifier(w: string): Option<string> {
    if w == "" || w[0] != '"' then None else
      match ReadQuoted(w[1..])
      case Some((name, rest)) => if rest == "" then Some(name) else None
      case None => None
  }

  function ReadTable(w: string): Option<(string, string)> {
    if w == "" || w[0] != '"' then None else
      match ReadQuoted(w[1..])
      case None => None
      case Some((schema, rest)) =>
        if rest == "" || rest[0] != '.' then None else
          var table := ReadIdentifier(rest[1..]);
          if table.None? then None else Some((schema, table.value))
  }

  /** `AS "name"`, or nothing; and the words after it. */
  function ReadAlias(ws: seq<string>): (r: Option<(Option<string>, seq<string>)>)
    ensures r.Some? ==> |r.value.1| <= |ws|
  {
    if ws == [] || ws[0] != "AS" then Some((None, ws))
    else if |ws| < 2 then None else
      var name := ReadIdentifier(ws[1]);
      if name.None? then None else Some((name, ws[2..]))
  }

  // ----- clauses -----

  function ReadColumn(ws: seq<string>): Option<Item> {
    var n := Until({"AS"}, ws);
    match ReadAlias(ws[n..])
    case None => None
    case Some((alias, rest)) => if rest == [] then Some(Item(Spaced(ws[..n]), alias)) else None
  }

  function ReadJoinType(w: string): Option<SelectBuilder.JoinType> {
    if w == "INNER" then Some(SelectBuilder.Inner)
    else if w == "LEFT" then Some(SelectBuilder.Left)
    else if w == "RIGHT" then Some(SelectBuilder.Right)
    else if w == "FULL" then Some(SelectBuilder.Full)
    else None
  }

  const AfterOn := {"INNER", "LEFT", "RIGHT", "FULL", "WHERE", "ORDER", "LIMIT", "OFFSET"}

  const AfterWhere := {"ORDER", "LIMIT", "OFFSET"}

  const AfterOrder := {"LIMIT", "OFFSET"}

  function ReadJoins(ws: seq<string>): Option<(seq<Joined>, seq<string>)>
    decreases |ws|
  {
    if |ws| < 2 || ReadJoinType(ws[0]).None? || ws[1] != "JOIN" then Some(([], ws)) else
      var n := Until({"AS", "ON"}, ws[2..]);
      match ReadAlias(ws[2+n..])
      case None => None
      case Some((alias, rest)) =>
        if rest == [] || rest[0] != "ON" then None else
          var m := Until(AfterOn, rest[1..]);
          match ReadJoins(rest[1+m..])
          case None => None
          case Some((more, after)) =>
            var table := Item(Spaced(ws[2..2+n]), alias);
            Some(([Joined(ReadJoinType(ws[0]).value, table, Spaced(rest[1..1+m]))] + more, after))
  }

  function ReadWrapped(w: string): Option<string> {
    if |w| >= 2 && w[0] == '(' && w[|w|-1] == ')' then Some(w[1..|w|-1]) else None
  }

  /** Conditions in parentheses, with `AND` between them. */
  function ReadConditions(ws: seq<string>): Option<seq<string>>
    decreases |ws|
  {
    if ws == [] then None else
      var first := ReadWrapped(ws[0]);
      if first.None? then None
      else if |ws| == 1 then Some([first.value])
      else if ws[1] != "AND" then None else
        var rest := ReadConditions(ws[2..]);
        if rest.None? then None else Some([first.value] + rest.value)
  }

  function ReadWhere(ws: seq<string>): Option<(seq<string>, seq<string>)> {
    if ws == [] || ws[0] != "WHERE" then Some(([], ws)) else
      var n := Until(AfterWhere, ws[1..]);
      var conditions := ReadConditions(ws[1..1+n]);
      if conditions.None? then None else Some((conditions.value, ws[1+n..]))
  }

  function ReadSorted(ws: seq<string>): Option<Sorted> {
    if ws == [] then None
    else if ws[|ws|-1] == "ASC" then Some(Sorted(Spaced(ws[..|ws|-1]), true))
    else if ws[|ws|-1] == "DESC" then Some(Sorted(Spaced(ws[..|ws|-1]), false))
    else None
  }

  function ReadOrder(ws: seq<string>): Option<(seq<Sorted>, seq<string>)> {
    if |ws| < 2 || ws[0] != "ORDER" || ws[1] != "BY" then Some(([], ws)) else
      var n := Until(AfterOrder, ws[2..]);
      var order := ReadAll(ReadSorted, Cut([], ws[2..2+n]));
      if order.None? then None else Some((order.value, ws[2+n..]))
  }

  /** A placeholder stands for the parameter that it numbers. */
  function ReadParam(w: string, params: seq<PgValue>): Option<PgValue> {
    if w == "" || w[0] != '$' then None else
      var n := Decimal.Value(w[1..]);
      if 1 <= n <= |params| then Some(params[n-1]) else None
  }

  function ReadNumber(keyword: string, ws: seq<string>, params: seq<PgValue>): Option<(Option<PgValue>, seq<string>)> {
    if ws == [] || ws[0] != keyword then Some((None, ws))
    else if |ws| < 2 then None else
      var value := ReadParam(ws[1], params);
      if value.None? then None else Some((value, ws[2..]))
  }

  // ----- statements -----

  /** `SELECT columns FROM table`, and the words after it. */
  function ReadHead(ws: seq<string>): Option<(Statement, seq<string>)> {
    if ws == [] || ws[0] != "SELECT" then None else
      var n := Until({"FROM"}, ws);
      if |ws| < n + 2 || n == 0 then None else
        var columns, table := ReadAll(ReadColumn, Cut([], ws[1..n])), ReadTable(ws[n+1]);
        match ReadAlias(ws[n+2..])
        case None => None
        case Some((alias, rest)) =>
          if columns.None? || table.None? then None else
            Some((Statement(columns.value, table.value.0, table.value.1, alias, [], [], [], None, None), rest))
  }

  /** The clauses after the head, in their order, up to the end of the text. */
  function ReadClauses(head: Statement, ws: seq<string>, params: seq<PgValue>): Option<Statement> {
    match ReadJoins(ws)
    case None => None
    case Some((joins, ws)) =>
    match ReadWhere(ws)
    case None => None
    case Some((conditions, ws)) =>
    match ReadOrder(ws)
    case None => None
    case Some((order, ws)) =>
    match ReadNumber("LIMIT", ws, params)
    case None => None
    case Some((limit, ws)) =>
    match ReadNumber("OFFSET", ws, params)
    case None => None
    case Some((offset, ws)) =>
      if ws != [] then None else
        Some(head.(joins := joins, conditions := conditions, order := order, limit := limit, offset := offset))
  }

  function ReadStatement(sql: string, params: seq<PgValue>): Option<Statement> {
    match ReadHead(Words(sql))
    case None => None
    case Some((head, rest)) => ReadClauses(head, rest, params)
  }

  // ----- reading lists -----

  predicate Avoids(ws: seq<string>, stops: set<string>) {
    forall i :: 0 <= i < |ws| ==> ws[i] !in stops
  }

  predicate Stops(ws: seq<string>, stops: set<string>) {
    ws == [] || ws[0] in stops
  }

  lemma {:induction false} UntilIs(stops: set<string>, a: seq<string>, rest: seq<string>)
    requires Avoids(a, stops) && Stops(rest, stops)
    ensures Until(stops, a + rest) == |a|
  {
    if a == [] {
      assert a + rest == rest;
    } else {
      UntilIs(stops, a[1..], rest);
      assert (a + rest)[1..] == a[1..] + rest;
    }
  }

  predicate NoCommas(ws: seq<string>) {
    forall i :: 0 <= i < |ws| ==> !EndsWithComma(ws[i])
  }

  lemma {:induction false} CutOne(acc: seq<string>, ws: seq<string>)
    requires NoCommas(ws)
    ensures Cut(acc, ws) == [acc + ws]
    decreases |ws|
  {
    if ws == [] {
      assert acc + ws == acc;
    } else {
      CutOne(acc + [ws[0]], ws[1..]);
      assert acc + [ws[0]] + ws[1..] == acc + ws;
    }
  }

  /** Words with a comma after them are cut off. */
  lemma {:induction false} CutMore(acc: seq<string>, ws: seq<string>, rest: seq<string>)
    requires ws != [] && NoCommas(ws)
    ensures Cut(acc, WithComma(ws) + rest) == [acc + ws] + Cut([], rest)
    decreases |ws|
  {
    var all := WithComma(ws) + rest;
    if |ws| == 1 {
      assert all == [ws[0] + ","] + rest;
      assert all[0][..|all[0]|-1] == ws[0] && all[1..] == rest && [ws[0]] == ws;
    } else {
      assert all[0] == ws[0] && all[1..] == WithComma(ws[1..]) + rest;
      CutMore(acc + [ws[0]], ws[1..], rest);
      assert acc + [ws[0]] + ws[1..] == acc + ws;
    }
  }

  // ----- reading names -----

  lemma {:induction false} ReadsIdentifier(name: string)
    ensures ReadIdentifier(Quoted(name)) == Some(name)
  {
    QuotedReadsBack(name, "");
    assert Quoted(name)[1..] + "" == Quoted(name)[1..];
  }

  lemma {:induction false} ReadsTable(schema: string, table: string)
    ensures ReadTable(Quoted(schema) + ("." + Quoted(table))) == Some((schema, table))
  {
    var rest := "." + Quoted(table);
    QuotedReadsBack(schema, rest);
    assert (Quoted(schema) + rest)[1..] == Quoted(schema)[1..] + rest;
    assert rest[1..] == Quoted(table);
    ReadsIdentifier(table);
  }

  lemma {:induction false} ReadsParam(n: nat, params: seq<PgValue>)
    requires 1 <= n <= |params|
    ensures ReadParam("$" + Decimal.Digits(n), params) == Some(params[n-1])
  {
    Decimal.DigitsRead(n);
    assert ("$" + Decimal.Digits(n))[1..] == Decimal.Digits(n);
  }
}
