/** Keyset paging (magna-build `QueryExecutor::select_connection`) over a table with a single-column
    primary key and the default order. The order of keys is a parameter: any strict total order. */
module Paging {
  import opened Basics
  import opened Decimal

  datatype Row<K, V> = Row(key: K, value: V)

  /** How keys travel in cursors; undecodable text is `None`. */
  datatype Codec<!K> = Codec(encode: K -> string, decode: string -> Option<K>)

  datatype Query<!K, !V> = Query(conds: seq<Row<K, V> -> bool>, ascending: bool, limit: nat)

  datatype Args<!K, !V> = Args(first: Option<I64>, last: Option<I64>, after: Option<string>, before: Option<string>,
                               conds: seq<Row<K, V> -> bool>)

  datatype Page<K, V> = Page(rows: seq<Row<K, V>>, hasNext: bool, hasPrevious: bool,
                             startCursor: Option<string>, endCursor: Option<string>)

  datatype Reply<K, V> = Answered(page: Page<K, V>) | DatabaseError

  ghost predicate StrictTotal<K(!new)>(less: (K, K) -> bool) {
    && (forall a :: !less(a, a))
    && (forall a, b, c :: less(a, b) && less(b, c) ==> less(a, c))
    && (forall a, b :: less(a, b) || less(b, a) || a == b)
  }

  ghost predicate Faithful<K(!new)>(codec: Codec<K>) {
    forall k :: codec.decode(codec.encode(k)) == Some(k)
  }

  ghost predicate DistinctKeys<K, V>(rows: seq<Row<K, V>>) {
    forall i, j :: 0 <= i < j < |rows| ==> rows[i].key != rows[j].key
  }

  ghost predicate Ascending<K, V>(less: (K, K) -> bool, rows: seq<Row<K, V>>) {
    forall i, j :: 0 <= i < j < |rows| ==> less(rows[i].key, rows[j].key)
  }

  // ----- the database -----

  function Insert<K, V>(less: (K, K) -> bool, row: Row<K, V>, rows: seq<Row<K, V>>): seq<Row<K, V>> {
    if rows == [] || less(row.key, rows[0].key) then [row] + rows
    else [rows[0]] + Insert(less, row, rows[1..])
  }

  function InKeyOrder<K, V>(less: (K, K) -> bool, table: seq<Row<K, V>>): seq<Row<K, V>> {
    if table == [] then [] else Insert(less, table[0], InKeyOrder(less, table[1..]))
  }

  function Filter<K, V>(cond: Row<K, V> -> bool, rows: seq<Row<K, V>>): seq<Row<K, V>> {
    if rows == [] then [] else
      (if cond(rows[0]) then [rows[0]] else []) + Filter(cond, rows[1..])
  }

  predicate AllHold<K, V>(conds: seq<Row<K, V> -> bool>, row: Row<K, V>) {
    conds == [] || (conds[0](row) && AllHold(conds[1..], row))
  }

  lemma {:induction false} AllHoldSplit<K, V>(a: seq<Row<K, V> -> bool>, b: seq<Row<K, V> -> bool>, row: Row<K, V>)
    ensures AllHold(a + b, row) <==> AllHold(a, row) && AllHold(b, row)
  {
    if a == [] {
      assert a + b == b;
    } else {
      AllHoldSplit(a[1..], b, row);
      assert (a + b)[1..] == a[1..] + b;
    }
  }

  function Where<K, V>(conds: seq<Row<K, V> -> bool>, rows: seq<Row<K, V>>): seq<Row<K, V>> {
    Filter(row => AllHold(conds, row), rows)
  }

  function Reverse<T>(s: seq<T>): seq<T> {
    if s == [] then [] else Reverse(s[1..]) + [s[0]]
  }

  function Prefix<T>(s: seq<T>, n: nat): seq<T> {
    if n < |s| then s[..n] else s
  }

  function Suffix<T>(s: seq<T>, n: nat): seq<T> {
    if n < |s| then s[|s|-n..] else s
  }

  /** `SELECT * FROM table WHERE conds ORDER BY key LIMIT limit`. */
  function Answer<K, V>(less: (K, K) -> bool, table: seq<Row<K, V>>, q: Query<K, V>): seq<Row<K, V>> {
    var found := Where(q.conds, InKeyOrder(less, table));
    Prefix(if q.ascending then found else Reverse(found), q.limit)
  }

  lemma {:induction false} InsertKeepsOrder<K(!new), V(!new)>(less: (K, K) -> bool, row: Row<K, V>,
                                                              rows: seq<Row<K, V>>)
    requires StrictTotal(less) && Ascending(less, rows)
    requires forall i :: 0 <= i < |rows| ==> rows[i].key != row.key
    ensures Ascending(less, Insert(less, row, rows))
    ensures forall r :: r in Insert(less, row, rows) <==> r == row || r in rows
  {
    if rows != [] && !less(row.key, rows[0].key) {
      InsertKeepsOrder(less, row, rows[1..]);
      var rest := Insert(less, row, rows[1..]);
      assert rows == [rows[0]] + rows[1..];
      forall j | 0 <= j < |rest| ensures less(rows[0].key, rest[j].key) {
        assert rest[j] in rest;
        if rest[j] != row {
          var k :| 0 <= k < |rows[1..]| && rows[1..][k] == rest[j];
        }
      }
    }
  }

  /** Ordering by a key that is unique in the table. */
  lemma {:induction false} KeyOrder<K(!new), V(!new)>(less: (K, K) -> bool, table: seq<Row<K, V>>)
    requires StrictTotal(less) && DistinctKeys(table)
    ensures Ascending(less, InKeyOrder(less, table))
    ensures forall r :: r in InKeyOrder(less, table) <==> r in table
  {
    if table != [] {
      KeyOrder(less, table[1..]);
      var rest := InKeyOrder(less, table[1..]);
      forall i | 0 <= i < |rest| ensures rest[i].key != table[0].key {
        assert rest[i] in table[1..];
      }
      InsertKeepsOrder(less, table[0], rest);
      assert table == [table[0]] + table[1..];
    }
  }

  lemma {:induction false} FilterKeepsOrder<K(!new), V(!new)>(less: (K, K) -> bool, cond: Row<K, V> -> bool,
                                                              rows: seq<Row<K, V>>)
    requires Ascending(less, rows)
    ensures Ascending(less, Filter(cond, rows))
    ensures forall r :: r in Filter(cond, rows) <==> r in rows && cond(r)
  {
    if rows != [] {
      FilterKeepsOrder(less, cond, rows[1..]);
      assert rows == [rows[0]] + rows[1..];
      var rest := Filter(cond, rows[1..]);
      forall j | 0 <= j < |rest| ensures less(rows[0].key, rest[j].key) {
        assert rest[j] in rows[1..];
      }
    }
  }

  lemma {:induction false} ReverseAt<T>(s: seq<T>)
    ensures |Reverse(s)| == |s|
    ensures forall k :: 0 <= k < |s| ==> Reverse(s)[k] == s[|s| - 1 - k]
  {
    if s != [] {
      ReverseAt(s[1..]);
    }
  }

  /** The last `n`, taken as the first `n` of the reverse, and reversed again. */
  lemma {:induction false} ReversedPrefix<T>(s: seq<T>, n: nat)
    ensures Reverse(Prefix(Reverse(s), n)) == Suffix(s, n)
  {
    ReverseAt(s);
    ReverseAt(Prefix(Reverse(s), n));
  }

  // ----- the resolver -----

  function Wrapped(n: int): I64 {
    (n + 0x8000_0000_0000_0000) % 0x1_0000_0000_0000_0000 - 0x8000_0000_0000_0000
  }

  function AsUsize(n: I64): nat {
    if n < 0 then n + 0x1_0000_0000_0000_0000 else n
  }

  function LimitOf<K, V>(args: Args<K, V>): I64 {
    if args.first.Some? then args.first.value else if args.last.Some? then args.last.value else 20
  }

  function IsBackward<K, V>(args: Args<K, V>): bool {
    args.first.None? && args.last.Some?
  }

  /** The key that the relevant cursor holds, if it holds one. */
  function CursorKey<K, V>(codec: Codec<K>, args: Args<K, V>): Option<K> {
    var cursor := if IsBackward(args) then args.before else args.after;
    if cursor.None? then None else codec.decode(cursor.value)
  }

  /** `row` lies past the cursor, in the paging direction. */
  predicate IsPast<K, V>(less: (K, K) -> bool, codec: Codec<K>, args: Args<K, V>, row: Row<K, V>) {
    match CursorKey(codec, args)
    case None => true
    case Some(k) => if IsBackward(args) then less(row.key, k) else less(k, row.key)
  }

  /** The rows past the cursor that meet the conditions, in ascending order. */
  function Window<K, V>(less: (K, K) -> bool, codec: Codec<K>, table: seq<Row<K, V>>,
                        args: Args<K, V>): seq<Row<K, V>> {
    Filter(row => IsPast(less, codec, args, row) && AllHold(args.conds, row), InKeyOrder(less, table))
  }

  lemma {:induction false} AllHoldIs<K(!new), V(!new)>(conds: seq<Row<K, V> -> bool>, row: Row<K, V>)
    ensures AllHold(conds, row) <==> forall i :: 0 <= i < |conds| ==> conds[i](row)
  {
    if conds != [] {
      AllHoldIs(conds[1..], row);
      if AllHold(conds, row) {
        forall i | 0 <= i < |conds| ensures conds[i](row) {
          assert i > 0 ==> conds[1..][i-1](row);
        }
      }
    }
  }

  /** The window, row by row: the rows of the table that meet every condition and, with `first` or by default, come
      after the `after` cursor; with `last` alone, before the `before` cursor. A cursor that cannot be decoded does
      not count. */
  lemma {:induction false} WindowIs<K(!new), V(!new)>(less: (K, K) -> bool, codec: Codec<K>, table: seq<Row<K, V>>,
                                                      args: Args<K, V>)
    requires StrictTotal(less) && DistinctKeys(table)
    ensures Ascending(less, Window(less, codec, table, args))
    ensures forall r :: r in Window(less, codec, table, args) <==>
      && r in table && (forall i :: 0 <= i < |args.conds| ==> args.conds[i](r))
      && if args.last.None? || args.first.Some? then
           args.after.Some? && codec.decode(args.after.value).Some? ==>
             less(codec.decode(args.after.value).value, r.key)
         else
           args.before.Some? && codec.decode(args.before.value).Some? ==>
             less(r.key, codec.decode(args.before.value).value)
  {
    KeyOrder(less, table);
    FilterKeepsOrder(less, row => IsPast(less, codec, args, row) && AllHold(args.conds, row), InKeyOrder(less, table));
    hide InKeyOrder, Filter, StrictTotal, DistinctKeys, Ascending, AllHold;
    forall r ensures AllHold(args.conds, r) <==> forall i :: 0 <= i < |args.conds| ==> args.conds[i](r) {
      AllHoldIs(args.conds, r);
    }
  }

  lemma {:induction false} FilterSame<K, V>(f: Row<K, V> -> bool, g: Row<K, V> -> bool, rows: seq<Row<K, V>>)
    requires forall r :: r in rows ==> f(r) == g(r)
    ensures Filter(f, rows) == Filter(g, rows)
  {
    if rows != [] {
      FilterSame(f, g, rows[1..]);
    }
  }

  /** At most one condition, which says that a row lies past the cursor. */
  ghost predicate IsKeyset<K(!new), V(!new)>(less: (K, K) -> bool, codec: Codec<K>, args: Args<K, V>,
                                             keyset: seq<Row<K, V> -> bool>) {
    && |keyset| == (if CursorKey(codec, args).None? then 0 else 1)
    && (keyset != [] ==> forall r :: keyset[0](r) == IsPast(less, codec, args, r))
  }

  lemma {:induction false} WindowIsFound<K(!new), V(!new)>(less: (K, K) -> bool, codec: Codec<K>,
                                                           table: seq<Row<K, V>>, args: Args<K, V>,
                                               keyset: seq<Row<K, V> -> bool>)
    requires IsKeyset(less, codec, args, keyset)
    ensures Where(keyset + args.conds, InKeyOrder(less, table)) == Window(less, codec, table, args)
  {
    var conds := keyset + args.conds;
    forall r | r in InKeyOrder(less, table)
      ensures AllHold(conds, r) == (IsPast(less, codec, args, r) && AllHold(args.conds, r))
    {
      AllHoldSplit(keyset, args.conds, r);
      assert keyset != [] ==> keyset[1..] == [];
    }
    FilterSame(row => AllHold(conds, row), row => IsPast(less, codec, args, row) && AllHold(args.conds, row),
               InKeyOrder(less, table));
  }

  /** Fetching one row more than the page holds. */
  lemma {:induction false} FetchOneMore<T>(window: seq<T>, n: nat, backward: bool)
    ensures var fetched := Prefix(if backward then Reverse(window) else window, n + 1);
      && (|fetched| > n <==> |window| > n)
      && Prefix(fetched, n) == Prefix(if backward then Reverse(window) else window, n)
  {
    ReverseAt(window);
  }

  method KeysetCondition<K(!new), V(!new)>(less: (K, K) -> bool, codec: Codec<K>, cursor: Option<string>,
                                           backward: bool, ghost args: Args<K, V>)
    returns (keyset: seq<Row<K, V> -> bool>)
    requires backward == IsBackward(args) && cursor == if backward then args.before else args.after
    ensures IsKeyset(less, codec, args, keyset)
  {
    keyset := [];
    if cursor.Some? {
      var key := codec.decode(cursor.value);
      if key.Some? {
        var k := key.value;
        if backward {
          keyset := [(row: Row<K, V>) => less(row.key, k)];
        } else {
          keyset := [(row: Row<K, V>) => less(k, row.key)];
        }
      }
    }
  }

  lemma {:induction false} WrappedAbove(n: I64)
    ensures Wrapped(n + 1) == if n == I64_MAX then I64_MIN else n + 1
  {
  }

  /** A page is the `n` rows of the window next to the cursor, in ascending order, and the flag of the
      paging direction says whether the window has more. A limit of -1 asks for nothing. */
  ghost predicate IsPage<K, V>(codec: Codec<K>, window: seq<Row<K, V>>, n: I64, backward: bool, page: Page<K, V>) {
    && page.rows == (if n < 0 then [] else if backward then Suffix(window, n) else Prefix(window, n))
    && page.hasNext == (!backward && 0 <= n < |window|)
    && page.hasPrevious == (backward && 0 <= n < |window|)
    && page.startCursor == (if page.rows == [] then None else Some(codec.encode(page.rows[0].key)))
    && page.endCursor == (if page.rows == [] then None else Some(codec.encode(page.rows[|page.rows|-1].key)))
  }

  method SelectConnection<K(!new), V(!new)>(less: (K, K) -> bool, codec: Codec<K>, table: seq<Row<K, V>>,
                                            args: Args<K, V>)
    returns (reply: Reply<K, V>)
    ensures reply.Answered? <==> -1 <= LimitOf(args) < I64_MAX
    ensures reply.Answered? ==>
      IsPage(codec, Window(less, codec, table, args), LimitOf(args), IsBackward(args), reply.page)
    ensures var window := Window(less, codec, table, args);
      && (args.first.Some? && 0 <= args.first.value < I64_MAX ==>
            reply.Answered? && reply.page.rows == Prefix(window, args.first.value) && !reply.page.hasPrevious)
      && (args.first.None? && args.last.Some? && 0 <= args.last.value < I64_MAX ==>
            reply.Answered? && reply.page.rows == Suffix(window, args.last.value) && !reply.page.hasNext)
      && (args.first.None? && args.last.None? ==>
            reply.Answered? && reply.page.rows == Prefix(window, 20) && reply.page.hasNext == (|window| > 20))
  {
    var limit: I64, backward := 20, false;
    match (args.first, args.last) {
      case (Some(n), _) => limit, backward := n, false;
      case (_, Some(n)) => limit, backward := n, true;
      case _ =>
    }
    var keyset := KeysetCondition(less, codec, if backward then args.before else args.after, backward, args);
    WrappedAbove(limit);
    var l: int := limit;
    if Wrapped(l + 1) < 0 {
      return DatabaseError;
    }
    WindowIsFound(less, codec, table, args, keyset);
    var fetched := Answer(less, table, Query(keyset + args.conds, !backward, Wrapped(l + 1)));
    var page := MakePage(codec, fetched, limit, backward, Window(less, codec, table, args));
    reply := Answered(page);
  }

  method MakePage<K, V>(codec: Codec<K>, fetched: seq<Row<K, V>>, limit: I64, backward: bool,
                        ghost window: seq<Row<K, V>>)
    returns (page: Page<K, V>)
    requires -1 <= limit < I64_MAX
    requires fetched == Prefix(if backward then Reverse(window) else window, limit + 1)
    ensures IsPage(codec, window, limit, backward, page)
  {
    if limit >= 0 {
      FetchOneMore(window, limit, backward);
      ReversedPrefix(window, limit);
    }
    var rows := fetched;
    var hasMore := |rows| > AsUsize(limit);
    if hasMore {
      rows := rows[..AsUsize(limit)];
    }
    if backward {
      rows := Reverse(rows);
    }
    var startCursor := if rows == [] then None else Some(codec.encode(rows[0].key));
    var endCursor := if rows == [] then None else Some(codec.encode(rows[|rows|-1].key));
    page := Page(rows, !backward && hasMore, backward && hasMore, startCursor, endCursor);
  }
}
