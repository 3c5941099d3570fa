/** Whole runs of keyset paging: following `end_cursor` forward, or `start_cursor` backward. */
module PagingRuns {
  import opened Basics
  import opened Decimal
  import opened Paging

  type Size = n: I64 | 1 <= n < I64_MAX witness 1

  function Forward<K, V>(n: Size, after: Option<string>, conds: seq<Row<K, V> -> bool>): Args<K, V> {
    Args(Some(n), None, after, None, conds)
  }

  function Backward<K, V>(n: Size, before: Option<string>, conds: seq<Row<K, V> -> bool>): Args<K, V> {
    Args(None, Some(n), None, before, conds)
  }

  /** All rows that meet the conditions, in key order. */
  function Matching<K, V>(less: (K, K) -> bool, table: seq<Row<K, V>>, conds: seq<Row<K, V> -> bool>): seq<Row<K, V>> {
    Where(conds, InKeyOrder(less, table))
  }

  ghost predicate Sound<K(!new), V>(less: (K, K) -> bool, codec: Codec<K>, table: seq<Row<K, V>>) {
    StrictTotal(less) && Faithful(codec) && DistinctKeys(table)
  }

  lemma {:induction false} MatchingIs<K(!new), V(!new)>(less: (K, K) -> bool, table: seq<Row<K, V>>,
                                                        conds: seq<Row<K, V> -> bool>)
    requires StrictTotal(less) && DistinctKeys(table)
    ensures Ascending(less, Matching(less, table, conds))
    ensures forall r :: r in Matching(less, table, conds) <==> r in table && AllHold(conds, r)
  {
    KeyOrder(less, table);
    FilterKeepsOrder(less, row => AllHold(conds, row), InKeyOrder(less, table));
  }

  lemma {:induction false} WindowIs<K(!new), V(!new)>(less: (K, K) -> bool, codec: Codec<K>, table: seq<Row<K, V>>,
                                                      args: Args<K, V>)
    requires StrictTotal(less) && DistinctKeys(table)
    ensures Ascending(less, Window(less, codec, table, args))
    ensures forall r :: r in Window(less, codec, table, args) <==>
      r in table && AllHold(args.conds, r) && IsPast(less, codec, args, r)
  {
    KeyOrder(less, table);
    FilterKeepsOrder(less, row => IsPast(less, codec, args, row) && AllHold(args.conds, row), InKeyOrder(less, table));
  }

  /** Ascending sequences with the same rows are equal. */
  lemma {:induction false} AscendingUnique<K(!new), V(!new)>(less: (K, K) -> bool, a: seq<Row<K, V>>, b: seq<Row<K, V>>)
    requires StrictTotal(less) && Ascending(less, a) && Ascending(less, b)
    requires forall r :: r in a <==> r in b
    ensures a == b
  {
    assert (a != [] ==> a[0] in a) && (b != [] ==> b[0] in b);
    if a != [] && b != [] {
      assert a[0] in b && b[0] in a;
      assert a[0] == b[0];
      forall r | r in a[1..] ensures r in b[1..] {
        assert r in a && r in b && less(a[0].key, r.key);
      }
      forall r | r in b[1..] ensures r in a[1..] {
        assert r in b && r in a && less(b[0].key, r.key);
      }
      AscendingUnique(less, a[1..], b[1..]);
    }
  }

  /** After the first `v` rows, the window holds the others. */
  lemma {:induction false} WindowAfter<K(!new), V(!new)>(less: (K, K) -> bool, codec: Codec<K>, table: seq<Row<K, V>>,
                                                         args: Args<K, V>, v: nat)
    requires Sound(less, codec, table) && !IsBackward(args) && v <= |Matching(less, table, args.conds)|
    requires args.after == if v == 0 then None else Some(codec.encode(Matching(less, table, args.conds)[v-1].key))
    ensures Window(less, codec, table, args) == Matching(less, table, args.conds)[v..]
  {
    var all, window := Matching(less, table, args.conds), Window(less, codec, table, args);
    MatchingIs(less, table, args.conds);
    WindowIs(less, codec, table, args);
    hide Matching, Window;
    forall r ensures r in window <==> r in all[v..] {
      if r in all {
        var i :| 0 <= i < |all| && all[i] == r;
        assert i >= v ==> all[v..][i-v] == r;
      }
    }
    AscendingUnique(less, window, all[v..]);
  }

  /** Forward paging over a fixed table, with any page sizes, visits every matching row once, in key
      order, and stops when a page says that there is no next one. */
  method PageForward<K(!new), V(!new)>(less: (K, K) -> bool, codec: Codec<K>, table: seq<Row<K, V>>,
                                       conds: seq<Row<K, V> -> bool>)
    returns (visited: seq<Row<K, V>>)
    requires Sound(less, codec, table)
    ensures visited == Matching(less, table, conds)
  {
    ghost var all := Matching(less, table, conds);
    hide Matching, Window;
    visited := [];
    var more, cursor := true, None;
    while more
      invariant |visited| <= |all| && visited == all[..|visited|]
      invariant cursor == if visited == [] then None else Some(codec.encode(visited[|visited|-1].key))
      invariant !more ==> visited == all
      invariant more && visited != [] ==> |visited| < |all|
      decreases more, |all| - |visited|
    {
      var n: Size :| true;
      var reply := SelectConnection(less, codec, table, Forward(n, cursor, conds));
      var page := reply.page;
      WindowAfter(less, codec, table, Forward(n, cursor, conds), |visited|);
      visited := visited + page.rows;
      more := page.hasNext;
      if page.endCursor.Some? {
        cursor := page.endCursor;
      }
    }
  }

  lemma {:induction false} WindowBefore<K(!new), V(!new)>(less: (K, K) -> bool, codec: Codec<K>, table: seq<Row<K, V>>,
                                                          args: Args<K, V>, v: nat)
    requires Sound(less, codec, table) && IsBackward(args) && v <= |Matching(less, table, args.conds)|
    requires args.before ==
      if v == |Matching(less, table, args.conds)| then None
      else Some(codec.encode(Matching(less, table, args.conds)[v].key))
    ensures Window(less, codec, table, args) == Matching(less, table, args.conds)[..v]
  {
    var all, window := Matching(less, table, args.conds), Window(less, codec, table, args);
    MatchingIs(less, table, args.conds);
    WindowIs(less, codec, table, args);
    hide Matching, Window;
    forall r ensures r in window <==> r in all[..v] {
      if r in all {
        var i :| 0 <= i < |all| && all[i] == r;
        assert i < v ==> all[..v][i] == r;
      }
    }
    AscendingUnique(less, window, all[..v]);
  }

  /** Backward paging is the mirror image; each page comes in ascending order. */
  method PageBackward<K(!new), V(!new)>(less: (K, K) -> bool, codec: Codec<K>, table: seq<Row<K, V>>,
                                        conds: seq<Row<K, V> -> bool>)
    returns (visited: seq<Row<K, V>>)
    requires Sound(less, codec, table)
    ensures visited == Matching(less, table, conds)
  {
    ghost var all := Matching(less, table, conds);
    hide Matching, Window;
    visited := [];
    var more, cursor := true, None;
    while more
      invariant |visited| <= |all| && visited == all[|all|-|visited|..]
      invariant cursor == if visited == [] then None else Some(codec.encode(visited[0].key))
      invariant !more ==> visited == all
      invariant more && visited != [] ==> |visited| < |all|
      decreases more, |all| - |visited|
    {
      var n: Size :| true;
      var reply := SelectConnection(less, codec, table, Backward(n, cursor, conds));
      var page := reply.page;
      WindowBefore(less, codec, table, Backward(n, cursor, conds), |all| - |visited|);
      visited := page.rows + visited;
      more := page.hasPrevious;
      if page.startCursor.Some? {
        cursor := page.startCursor;
      }
    }
  }

  // ----- a table that changes between the pages -----

  /** `r` is there, and meets the conditions, whenever a page is fetched. */
  ghost predicate Steady<K, V>(tables: seq<seq<Row<K, V>>>, conds: seq<Row<K, V> -> bool>, r: Row<K, V>) {
    AllHold(conds, r) && forall i :: 0 <= i < |tables| ==> r in tables[i]
  }

  ghost predicate Seen<K, V>(tables: seq<seq<Row<K, V>>>, conds: seq<Row<K, V> -> bool>, r: Row<K, V>) {
    AllHold(conds, r) && exists i :: 0 <= i < |tables| && r in tables[i]
  }

  /** What has been visited when the pages so far were fetched from `tables`: an ascending sequence of
      rows that were seen, which lacks no steady row up to its end. */
  ghost predicate Progress<K(!new), V(!new)>(less: (K, K) -> bool, tables: seq<seq<Row<K, V>>>,
                                             conds: seq<Row<K, V> -> bool>,
                                             visited: seq<Row<K, V>>)
  {
    && Ascending(less, visited)
    && (forall r :: r in visited ==> Seen(tables, conds, r))
    && (forall r :: Steady(tables, conds, r) ==> r in visited || Beyond(less, visited, r))
  }

  ghost predicate Beyond<K, V>(less: (K, K) -> bool, visited: seq<Row<K, V>>, r: Row<K, V>) {
    visited != [] ==> less(visited[|visited|-1].key, r.key)
  }

  lemma {:induction false} ProgressStep<K(!new), V(!new)>(less: (K, K) -> bool, tables: seq<seq<Row<K, V>>>,
                                                          conds: seq<Row<K, V> -> bool>,
                                         visited: seq<Row<K, V>>, table: seq<Row<K, V>>, window: seq<Row<K, V>>, n: nat)
    requires StrictTotal(less) && Progress(less, tables, conds, visited) && n >= 1
    requires Ascending(less, window)
    requires forall r :: r in window <==> r in table && AllHold(conds, r) && Beyond(less, visited, r)
    ensures Progress(less, tables + [table], conds, visited + Prefix(window, n))
    ensures n >= |window| ==> forall r :: Steady(tables + [table], conds, r) ==> r in visited + Prefix(window, n)
  {
    hide AllHold;
    var all, rows := tables + [table], Prefix(window, n);
    forall r | r in visited + rows ensures Seen(all, conds, r) {
      if r in visited {
        var i :| 0 <= i < |tables| && r in tables[i];
        assert r in all[i];
      } else {
        assert r in window && r in all[|tables|];
      }
    }
    forall i, j | 0 <= i < |visited| && 0 <= j < |rows| ensures less(visited[i].key, rows[j].key) {
      assert window[j] in window;
    }
    forall r | Steady(all, conds, r) && r !in visited ensures r in window {
      SteadyBefore(tables, table, conds, r);
    }
    forall r | Steady(all, conds, r) && r !in visited + rows ensures Beyond(less, visited + rows, r) && n < |window| {
      assert r in window;
      var i :| 0 <= i < |window| && window[i] == r;
      InPrefix(window, n, i);
    }
  }

  lemma {:induction false} InPrefix<T>(s: seq<T>, n: nat, i: int)
    requires 0 <= i < |s|
    ensures i < n ==> s[i] in Prefix(s, n)
  {
    assert i < n ==> Prefix(s, n)[i] == s[i];
  }

  /** What the next page is fetched from. */
  lemma {:induction false} NextWindow<K(!new), V(!new)>(less: (K, K) -> bool, codec: Codec<K>, table: seq<Row<K, V>>,
                                                        args: Args<K, V>,
                                         visited: seq<Row<K, V>>)
    requires Sound(less, codec, table) && !IsBackward(args)
    requires args.after == if visited == [] then None else Some(codec.encode(visited[|visited|-1].key))
    ensures Ascending(less, Window(less, codec, table, args))
    ensures forall r :: r in Window(less, codec, table, args) <==>
      r in table && AllHold(args.conds, r) && Beyond(less, visited, r)
  {
    WindowIs(less, codec, table, args);
  }

  lemma {:induction false} SteadyBefore<K, V>(tables: seq<seq<Row<K, V>>>, table: seq<Row<K, V>>,
                                              conds: seq<Row<K, V> -> bool>, r: Row<K, V>)
    requires Steady(tables + [table], conds, r)
    ensures Steady(tables, conds, r) && r in table
  {
    assert (tables + [table])[|tables|] == table;
    forall i | 0 <= i < |tables| ensures r in tables[i] {
      assert (tables + [table])[i] == tables[i];
    }
  }

  ghost predicate AtEnd<K, V>(codec: Codec<K>, visited: seq<Row<K, V>>, cursor: Option<string>) {
    cursor == if visited == [] then None else Some(codec.encode(visited[|visited|-1].key))
  }

  method FetchNext<K(!new), V(!new)>(less: (K, K) -> bool, codec: Codec<K>, table: seq<Row<K, V>>, n: Size,
                                     cursor: Option<string>,
                                     conds: seq<Row<K, V> -> bool>, visited: seq<Row<K, V>>,
                                       ghost tables: seq<seq<Row<K, V>>>)
    returns (visited': seq<Row<K, V>>, cursor': Option<string>, more: bool)
    requires Sound(less, codec, table) && AtEnd(codec, visited, cursor) && Progress(less, tables, conds, visited)
    ensures AtEnd(codec, visited', cursor') && Progress(less, tables + [table], conds, visited')
    ensures more ==> |visited'| > |visited|
    ensures !more ==> forall r :: Steady(tables + [table], conds, r) ==> r in visited'
  {
    hide Progress, Window, Steady, Beyond, AllHold, Ascending;
    ghost var args := Forward(n, cursor, conds);
    NextWindow(less, codec, table, args, visited);
    ProgressStep(less, tables, conds, visited, table, Window(less, codec, table, args), n);
    var reply := SelectConnection(less, codec, table, Forward(n, cursor, conds));
    hide Sound;
    var page := reply.page;
    visited', cursor', more := visited + page.rows, cursor, page.hasNext;
    if page.endCursor.Some? {
      cursor' := page.endCursor;
    }
  }

  /** Forward paging while rows come and go: nothing is visited twice or out of order, and when the
      run ends with a last page, no row that was there all the time has been missed. */
  method PageChangingTable<K(!new), V(!new)>(less: (K, K) -> bool, codec: Codec<K>, tables: seq<seq<Row<K, V>>>,
                                             sizes: seq<Size>,
                                             conds: seq<Row<K, V> -> bool>)
    returns (visited: seq<Row<K, V>>, fetched: nat, more: bool)
    requires |tables| == |sizes| && forall i :: 0 <= i < |tables| ==> Sound(less, codec, tables[i])
    ensures fetched <= |tables| && (more ==> fetched == |tables| && |visited| >= fetched)
    ensures Progress(less, tables[..fetched], conds, visited)
    ensures !more ==> forall r :: Steady(tables[..fetched], conds, r) ==> r in visited
  {
    visited, fetched, more := [], 0, true;
    var cursor := None;
    assert Progress(less, tables[..0], conds, visited);
    hide Progress, Steady, Sound;
    while more && fetched < |tables|
      invariant fetched <= |tables| && (more ==> |visited| >= fetched)
      invariant AtEnd(codec, visited, cursor) && Progress(less, tables[..fetched], conds, visited)
      invariant !more ==> forall r :: Steady(tables[..fetched], conds, r) ==> r in visited
    {
      assert tables[..fetched] + [tables[fetched]] == tables[..fetched+1];
      visited, cursor, more :=
        FetchNext(less, codec, tables[fetched], sizes[fetched], cursor, conds, visited, tables[..fetched]);
      fetched := fetched + 1;
    }
  }

  // ----- key columns -----

  /** Cursors of integer key columns. */
  function IntCodec(): Codec<I64> {
    Codec((n: I64) => Show(n), (s: string) => Some(ReadI64(s)))
  }

  function TextCodec(): Codec<string> {
    Codec((s: string) => s, (s: string) => Some(s))
  }

  lemma {:induction false} CodecsAreFaithful()
    ensures Faithful(IntCodec()) && Faithful(TextCodec())
  {
    forall n: I64 ensures IntCodec().decode(IntCodec().encode(n)) == Some(n) {
      ShowReads(n);
    }
  }
}
