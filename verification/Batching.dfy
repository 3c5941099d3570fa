/** Loading the children of a whole batch of parents at once: the generic batch step (magna-core
    `batch.rs`). */
module Batching {
  import opened Basics

  datatype LoadError = NoParent | LoadFailed(message: string)

  /** The keys that parents ask for, in parent order. */
  function Keys<P, K>(keyOf: P -> Option<K>, parents: seq<P>): seq<K> {
    if parents == [] then [] else
      var n := |parents| - 1;
      Keys(keyOf, parents[..n]) + (if keyOf(parents[n]).Some? then [keyOf(parents[n]).value] else [])
  }

  /** First occurrences, in order. */
  function Deduplicated<K(==)>(keys: seq<K>): seq<K> {
    if keys == [] then [] else
      var n := |keys| - 1;
      var before := Deduplicated(keys[..n]);
      if keys[n] in before then before else before + [keys[n]]
  }

  lemma {:induction false} DeduplicatedIs<K>(keys: seq<K>)
    ensures forall k :: k in Deduplicated(keys) <==> k in keys
    ensures forall i, j :: 0 <= i < j < |Deduplicated(keys)| ==> Deduplicated(keys)[i] != Deduplicated(keys)[j]
  {
    if keys != [] {
      var n := |keys| - 1;
      DeduplicatedIs(keys[..n]);
      assert keys == keys[..n] + [keys[n]];
    }
  }

  function RowsFor<K(==), V>(groupBy: V -> K, rows: seq<V>, key: K): seq<V> {
    if rows == [] then [] else
      var n := |rows| - 1;
      RowsFor(groupBy, rows[..n], key) + (if groupBy(rows[n]) == key then [rows[n]] else [])
  }

  function HasKey<K(==), V>(groupBy: V -> K, key: K): V -> bool {
    v => groupBy(v) == key
  }

  function Itself<V>(): V -> V {
    v => v
  }

  /** The rows of a key are all the rows that are grouped under it, each once and in load order. */
  lemma {:induction false} RowsForAre<K, V>(groupBy: V -> K, rows: seq<V>, key: K)
    ensures IsSelection(rows, HasKey(groupBy, key), Itself(), RowsFor(groupBy, rows, key))
  {
    hide IsSelection;
    var keep, same := HasKey(groupBy, key), Itself<V>();
    if rows == [] {
      EmptySelection(keep, same);
    } else {
      var n := |rows| - 1;
      RowsForAre(groupBy, rows[..n], key);
      var before := RowsFor(groupBy, rows[..n], key);
      SelectionGrows(rows[..n], keep, same, before, rows[n]);
      assert RowsFor(groupBy, rows, key) == if keep(rows[n]) then before + [same(rows[n])] else before;
      assert rows == rows[..n] + [rows[n]];
    }
  }

  lemma {:induction false} KeyIsAsked<P, K>(keyOf: P -> Option<K>, parents: seq<P>, k: K) returns (i: nat)
    requires k in Keys(keyOf, parents)
    ensures i < |parents| && keyOf(parents[i]) == Some(k)
  {
    var n := |parents| - 1;
    if k in Keys(keyOf, parents[..n]) {
      i := KeyIsAsked(keyOf, parents[..n], k);
    } else {
      i := n;
    }
  }

  /** The keys are those of the parents that have one. */
  lemma {:induction false} KeysAre<P, K>(keyOf: P -> Option<K>, parents: seq<P>)
    ensures forall k :: k in Keys(keyOf, parents) <==> exists i :: 0 <= i < |parents| && keyOf(parents[i]) == Some(k)
  {
    hide Keys;
    forall k | k in Keys(keyOf, parents) ensures exists i :: 0 <= i < |parents| && keyOf(parents[i]) == Some(k) {
      var i := KeyIsAsked(keyOf, parents, k);
    }
    forall i | 0 <= i < |parents| && keyOf(parents[i]).Some? ensures keyOf(parents[i]).value in Keys(keyOf, parents) {
      KeysHave(keyOf, parents, i);
    }
  }

  function RowsOf<P, K(==), V>(keyOf: P -> Option<K>, groupBy: V -> K, rows: seq<V>, parent: P): seq<V> {
    if keyOf(parent).None? then [] else RowsFor(groupBy, rows, keyOf(parent).value)
  }

  /** The buckets hold the rows of each key, in load order. */
  ghost predicate AreBuckets<K(!new), V>(groupBy: V -> K, rows: seq<V>, buckets: map<K, seq<V>>) {
    forall k :: RowsFor(groupBy, rows, k) == if k in buckets then buckets[k] else []
  }

  method Bucket<K(!new, ==), V>(groupBy: V -> K, rows: seq<V>) returns (buckets: map<K, seq<V>>)
    ensures AreBuckets(groupBy, rows, buckets)
  {
    buckets := map[];
    for i := 0 to |rows|
      invariant AreBuckets(groupBy, rows[..i], buckets)
    {
      var k := groupBy(rows[i]);
      assert rows[..i+1][..i] == rows[..i];
      buckets := buckets[k := (if k in buckets then buckets[k] else []) + [rows[i]]];
    }
    assert rows[..|rows|] == rows;
  }

  /** Each parent gets the rows of its key, or an empty list; a failed load is passed on. */
  ghost predicate BatchReplies<P, K, V>(parents: seq<P>, keyOf: P -> Option<K>,
                                        load: seq<K> -> Result<seq<V>, LoadError>,
                                        groupBy: V -> K, r: Result<seq<seq<V>>, LoadError>)
  {
    var keys := Deduplicated(Keys(keyOf, parents));
    if keys == [] then r == Ok(seq(|parents|, _ => []))
    else match load(keys)
      case Err(e) => r == Err(e)
      case Ok(rows) =>
        && r.Ok? && |r.value| == |parents|
        && forall i :: 0 <= i < |parents| ==> r.value[i] == RowsOf(keyOf, groupBy, rows, parents[i])
  }

  /** One load on duplicate-free keys, or none when no parent has a key; parent `i` gets the loaded
      rows of its key, in load order. `calls` records the loads. */
  method ExecuteBatch<P, K(!new, ==), V>(parents: Option<seq<P>>, keyOf: P -> Option<K>,
                                         load: seq<K> -> Result<seq<V>, LoadError>, groupBy: V -> K)
    returns (r: Result<seq<seq<V>>, LoadError>, ghost calls: seq<seq<K>>)
    ensures parents.None? ==> r == Err(NoParent)
    ensures parents.Some? ==> BatchReplies(parents.value, keyOf, load, groupBy, r)
    ensures parents.Some? && r.Ok? ==>
      && |r.value| == |parents.value|
      && forall i :: 0 <= i < |parents.value| && keyOf(parents.value[i]).None? ==> r.value[i] == []
    ensures calls == if parents.None? || Deduplicated(Keys(keyOf, parents.value)) == [] then []
      else [Deduplicated(Keys(keyOf, parents.value))]
  {
    hide Keys, Deduplicated, RowsFor;
    calls := [];
    if parents.None? {
      return Err(NoParent), calls;
    }
    var unique := CollectKeys(parents.value, keyOf);
    if unique == [] {
      return Ok(seq(|parents.value|, _ => [])), calls;
    }
    calls := [unique];
    var loaded := load(unique);
    if loaded.Err? {
      return Err(loaded.error), calls;
    }
    var buckets := Bucket(groupBy, loaded.value);
    var values: seq<seq<V>> := [];
    for i := 0 to |parents.value|
      invariant |values| == i
      invariant forall j :: 0 <= j < i ==> values[j] == RowsOf(keyOf, groupBy, loaded.value, parents.value[j])
    {
      var key := keyOf(parents.value[i]);
      values := values + [if key.Some? && key.value in buckets then buckets[key.value] else []];
    }
    r := Ok(values);
  }

  method CollectKeys<P, K(==)>(parents: seq<P>, keyOf: P -> Option<K>) returns (unique: seq<K>)
    ensures unique == Deduplicated(Keys(keyOf, parents))
  {
    unique := [];
    for i := 0 to |parents|
      invariant unique == Deduplicated(Keys(keyOf, parents[..i]))
    {
      assert parents[..i+1][..i] == parents[..i];
      var key := keyOf(parents[i]);
      ghost var before := Keys(keyOf, parents[..i]);
      if key.None? {
        assert Keys(keyOf, parents[..i+1]) == before;
      } else {
        assert (before + [key.value])[..|before|] == before;
        if key.value !in unique {
          unique := unique + [key.value];
        }
      }
    }
    assert parents[..|parents|] == parents;
  }

  /** The loader answers from a table: the rows whose key was asked for, in table order. */
  ghost predicate LoadsFrom<K(!new), V>(load: seq<K> -> Result<seq<V>, LoadError>, groupBy: V -> K, table: seq<V>) {
    forall keys :: load(keys) == Ok(RowsAmong(groupBy, table, keys))
  }

  function RowsAmong<K(==), V>(groupBy: V -> K, rows: seq<V>, keys: seq<K>): seq<V> {
    if rows == [] then [] else
      var n := |rows| - 1;
      RowsAmong(groupBy, rows[..n], keys) + (if groupBy(rows[n]) in keys then [rows[n]] else [])
  }

  lemma {:induction false} AmongOne<K, V>(groupBy: V -> K, rows: seq<V>, keys: seq<K>, key: K)
    requires key in keys
    ensures RowsFor(groupBy, RowsAmong(groupBy, rows, keys), key) == RowsFor(groupBy, rows, key) ==
      RowsAmong(groupBy, rows, [key])
  {
    if rows != [] {
      var n := |rows| - 1;
      AmongOne(groupBy, rows[..n], keys, key);
      var among := RowsAmong(groupBy, rows[..n], keys);
      if groupBy(rows[n]) in keys {
        assert (among + [rows[n]])[..|among|] == among;
      } else {
        assert RowsAmong(groupBy, rows, keys) == among;
      }
    }
  }

  lemma {:induction false} KeysHave<P, K>(keyOf: P -> Option<K>, parents: seq<P>, i: nat)
    requires i < |parents| && keyOf(parents[i]).Some?
    ensures keyOf(parents[i]).value in Keys(keyOf, parents)
  {
    if i < |parents| - 1 {
      KeysHave(keyOf, parents[..|parents|-1], i);
    }
  }

  /** Over a loader that answers from a table, what a parent gets from the batch is what a load for
      its key alone would give it. */
  lemma {:induction false} BatchIsPerParent<P, K(!new), V>(parents: seq<P>, keyOf: P -> Option<K>,
                                                           load: seq<K> -> Result<seq<V>, LoadError>,
                                          groupBy: V -> K, table: seq<V>, i: nat)
    requires LoadsFrom(load, groupBy, table) && i < |parents| && keyOf(parents[i]).Some?
    ensures var key, keys := keyOf(parents[i]).value, Deduplicated(Keys(keyOf, parents));
      keys != [] && load(keys).Ok? && load([key]) == Ok(RowsOf(keyOf, groupBy, load(keys).value, parents[i]))
  {
    var key, keys := keyOf(parents[i]).value, Deduplicated(Keys(keyOf, parents));
    KeysHave(keyOf, parents, i);
    DeduplicatedIs(Keys(keyOf, parents));
    hide Keys, Deduplicated;
    AmongOne(groupBy, table, keys, key);
    assert load(keys) == Ok(RowsAmong(groupBy, table, keys));
  }
}
