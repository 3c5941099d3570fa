/** Values that may be absent, results that may be errors, and sequences. */
module Basics {

  datatype Option<+T> = None | Some(value: T)

  datatype Result<+T, +E> = Ok(value: T) | Err(error: E) {
    predicate IsFailure() {
      Err?
    }
    function PropagateFailure<U>(): Result<U, E>
      requires Err?
    {
      Err(error)
    }
    function Extract(): T
      requires Ok?
    {
      value
    }
  }

  function Listed<T>(list: Option<seq<T>>): seq<T> {
    if list.None? then [] else list.value
  }

  predicate Distinct<T(==)>(s: seq<T>) {
    forall i, j :: 0 <= i < j < |s| ==> s[i] != s[j]
  }

  /** `places` are the indices of the items that are kept, in ascending order. */
  ghost predicate ArePlaces<T>(items: seq<T>, keep: T -> bool, places: seq<nat>) {
    && (forall a, b :: 0 <= a < b < |places| ==> places[a] < places[b])
    && (forall a :: 0 <= a < |places| ==> places[a] < |items| && keep(items[places[a]]))
    && (forall i :: 0 <= i < |items| && keep(items[i]) ==> i in places)
  }

  ghost predicate ShowsAt<T, U>(items: seq<T>, places: seq<nat>, show: T -> U, result: seq<U>) {
    && |result| == |places|
    && forall a :: 0 <= a < |places| ==> places[a] < |items| && result[a] == show(items[places[a]])
  }

  /** `result` shows the items that are kept, each once and in their order. */
  ghost predicate IsSelection<T, U>(items: seq<T>, keep: T -> bool, show: T -> U, result: seq<U>) {
    exists places: seq<nat> :: ArePlaces(items, keep, places) && ShowsAt(items, places, show, result)
  }

  lemma {:induction false} EmptySelection<T, U>(keep: T -> bool, show: T -> U)
    ensures IsSelection([], keep, show, [])
  {
    assert ArePlaces([], keep, []) && ShowsAt([], [], show, []);
  }

  lemma {:induction false} PlacesGrow<T>(items: seq<T>, keep: T -> bool, places: seq<nat>, last: T)
    requires ArePlaces(items, keep, places)
    ensures ArePlaces(items + [last], keep, if keep(last) then places + [|items|] else places)
  {
    var all, more := items + [last], if keep(last) then places + [|items|] else places;
    forall i | 0 <= i < |all| && keep(all[i]) ensures i in more {
      if i < |items| {
        assert items[i] == all[i];
      } else {
        assert more[|places|] == i;
      }
    }
  }

  lemma {:induction false} ShowsMore<T, U>(items: seq<T>, places: seq<nat>, show: T -> U, result: seq<U>, last: T)
    requires ShowsAt(items, places, show, result)
    ensures ShowsAt(items + [last], places, show, result)
    ensures ShowsAt(items + [last], places + [|items|], show, result + [show(last)])
  {
  }

  lemma {:induction false} SelectionGrows<T, U>(items: seq<T>, keep: T -> bool, show: T -> U, result: seq<U>, last: T)
    requires IsSelection(items, keep, show, result)
    ensures IsSelection(items + [last], keep, show, if keep(last) then result + [show(last)] else result)
  {
    var places: seq<nat> :| ArePlaces(items, keep, places) && ShowsAt(items, places, show, result);
    PlacesGrow(items, keep, places, last);
    ShowsMore(items, places, show, result, last);
    hide ArePlaces, ShowsAt;
  }
}
