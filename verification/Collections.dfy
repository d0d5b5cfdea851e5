/** Optional values and lists without repetition. */
module Collections {

  datatype Option<+T> = None | Some(value: T)

  predicate NoDuplicates<T(==)>(s: seq<T>) {
    forall i, j :: 0 <= i < j < |s| ==> s[i] != s[j]
  }

  predicate Rising(at: seq<nat>) {
    forall i, j :: 0 <= i < j < |at| ==> at[i] < at[j]
  }

  /** `order` is the elements of `ids`, each once. */
  predicate Enumerates<T(==)>(order: seq<T>, ids: set<T>) {
    && (forall x :: x in order ==> x in ids)
    && (forall x :: x in ids ==> x in order)
    && NoDuplicates(order)
  }

  function Range<T>(s: seq<T>): set<T> {
    set x | x in s
  }

  lemma {:induction false} EnumerationExists<T>(ids: set<T>) returns (order: seq<T>)
    ensures Enumerates(order, ids)
  {
    order := [];
    var rest := ids;
    while rest != {}
      invariant rest <= ids && Enumerates(order, ids - rest)
    {
      var x :| x in rest;
      order, rest := order + [x], rest - {x};
    }
  }

  lemma {:induction false} EnumerationLength<T>(order: seq<T>, ids: set<T>)
    requires Enumerates(order, ids)
    ensures |order| == |ids|
    decreases |order|
  {
    if order == [] {
      assert ids == {};
    } else {
      var n := |order| - 1;
      EnumerationFront(order, ids);
      EnumerationLength(order[..n], ids - {order[n]});
    }
  }

  lemma {:induction false} EnumerationFront<T>(order: seq<T>, ids: set<T>)
    requires Enumerates(order, ids) && order != []
    ensures Enumerates(order[..|order| - 1], ids - {order[|order| - 1]})
  {
    var n := |order| - 1;
    forall x | x in order[..n] ensures x in ids - {order[n]} {
      var j :| 0 <= j < n && order[j] == x;
    }
    forall x | x in ids - {order[n]} ensures x in order[..n] {
      var j :| 0 <= j < |order| && order[j] == x;
      assert order[..n][j] == x;
    }
  }
}
