/**
 * The first-match search shared by `Array.prototype.find` on the client and
 * `Model.findOne(filter)` on the server. `find` returns the first element
 * that satisfies the filter. `findOne` returns some matching document in the
 * database's natural order; the model fixes that choice as the first match
 * in the collection's sequence order.
 */
module Lookup {
  import opened Wrappers

  /** `xs[i]` is the first element that `keep` accepts. */
  predicate FirstWhere<T>(xs: seq<T>, keep: T -> bool, i: int) {
    && 0 <= i < |xs|
    && keep(xs[i])
    && forall j :: 0 <= j < i ==> !keep(xs[j])
  }

  /** The first element `keep` accepts, and nothing exactly when it accepts none. */
  function Find<T(==)>(xs: seq<T>, keep: T -> bool): (r: Option<T>)
    ensures r.Some? ==> r.value in xs && keep(r.value)
    ensures r.Some? ==> exists i :: FirstWhere(xs, keep, i) && xs[i] == r.value
    ensures r.None? <==> forall i :: 0 <= i < |xs| ==> !keep(xs[i])
  {
    if xs == [] then None
    else if keep(xs[0]) then
      assert FirstWhere(xs, keep, 0);
      Some(xs[0])
    else
      var r := Find(xs[1..], keep);
      if r.Some? then
        var i :| FirstWhere(xs[1..], keep, i) && xs[1..][i] == r.value;
        assert forall j :: 1 <= j < i + 1 ==> xs[j] == xs[1..][j - 1];
        assert FirstWhere(xs, keep, i + 1);
        r
      else r
  }

  /** An element appended after a sequence with no match is the one found. */
  lemma {:induction false} FindAppend<T>(xs: seq<T>, x: T, keep: T -> bool)
    requires Find(xs, keep).None? && keep(x)
    ensures Find(xs + [x], keep) == Some(x)
  {
    if xs != [] {
      assert (xs + [x])[1..] == xs[1..] + [x];
      FindAppend(xs[1..], x, keep);
    } else {
      assert xs + [x] == [x];
    }
  }
}
