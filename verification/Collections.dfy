/** Small things shared by all components. */
module Collections {
  datatype Option<+T> = None | Some(value: T)

  ghost predicate Distinct<T(!new)>(xs: seq<T>) { forall i, j :: 0 <= i < j < |xs| ==> xs[i] != xs[j] }

  function Elements(xs: seq<nat>): set<nat> { set x | x in xs }

  function Reverse<T>(xs: seq<T>): (r: seq<T>)
    ensures |r| == |xs| && forall k :: 0 <= k < |xs| ==> r[k] == xs[|xs| - 1 - k]
  {
    if xs == [] then [] else Reverse(xs[1..]) + [xs[0]]
  }

  // Every occurrence of x goes, the rest keeps its order.
  function Remove(xs: seq<nat>, x: nat): (r: seq<nat>)
    ensures forall y :: y in r <==> y in xs && y != x
    ensures Distinct(xs) ==> Distinct(r)
  {
    if xs == [] then []
    else
      assert Distinct(xs) ==> Distinct(xs[1..]) && xs[0] !in xs[1..];
      (if xs[0] == x then [] else [xs[0]]) + Remove(xs[1..], x)
  }
}
