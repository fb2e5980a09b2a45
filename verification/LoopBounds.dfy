/** The loop nest analyzer: which loops enclose which, the bounds recorded for a whole nest and
    kept between queries, and what the induction variable queries answer. */
module LoopBounds {
  import opened Collections
  import opened Ssa

  type Loop = nat

  // The loops of a function in preorder, and the parent of those that have one.
  datatype Forest = Forest(loops: seq<Loop>, parent: map<Loop, Loop>, depth: map<Loop, nat>)

  ghost predicate IsForest(fr: Forest) {
    && Distinct(fr.loops)
    && (forall l <- fr.parent :: l in fr.loops && fr.parent[l] in fr.loops)
    && forall l <- fr.parent :: l in fr.depth && fr.parent[l] in fr.depth && fr.depth[fr.parent[l]] < fr.depth[l]
  }

  function DepthOf(fr: Forest, l: Loop): nat { if l in fr.depth then fr.depth[l] else 0 }

  // The n-th loop around l.
  ghost function Up(fr: Forest, l: Loop, n: nat): Option<Loop>
    decreases n
  {
    if n == 0 then Some(l) else if l in fr.parent then Up(fr, fr.parent[l], n - 1) else None
  }

  ghost predicate Encloses(fr: Forest, outer: Loop, inner: Loop) { exists n: nat :: n > 0 && Up(fr, inner, n) == Some(outer) }

  // ---------- enclosing is a strict order ----------

  lemma {:induction false} UpAdd(fr: Forest, l: Loop, m: nat, n: nat)
    requires Up(fr, l, m).Some?
    ensures Up(fr, l, m + n) == Up(fr, Up(fr, l, m).value, n)
    decreases m
  {
    if m > 0 { UpAdd(fr, fr.parent[l], m - 1, n); }
  }

  lemma {:induction false} UpIsShallower(fr: Forest, l: Loop, n: nat)
    requires IsForest(fr) && n > 0 && Up(fr, l, n).Some?
    ensures DepthOf(fr, Up(fr, l, n).value) < DepthOf(fr, l)
    decreases n
  {
    if n == 1 {
      assert Up(fr, fr.parent[l], 0) == Some(fr.parent[l]);
    } else {
      UpIsShallower(fr, fr.parent[l], n - 1);
    }
  }

  lemma EnclosesTransitive(fr: Forest, a: Loop, b: Loop, c: Loop)
    requires Encloses(fr, a, b) && Encloses(fr, b, c)
    ensures Encloses(fr, a, c)
  {
    var n: nat :| n > 0 && Up(fr, b, n) == Some(a);
    var m: nat :| m > 0 && Up(fr, c, m) == Some(b);
    UpAdd(fr, c, m, n);
  }

  // No loop encloses a loop that encloses it.
  lemma NotBoth(fr: Forest, a: Loop, b: Loop)
    requires IsForest(fr)
    ensures !(Encloses(fr, a, b) && Encloses(fr, b, a)) && !Encloses(fr, a, a)
  {
    if Encloses(fr, a, b) && Encloses(fr, b, a) {
      EnclosesTransitive(fr, a, b, a);
    }
    if Encloses(fr, a, a) {
      var n: nat :| n > 0 && Up(fr, a, n) == Some(a);
      UpIsShallower(fr, a, n);
    }
  }

  method IsOuterLoopOf(fr: Forest, possible: Loop, query: Loop) returns (r: bool)
    requires IsForest(fr)
    ensures r <==> Encloses(fr, possible, query)
  {
    var l := query;
    ghost var n := 0;
    while l in fr.parent
      invariant Up(fr, query, n) == Some(l)
      invariant forall k :: 0 < k <= n ==> Up(fr, query, k) != Some(possible)
      decreases DepthOf(fr, l)
    {
      UpAdd(fr, query, n, 1);
      assert Up(fr, l, 1) == Up(fr, fr.parent[l], 0);
      l := fr.parent[l];
      n := n + 1;
      if possible == l {
        return true;
      }
    }
    forall k: nat | k > n ensures Up(fr, query, k) != Some(possible) {
      UpAdd(fr, query, n, k - n);
    }
    r := false;
  }

  // ---------- the outermost loop of a nest ----------

  ghost predicate IsTop(fr: Forest, top: Loop, l: Loop) { top !in fr.parent && (top == l || Encloses(fr, top, l)) }

  lemma OneTop(fr: Forest, a: Loop, b: Loop, l: Loop)
    requires IsTop(fr, a, l) && IsTop(fr, b, l)
    ensures a == b
  {
    assert Up(fr, l, 0) == Some(l);
    var n: nat :| Up(fr, l, n) == Some(a);
    var m: nat :| Up(fr, l, m) == Some(b);
    if n < m {
      UpAdd(fr, l, n, m - n);
    } else if m < n {
      UpAdd(fr, l, m, n - m);
    }
  }

  method TopLoop(fr: Forest, l: Loop) returns (top: Loop)
    requires IsForest(fr)
    ensures IsTop(fr, top, l)
  {
    top := l;
    ghost var n := 0;
    while top in fr.parent
      invariant Up(fr, l, n) == Some(top) && (n == 0 ==> top == l)
      decreases DepthOf(fr, top)
    {
      UpAdd(fr, l, n, 1);
      assert Up(fr, top, 1) == Up(fr, fr.parent[top], 0);
      top := fr.parent[top];
      n := n + 1;
    }
  }

  // All loops around l, and all loops in it, lie in its nest.
  lemma NestOf(fr: Forest, top: Loop, l: Loop, a: Loop)
    requires IsTop(fr, top, l) && (Encloses(fr, a, l) || Encloses(fr, l, a))
    ensures top == a || Encloses(fr, top, a)
  {
    if Encloses(fr, l, a) {
      if top != l { EnclosesTransitive(fr, top, l, a); }
    } else {
      var n: nat :| n > 0 && Up(fr, l, n) == Some(a);
      assert Up(fr, l, 0) == Some(l);
      var m: nat :| Up(fr, l, m) == Some(top);
      if m < n {
        UpAdd(fr, l, m, n - m);
      } else {
        UpAdd(fr, l, n, m - n);
        assert m > n ==> Encloses(fr, top, a);
      }
    }
  }

  // ---------- the analyzer ----------

  // What scalar evolution has to say about a loop; a loop without an induction variable has none.
  datatype Info = Info(iv: Option<Value>, start: int)

  ghost predicate InNest(fr: Forest, top: Loop, l: Loop) { l in fr.loops && (l == top || Encloses(fr, top, l)) }

  // The records of one nest, computed afresh.
  ghost predicate BoundsOf(fr: Forest, facts: map<Loop, Info>, top: Loop, bounds: map<Loop, Info>) {
    && (forall l :: l in bounds <==> InNest(fr, top, l))
    && forall l <- bounds :: bounds[l] == if l in facts then facts[l] else Info(None, 0)
  }

  // Induction variables are phis of distinct loop headers.
  ghost predicate OwnHeaders(facts: map<Loop, Info>) {
    forall a <- facts, b <- facts :: facts[a].iv.Some? && facts[a].iv == facts[b].iv ==> a == b
  }

  class Analyzer {
    const forest: Forest
    const facts: map<Loop, Info>
    var topL: Option<Loop>
    var bounds: map<Loop, Info>

    ghost predicate Valid()
      reads this
    {
      && IsForest(forest) && OwnHeaders(facts)
      && if topL.Some? then BoundsOf(forest, facts, topL.value, bounds) else bounds == map[]
    }

    constructor (forest: Forest, facts: map<Loop, Info>)
      requires IsForest(forest) && OwnHeaders(facts)
      ensures Valid() && this.forest == forest && this.facts == facts && topL == None
    {
      this.forest, this.facts, topL, bounds := forest, facts, None, map[];
    }

    // Whatever was analyzed before, the records are those of the nest of cur.
    method Analyze(cur: Loop)
      requires Valid() && cur in forest.loops
      modifies this
      ensures Valid() && topL.Some? && IsTop(forest, topL.value, cur)
      ensures BoundsOf(forest, facts, topL.value, bounds)
      ensures old(topL) == topL ==> bounds == old(bounds)
    {
      var top := TopLoop(forest, cur);
      if topL == Some(top) {
        return;
      }
      topL, bounds := Some(top), map[];
      var n := 0;
      while n < |forest.loops|
        invariant n <= |forest.loops| && topL == Some(top)
        invariant forall l :: l in bounds <==> l in forest.loops[..n] && (l == top || Encloses(forest, top, l))
        invariant forall l <- bounds :: bounds[l] == if l in facts then facts[l] else Info(None, 0)
      {
        var l := forest.loops[n];
        assert forest.loops[..n + 1] == forest.loops[..n] + [l];
        var inside := IsOuterLoopOf(forest, top, l);
        if l == top || inside {
          bounds := bounds[l := if l in facts then facts[l] else Info(None, 0)];
        }
        n := n + 1;
      }
      assert forest.loops[..n] == forest.loops;
    }

    // The map is visited in any order.
    method IsValueOuterLoopInductionVariable(v: Value, l: Loop) returns (r: bool)
      requires Valid()
      ensures r <==> exists a <- bounds :: bounds[a].iv == Some(v) && Encloses(forest, a, l)
    {
      var rest := bounds.Keys;
      while rest != {}
        invariant rest <= bounds.Keys && forall a <- bounds.Keys - rest :: bounds[a].iv != Some(v)
        decreases |rest|
      {
        var a :| a in rest;
        if bounds[a].iv == Some(v) {
          r := IsOuterLoopOf(forest, a, l);
          SameOwner(a, v);
          return;
        }
        rest := rest - {a};
      }
      r := false;
    }

    method IsValueInnerLoopInductionVariable(v: Value, l: Loop) returns (r: bool)
      requires Valid()
      ensures r <==> exists a <- bounds :: bounds[a].iv == Some(v) && Encloses(forest, l, a)
    {
      var rest := bounds.Keys;
      while rest != {}
        invariant rest <= bounds.Keys && forall a <- bounds.Keys - rest :: bounds[a].iv != Some(v)
        decreases |rest|
      {
        var a :| a in rest;
        if bounds[a].iv == Some(v) {
          r := IsOuterLoopOf(forest, l, a);
          SameOwner(a, v);
          return;
        }
        rest := rest - {a};
      }
      r := false;
    }

    lemma SameOwner(a: Loop, v: Value)
      requires Valid() && a in bounds && bounds[a].iv == Some(v)
      ensures forall b <- bounds :: bounds[b].iv == Some(v) ==> b == a
    {
    }
  }

  // ---------- what the queries mean ----------

  // For a loop of the analyzed nest, the records miss nothing: v is found as an outer induction
  // variable exactly when it is one of some loop around l, analyzed or not.
  lemma OuterIsExact(fr: Forest, facts: map<Loop, Info>, top: Loop, bounds: map<Loop, Info>, v: Value, l: Loop)
    requires IsForest(fr) && BoundsOf(fr, facts, top, bounds) && IsTop(fr, top, l)
    ensures (exists a <- bounds :: bounds[a].iv == Some(v) && Encloses(fr, a, l)) <==>
            exists a <- facts :: a in fr.loops && facts[a].iv == Some(v) && Encloses(fr, a, l)
    ensures (exists a <- bounds :: bounds[a].iv == Some(v) && Encloses(fr, l, a)) <==>
            exists a <- facts :: a in fr.loops && facts[a].iv == Some(v) && Encloses(fr, l, a)
  {
    hide Encloses, IsTop;
    forall a | a in facts && a in fr.loops && facts[a].iv == Some(v) && (Encloses(fr, a, l) || Encloses(fr, l, a)) ensures a in bounds {
      NestOf(fr, top, l, a);
    }
  }

  // No value is the induction variable of a loop around l and of a loop in it.
  lemma NotOuterAndInner(fr: Forest, facts: map<Loop, Info>, top: Loop, bounds: map<Loop, Info>, v: Value, l: Loop)
    requires IsForest(fr) && OwnHeaders(facts) && BoundsOf(fr, facts, top, bounds)
    ensures !((exists a <- bounds :: bounds[a].iv == Some(v) && Encloses(fr, a, l))
              && (exists a <- bounds :: bounds[a].iv == Some(v) && Encloses(fr, l, a)))
  {
    hide Encloses;
    forall a, b | a in bounds && b in bounds && bounds[a].iv == Some(v) && bounds[b].iv == Some(v)
      ensures !(Encloses(fr, a, l) && Encloses(fr, l, b))
    {
      assert a == b;
      NotBoth(fr, a, l);
    }
  }
}
