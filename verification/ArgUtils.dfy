/** The order of the inputs and the three parallel lists that describe the arguments of the
    extracted function. */
module ArgUtils {
  import opened Collections
  import opened Ssa
  import opened Partition

  // ---------- ReorderInputs ----------

  predicate IsIterator(info: IteratorInfo, v: Value) { v.Inst? && info(v.id) }

  function FirstIterator(inputs: seq<Value>, info: IteratorInfo): (k: nat)
    ensures k <= |inputs| && (k < |inputs| ==> inputs[k].Inst? && info(inputs[k].id))
    ensures forall j :: 0 <= j < k && inputs[j].Inst? ==> !info(inputs[j].id)
  {
    if inputs == [] || IsIterator(info, inputs[0]) then 0 else 1 + FirstIterator(inputs[1..], info)
  }

  function Without(xs: seq<Value>, k: nat): seq<Value>
    requires k < |xs|
  {
    xs[..k] + xs[k + 1..]
  }

  // The first iterator moves to the front.
  function Reordered(inputs: seq<Value>, info: IteratorInfo): seq<Value> {
    var k := FirstIterator(inputs, info);
    if k < |inputs| then [inputs[k]] + Without(inputs, k) else inputs
  }

  // The search runs past the end when no input is an iterator, so there has to be one.
  method ReorderInputs(inputs0: seq<Value>, info: IteratorInfo) returns (inputs: seq<Value>, changed: bool)
    requires Distinct(inputs0) && (inputs0 != [] ==> exists v <- inputs0 :: IsIterator(info, v))
    ensures inputs == Reordered(inputs0, info)
    ensures changed <==> inputs != inputs0
  {
    inputs, changed := inputs0, false;
    if |inputs0| == 0 {
      return;
    }
    var found := FirstIterator(inputs0, info);
    if found != 0 {
      var tmp := inputs0[found];
      var rest := Without(inputs0, found);
      rest := Reverse(rest);
      rest := rest + [tmp];
      rest := Reverse(rest);
      assert rest == [tmp] + Without(inputs0, found);
      inputs, changed := rest, true;
      assert inputs[0] != inputs0[0];
    } else {
      assert inputs0 == [inputs0[0]] + Without(inputs0, 0);
    }
  }

  lemma FrontSame(xs: seq<Value>, k: nat)
    requires k < |xs|
    ensures multiset([xs[k]] + Without(xs, k)) == multiset(xs)
  {
    assert xs == xs[..k] + [xs[k]] + xs[k + 1..];
  }

  lemma FrontDistinct(xs: seq<Value>, k: nat)
    requires k < |xs| && Distinct(xs)
    ensures Distinct([xs[k]] + Without(xs, k))
  {
    var r := [xs[k]] + Without(xs, k);
    forall i, j | 0 <= i < j < |r| ensures r[i] != r[j] {
      assert r[j] == xs[if j <= k then j - 1 else j];
      assert r[i] == xs[if i == 0 then k else if i <= k then i - 1 else i];
    }
  }

  // The same inputs, each once.
  lemma ReorderedSame(inputs: seq<Value>, info: IteratorInfo)
    ensures multiset(Reordered(inputs, info)) == multiset(inputs)
    ensures Distinct(inputs) ==> Distinct(Reordered(inputs, info))
    ensures forall v :: v in Reordered(inputs, info) <==> v in inputs
  {
    hide FirstIterator, Without, Distinct;
    var k := FirstIterator(inputs, info);
    if k < |inputs| {
      FrontSame(inputs, k);
      if Distinct(inputs) { FrontDistinct(inputs, k); }
    }
    forall v ensures v in Reordered(inputs, info) <==> v in inputs {
      assert v in multiset(inputs) <==> v in inputs;
    }
  }

  // ---------- the pure inputs ----------

  // The values to keep, in their order.
  function Keeping(inputs: seq<Value>, keep: set<Value>): seq<Value> {
    if inputs == [] then []
    else
      var (prior, v) := (Keeping(inputs[..|inputs| - 1], keep), inputs[|inputs| - 1]);
      if v in keep then prior + [v] else prior
  }

  lemma {:induction false} KeepingConcat(a: seq<Value>, b: seq<Value>, keep: set<Value>)
    ensures Keeping(a + b, keep) == Keeping(a, keep) + Keeping(b, keep)
  {
    if b == [] {
      assert a + b == a;
    } else {
      assert (a + b)[..|a + b| - 1] == a + b[..|b| - 1];
      KeepingConcat(a, b[..|b| - 1], keep);
    }
  }

  lemma {:induction false} KeepingHas(inputs: seq<Value>, keep: set<Value>)
    ensures forall v :: v in Keeping(inputs, keep) <==> v in inputs && v in keep
    ensures Distinct(inputs) ==> Distinct(Keeping(inputs, keep))
  {
    if inputs != [] {
      KeepingHas(inputs[..|inputs| - 1], keep);
      assert inputs == inputs[..|inputs| - 1] + [inputs[|inputs| - 1]];
    }
  }

  lemma KeepingOne(x: Value, keep: set<Value>)
    ensures Keeping([x], keep) == if x in keep then [x] else []
  {
    assert [x][..0] == [];
  }

  lemma {:induction false} KeepingLess(xs: seq<Value>, keep: set<Value>, x: Value)
    requires x !in xs
    ensures Keeping(xs, keep - {x}) == Keeping(xs, keep)
  {
    if xs != [] { KeepingLess(xs[..|xs| - 1], keep, x); }
  }

  // Of the inputs to pass as they are, the iterator becomes argument 0 and the others keep
  // their order; if it is the only iterator, no other argument is one.
  lemma IteratorFirst(inputs: seq<Value>, info: IteratorInfo, pure: set<Value>)
    requires Distinct(inputs) && FirstIterator(inputs, info) < |inputs| && inputs[FirstIterator(inputs, info)] in pure
    ensures var x := inputs[FirstIterator(inputs, info)];
            && Keeping(Reordered(inputs, info), pure) == [x] + Keeping(inputs, pure - {x})
            && x.Inst? && info(x.id)
            && ((forall v <- inputs :: v.Inst? && info(v.id) ==> v == x) ==>
                  forall v <- Keeping(inputs, pure - {x}) :: v.Inst? ==> !info(v.id))
  {
    hide Keeping, Distinct;
    var k := FirstIterator(inputs, info);
    var x := inputs[k];
    var (a, b) := (inputs[..k], inputs[k + 1..]);
    assert inputs == a + [x] + b;
    OnceInside(inputs, k);
    KeepingMoved(a, x, b, pure);
    KeepingHas(inputs, pure - {x});
  }

  lemma OnceInside(xs: seq<Value>, k: nat)
    requires Distinct(xs) && k < |xs|
    ensures xs[k] !in xs[..k] && xs[k] !in xs[k + 1..]
  {
  }

  lemma KeepingMoved(a: seq<Value>, x: Value, b: seq<Value>, keep: set<Value>)
    requires x in keep && x !in a && x !in b
    ensures Keeping([x] + (a + b), keep) == [x] + Keeping(a + [x] + b, keep - {x})
  {
    hide Keeping;
    KeepingConcat([x], a + b, keep);
    KeepingConcat(a, b, keep);
    KeepingConcat(a + [x], b, keep - {x});
    KeepingConcat(a, [x], keep - {x});
    KeepingOne(x, keep);
    KeepingOne(x, keep - {x});
    KeepingLess(a, keep, x);
    KeepingLess(b, keep, x);
  }

  // ---------- directions and variance ----------

  datatype ArgDirection = Inbound | Outbound | Both

  // Which values are pointers, and which are read and written if that is known.
  datatype Accesses = Accesses(read: set<Value>, written: set<Value>)

  function InputDirection(v: Value, pointers: set<Value>, mai: Option<Accesses>): (r: ArgDirection)
    ensures r == Inbound <==> v !in pointers || (mai.Some? && v !in mai.value.written)
    ensures r == Outbound <==> v in pointers && mai.Some? && v in mai.value.written && v !in mai.value.read
  {
    if v !in pointers then Inbound
    else if mai.None? then Both
    else if v !in mai.value.written then Inbound
    else if v in mai.value.read then Both else Outbound
  }

  function OutputDirection(v: Value, mai: Option<Accesses>): (r: ArgDirection)
    ensures r == Outbound <==> mai.Some? && v !in mai.value.read
    ensures r != Inbound
  {
    if mai.None? || v in mai.value.read then Both else Outbound
  }

  const ITERATOR_VARIANT := 2

  // The argument with number k of a function that takes these inputs and then these outputs.
  function Argument(inputs: seq<Value>, outputs: seq<Value>, k: nat): Value
    requires k < |inputs| + |outputs|
  {
    if k < |inputs| then inputs[k] else outputs[k - |inputs|]
  }

  method GenerateArgDirection(inputs: seq<Value>, outputs: seq<Value>, pointers: set<Value>, mai: Option<Accesses>)
    returns (dirs: seq<ArgDirection>)
    ensures |dirs| == |inputs| + |outputs|
    ensures forall k :: 0 <= k < |dirs| ==>
              dirs[k] == if k < |inputs| then InputDirection(Argument(inputs, outputs, k), pointers, mai)
                         else OutputDirection(Argument(inputs, outputs, k), mai)
  {
    dirs := [];
    var n := 0;
    while n < |inputs|
      invariant n <= |inputs| && |dirs| == n
      invariant forall k :: 0 <= k < n ==> dirs[k] == InputDirection(inputs[k], pointers, mai)
    {
      var v := inputs[n];
      n := n + 1;
      if v !in pointers {
        dirs := dirs + [Inbound];
        continue;
      }
      if mai.Some? && v in pointers {
        var dir := Inbound;
        if v in mai.value.written {
          dir := Outbound;
          if v in mai.value.read {
            dir := Both;
          }
        }
        dirs := dirs + [dir];
      } else {
        dirs := dirs + [Both];
      }
    }
    n := 0;
    while n < |outputs|
      invariant n <= |outputs| && |dirs| == |inputs| + n
      invariant forall k :: 0 <= k < |inputs| ==> dirs[k] == InputDirection(inputs[k], pointers, mai)
      invariant forall k :: |inputs| <= k < |inputs| + n ==> dirs[k] == OutputDirection(outputs[k - |inputs|], mai)
    {
      var v := outputs[n];
      n := n + 1;
      if mai.None? {
        dirs := dirs + [Both];
      } else {
        if v in mai.value.read {
          dirs := dirs + [Both];
          continue;
        }
        dirs := dirs + [Outbound];
      }
    }
  }

  method GenerateArgIteratorVariance(inputs: seq<Value>, outputs: seq<Value>, disposition: map<Value, int>)
    returns (variance: seq<bool>)
    ensures |variance| == |inputs| + |outputs|
    ensures forall k :: 0 <= k < |variance| ==>
              (variance[k] <==> Argument(inputs, outputs, k) in disposition
                                && disposition[Argument(inputs, outputs, k)] == ITERATOR_VARIANT)
  {
    variance := [];
    var n := 0;
    while n < |inputs|
      invariant n <= |inputs| && |variance| == n
      invariant forall k :: 0 <= k < n ==> (variance[k] <==> inputs[k] in disposition && disposition[inputs[k]] == ITERATOR_VARIANT)
    {
      variance := variance + [inputs[n] in disposition && disposition[inputs[n]] == ITERATOR_VARIANT];
      n := n + 1;
    }
    n := 0;
    while n < |outputs|
      invariant n <= |outputs| && |variance| == |inputs| + n
      invariant forall k :: 0 <= k < |inputs| ==> (variance[k] <==> inputs[k] in disposition && disposition[inputs[k]] == ITERATOR_VARIANT)
      invariant forall k :: |inputs| <= k < |inputs| + n ==>
                  (variance[k] <==> outputs[k - |inputs|] in disposition && disposition[outputs[k - |inputs|]] == ITERATOR_VARIANT)
    {
      variance := variance + [outputs[n] in disposition && disposition[outputs[n]] == ITERATOR_VARIANT];
      n := n + 1;
    }
  }
}
