/** findStackAllocatable: the inputs that become stack slots of the new function, and the
    initial values listed beside them. */
module StackAllocas {
  import opened Collections
  import opened Ssa
  import opened InputsOutputs
  import opened LoopBounds

  // What the analyses say about a value: used only in conditions of the loop nest, induction
  // variable of an outer loop, of an inner loop; and the constant it starts from, if any.
  datatype Loops = Loops(conditional: set<Value>, outer: set<Value>, inner: set<Value>, start: map<Value, int>)

  const UNKNOWN_START := 354
  const CONDITION_START := 5

  // The initial values pushed for v, in the order of the three tests.
  function InitsFor(q: Loops, v: Value): seq<Option<int>> {
    (if v in q.inner then [None] else [])
    + (if v in q.outer then [Some(if v in q.start then q.start[v] else UNKNOWN_START)] else [])
    + (if v in q.conditional then [Some(CONDITION_START)] else [])
  }

  function AddAllocas(acc: seq<Value>, inputs: seq<Value>, q: Loops): seq<Value> {
    if inputs == [] then acc
    else
      var (prior, v) := (AddAllocas(acc, inputs[..|inputs| - 1], q), inputs[|inputs| - 1]);
      if InitsFor(q, v) != [] then Insert(prior, v) else prior
  }

  function InitsOf(inputs: seq<Value>, q: Loops): seq<Option<int>> {
    if inputs == [] then [] else InitsOf(inputs[..|inputs| - 1], q) + InitsFor(q, inputs[|inputs| - 1])
  }

  // The asserted exclusions.
  ghost predicate Exclusive(inputs: seq<Value>, q: Loops) {
    forall v <- inputs :: v in q.conditional ==> v !in q.outer && v !in q.inner
  }

  method FindStackAllocatable(inputs: seq<Value>, q: Loops, allocas0: seq<Value>, inits0: seq<Option<int>>)
    returns (allocas: seq<Value>, inits: seq<Option<int>>)
    requires Exclusive(inputs, q)
    ensures allocas == AddAllocas(allocas0, inputs, q) && inits == inits0 + InitsOf(inputs, q)
  {
    hide AddAllocas, InitsOf;
    allocas, inits := allocas0, inits0;
    NoneScanned(allocas0, inputs, q);
    var n := 0;
    while n < |inputs|
      invariant n <= |inputs|
      invariant allocas == AddAllocas(allocas0, inputs[..n], q) && inits == inits0 + InitsOf(inputs[..n], q)
    {
      OneScanned(allocas0, inputs, q, n);
      var v := inputs[n];
      ghost var before := inits;
      var (cond, outer, inner) := (v in q.conditional, v in q.outer, v in q.inner);
      assert !(cond && outer) && !(cond && inner);
      if inner {
        inits := inits + [None];
        allocas := Insert(allocas, v);
      }
      if outer {
        inits := inits + [Some(if v in q.start then q.start[v] else UNKNOWN_START)];
        allocas := Insert(allocas, v);
      }
      if cond {
        inits := inits + [Some(CONDITION_START)];
        allocas := Insert(allocas, v);
      }
      assert inits == before + InitsFor(q, v);
      n := n + 1;
    }
    assert inputs[..n] == inputs;
  }

  lemma NoneScanned(acc: seq<Value>, inputs: seq<Value>, q: Loops)
    ensures AddAllocas(acc, inputs[..0], q) == acc && InitsOf(inputs[..0], q) == []
  {
  }

  lemma OneScanned(acc: seq<Value>, inputs: seq<Value>, q: Loops, n: nat)
    requires n < |inputs|
    ensures AddAllocas(acc, inputs[..n + 1], q) ==
            if InitsFor(q, inputs[n]) != [] then Insert(AddAllocas(acc, inputs[..n], q), inputs[n]) else AddAllocas(acc, inputs[..n], q)
    ensures InitsOf(inputs[..n + 1], q) == InitsOf(inputs[..n], q) + InitsFor(q, inputs[n])
  {
    hide InitsFor, Insert;
    assert inputs[..n + 1][..n] == inputs[..n];
  }

  // ---------- alignment ----------

  ghost predicate OneCase(inputs: seq<Value>, q: Loops) { forall v <- inputs :: |InitsFor(q, v)| <= 1 }

  lemma {:induction false} AllocasAre(inputs: seq<Value>, q: Loops)
    ensures forall v :: v in AddAllocas([], inputs, q) <==> v in inputs && InitsFor(q, v) != []
  {
    hide InitsFor;
    if inputs != [] {
      AllocasAre(inputs[..|inputs| - 1], q);
      assert inputs == inputs[..|inputs| - 1] + [inputs[|inputs| - 1]];
    }
  }

  // On a fresh extractor there are never more slots than initial values, and the two lists have
  // one length exactly when no input is of two kinds; then they are aligned.
  lemma {:induction false} AlignedIff(inputs: seq<Value>, q: Loops)
    requires Distinct(inputs)
    ensures Distinct(AddAllocas([], inputs, q)) && |AddAllocas([], inputs, q)| <= |InitsOf(inputs, q)|
    ensures |AddAllocas([], inputs, q)| == |InitsOf(inputs, q)| <==> OneCase(inputs, q)
    ensures OneCase(inputs, q) ==>
              forall k :: 0 <= k < |AddAllocas([], inputs, q)| && k < |InitsOf(inputs, q)| ==>
                InitsFor(q, AddAllocas([], inputs, q)[k]) == [InitsOf(inputs, q)[k]]
  {
    hide InitsFor;
    if inputs != [] {
      var (rest, v) := (inputs[..|inputs| - 1], inputs[|inputs| - 1]);
      assert inputs == rest + [v] && v !in rest;
      AlignedIff(rest, q);
      AllocasAre(rest, q);
      assert OneCase(inputs, q) <==> OneCase(rest, q) && |InitsFor(q, v)| <= 1;
      if |InitsFor(q, v)| == 1 { assert InitsFor(q, v) == [InitsFor(q, v)[0]]; }
    }
  }

  // The slots are the inputs of the three kinds, and the initial value of each is that of its kind.
  lemma SlotsHave(inputs: seq<Value>, q: Loops)
    requires Distinct(inputs)
    requires forall v <- inputs :: !(v in q.inner && v in q.outer) && !(v in q.inner && v in q.conditional) && !(v in q.outer && v in q.conditional)
    ensures var (allocas, inits) := (AddAllocas([], inputs, q), InitsOf(inputs, q));
            && (forall v :: v in allocas <==> v in inputs && (v in q.inner || v in q.outer || v in q.conditional))
            && |inits| == |allocas|
            && forall k :: 0 <= k < |allocas| && k < |inits| ==>
                 && (allocas[k] in q.inner ==> inits[k] == None)
                 && (allocas[k] in q.outer ==> inits[k] == Some(if allocas[k] in q.start then q.start[allocas[k]] else 354))
                 && (allocas[k] in q.conditional ==> inits[k] == Some(5))
  {
    hide AddAllocas, InitsOf;
    AlignedIff(inputs, q);
    AllocasAre(inputs, q);
    forall v | v in inputs
      ensures |InitsFor(q, v)| <= 1
      ensures v in q.inner ==> InitsFor(q, v) == [None]
      ensures v in q.outer ==> InitsFor(q, v) == [Some(if v in q.start then q.start[v] else 354)]
      ensures v in q.conditional ==> InitsFor(q, v) == [Some(5)]
    {
    }
    var (allocas, inits) := (AddAllocas([], inputs, q), InitsOf(inputs, q));
    forall k | 0 <= k < |allocas| && k < |inits| ensures allocas[k] in inputs && InitsFor(q, allocas[k]) == [inits[k]] {}
  }

  // With the exclusions, the lists are aligned exactly when no input is the induction variable
  // of an outer and of an inner loop.
  lemma AlignedUnderExclusion(inputs: seq<Value>, q: Loops)
    requires Distinct(inputs) && Exclusive(inputs, q)
    ensures |AddAllocas([], inputs, q)| == |InitsOf(inputs, q)| <==> forall v <- inputs :: !(v in q.outer && v in q.inner)
  {
    AlignedIff(inputs, q);
    forall v | v in inputs ensures |InitsFor(q, v)| <= 1 <==> !(v in q.outer && v in q.inner) {}
  }

  // A second run finds every slot present and pushes every initial value again, so it leaves
  // the lists aligned only when there is nothing to allocate.
  lemma {:induction false} NothingNew(acc: seq<Value>, inputs: seq<Value>, q: Loops)
    requires forall v <- inputs :: InitsFor(q, v) != [] ==> v in acc
    ensures AddAllocas(acc, inputs, q) == acc
  {
    hide InitsFor;
    if inputs != [] {
      assert forall v <- inputs[..|inputs| - 1] :: v in inputs;
      NothingNew(acc, inputs[..|inputs| - 1], q);
    }
  }

  lemma SecondRunMisaligns(inputs: seq<Value>, q: Loops)
    requires Distinct(inputs) && OneCase(inputs, q)
    ensures var (allocas, inits) := (AddAllocas([], inputs, q), InitsOf(inputs, q));
            |AddAllocas(allocas, inputs, q)| == |inits + InitsOf(inputs, q)| <==> allocas == []
  {
    AlignedIff(inputs, q);
    AllocasAre(inputs, q);
    NothingNew(AddAllocas([], inputs, q), inputs, q);
  }

  // The answers of the loop nest analyzer for loop l.
  ghost predicate AnswersFor(q: Loops, inputs: seq<Value>, fr: Forest, bounds: map<Loop, Info>, l: Loop) {
    forall v <- inputs ::
      && (v in q.outer <==> exists a <- bounds :: bounds[a].iv == Some(v) && Encloses(fr, a, l))
      && (v in q.inner <==> exists a <- bounds :: bounds[a].iv == Some(v) && Encloses(fr, l, a))
  }

  // The same, by the facts about all loops of the function.
  ghost predicate ByFacts(q: Loops, inputs: seq<Value>, fr: Forest, facts: map<Loop, Info>, l: Loop) {
    forall v <- inputs ::
      && (v in q.outer <==> exists a <- facts :: a in fr.loops && facts[a].iv == Some(v) && Encloses(fr, a, l))
      && (v in q.inner <==> exists a <- facts :: a in fr.loops && facts[a].iv == Some(v) && Encloses(fr, l, a))
  }

  // The records of the nest of l answer for l as the facts do.
  lemma FactsAnswer(q: Loops, inputs: seq<Value>, fr: Forest, facts: map<Loop, Info>, top: Loop, bounds: map<Loop, Info>, l: Loop)
    requires IsForest(fr) && BoundsOf(fr, facts, top, bounds) && IsTop(fr, top, l)
    ensures AnswersFor(q, inputs, fr, bounds, l) <==> ByFacts(q, inputs, fr, facts, l)
  {
    hide Encloses, BoundsOf, IsTop;
    forall v ensures (exists a <- bounds :: bounds[a].iv == Some(v) && Encloses(fr, a, l)) <==>
                     (exists a <- facts :: a in fr.loops && facts[a].iv == Some(v) && Encloses(fr, a, l))
             ensures (exists a <- bounds :: bounds[a].iv == Some(v) && Encloses(fr, l, a)) <==>
                     (exists a <- facts :: a in fr.loops && facts[a].iv == Some(v) && Encloses(fr, l, a)) {
      OuterIsExact(fr, facts, top, bounds, v, l);
    }
  }

  // One loop nest cannot put an input in both kinds, so one preparation keeps the lists aligned.
  lemma NestKeepsAligned(inputs: seq<Value>, q: Loops, fr: Forest, facts: map<Loop, Info>, top: Loop, bounds: map<Loop, Info>, l: Loop)
    requires Distinct(inputs) && Exclusive(inputs, q)
    requires IsForest(fr) && OwnHeaders(facts) && BoundsOf(fr, facts, top, bounds) && AnswersFor(q, inputs, fr, bounds, l)
    ensures |AddAllocas([], inputs, q)| == |InitsOf(inputs, q)|
    ensures forall k :: 0 <= k < |AddAllocas([], inputs, q)| && k < |InitsOf(inputs, q)| ==>
              InitsFor(q, AddAllocas([], inputs, q)[k]) == [InitsOf(inputs, q)[k]]
  {
    hide InitsFor, AddAllocas, InitsOf, Encloses, BoundsOf;
    forall v | v in inputs ensures !(v in q.outer && v in q.inner) {
      NotOuterAndInner(fr, facts, top, bounds, v, l);
    }
    AlignedUnderExclusion(inputs, q);
    AlignedIff(inputs, q);
  }
}
