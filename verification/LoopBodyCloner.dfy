/** cloneLoop: the chosen blocks are put in reverse post order, extracted, and the arguments of
    the new function described. */
module LoopBodyCloners {
  import opened Collections
  import opened Ssa
  import opened Partition
  import opened PayloadTree
  import opened Selector
  import opened InputsOutputs
  import opened InputOutputMap
  import opened StackAllocas
  import opened LoopBounds
  import opened ArgUtils
  import opened Sever
  import Clone
  import opened CloneCall
  import opened CloneStages
  import opened ExtractorRegion
  import opened CodeExtractors
  import opened Extraction
  import opened Closure
  import opened StaleInputs
  import opened Delivery

  // ---------- reverse post order ----------

  // The chosen blocks in the order of the traversal.
  function InOrder(rpo: seq<Label>, chosen: seq<Label>): seq<Label> {
    if rpo == [] then []
    else InOrder(rpo[..|rpo| - 1], chosen) + if rpo[|rpo| - 1] in chosen then [rpo[|rpo| - 1]] else []
  }

  method Reorder(rpo: seq<Label>, initial: seq<Label>) returns (blocks: seq<Label>)
    ensures blocks == InOrder(rpo, initial)
  {
    blocks := [];
    var n := 0;
    while n < |rpo|
      invariant n <= |rpo| && blocks == InOrder(rpo[..n], initial)
    {
      assert rpo[..n + 1][..n] == rpo[..n];
      if rpo[n] in initial {
        blocks := blocks + [rpo[n]];
      }
      n := n + 1;
    }
    assert rpo[..n] == rpo;
  }

  // The same blocks, each once, in increasing order of the traversal.
  lemma {:induction false} InOrderIs(rpo: seq<Label>, chosen: seq<Label>)
    requires Distinct(rpo)
    ensures Distinct(InOrder(rpo, chosen))
    ensures forall b :: b in InOrder(rpo, chosen) <==> b in rpo && b in chosen
    ensures forall a, b :: Before(InOrder(rpo, chosen), a, b) ==> Before(rpo, a, b)
  {
    if rpo != [] {
      var (rest, x) := (rpo[..|rpo| - 1], rpo[|rpo| - 1]);
      assert rpo == rest + [x] && x !in rest;
      InOrderIs(rest, chosen);
      var r := InOrder(rpo, chosen);
      forall a, b | Before(r, a, b) ensures Before(rpo, a, b) {
        LastBefore(rest, x, a, b);
        if x in chosen { LastBefore(InOrder(rest, chosen), x, a, b); }
      }
    }
  }

  lemma LastBefore(xs: seq<Label>, x: Label, a: Label, b: Label)
    ensures Before(xs + [x], a, b) <==> Before(xs, a, b) || (a in xs && b == x)
  {
    var ys := xs + [x];
    if Before(ys, a, b) {
      var i, j :| 0 <= i < j < |ys| && ys[i] == a && ys[j] == b;
      assert xs[i] == a;
      if j < |xs| { assert xs[j] == b; }
    }
    if Before(xs, a, b) {
      var i, j :| 0 <= i < j < |xs| && xs[i] == a && xs[j] == b;
      assert ys[i] == a && ys[j] == b;
    }
    if a in xs && b == x {
      var i :| 0 <= i < |xs| && xs[i] == a;
      assert ys[i] == a && ys[|xs|] == b;
    }
  }

  // When the choice lies in the loop, nothing of it is lost.
  lemma InOrderPermutes(rpo: seq<Label>, chosen: seq<Label>)
    requires Distinct(rpo) && Distinct(chosen) && forall b <- chosen :: b in rpo
    ensures multiset(InOrder(rpo, chosen)) == multiset(chosen)
  {
    InOrderIs(rpo, chosen);
    var r := InOrder(rpo, chosen);
    forall b ensures multiset(r)[b] == multiset(chosen)[b] {
      CountOnce(r, b);
      CountOnce(chosen, b);
    }
  }

  lemma {:induction false} CountOnce(xs: seq<Label>, b: Label)
    requires Distinct(xs)
    ensures multiset(xs)[b] == if b in xs then 1 else 0
  {
    if xs != [] {
      var (rest, x) := (xs[..|xs| - 1], xs[|xs| - 1]);
      assert xs == rest + [x] && x !in rest;
      CountOnce(rest, b);
    }
  }

  // What a reverse post order gives: every block but the first has an earlier predecessor, and
  // the first, the header, is entered from outside the loop.
  ghost predicate Traversal(f: Func, rpo: seq<Label>) {
    && Distinct(rpo) && rpo != []
    && (forall i :: 0 < i < |rpo| ==> exists j :: 0 <= j < i && rpo[j] in f.blocks && rpo[i] in Succs(f, rpo[j]))
    && exists p <- f.blocks :: p !in rpo && rpo[0] in Succs(f, p)
  }

  ghost predicate EnteredFromOutside(f: Func, blocks: seq<Label>, b: Label) { exists p <- f.blocks :: p !in blocks && b in Succs(f, p) }

  lemma NotBefore(xs: seq<Label>, j: nat, i: nat)
    requires Distinct(xs) && j < i < |xs|
    ensures !Before(xs, xs[i], xs[j])
  {
  }

  // No chosen block precedes the first one.
  lemma EarlierInOrder(rpo: seq<Label>, chosen: seq<Label>, j: nat, i: nat)
    requires Distinct(rpo) && j < i < |rpo| && InOrder(rpo, chosen) != [] && InOrder(rpo, chosen)[0] == rpo[i]
    ensures rpo[j] !in InOrder(rpo, chosen)
  {
    hide Before, InOrder;
    InOrderIs(rpo, chosen);
    NotBefore(rpo, j, i);
    var blocks := InOrder(rpo, chosen);
    forall m | 0 <= m < |blocks| ensures blocks[m] != rpo[j] {
      if m > 0 { IsBefore(blocks, 0, m); }
    }
  }

  lemma IsBefore(xs: seq<Label>, i: nat, j: nat)
    requires i < j < |xs|
    ensures Before(xs, xs[i], xs[j])
  {
  }

  // The first block has a predecessor outside the choice,
  lemma FirstIsEntered(f: Func, rpo: seq<Label>, chosen: seq<Label>)
    requires Traversal(f, rpo) && InOrder(rpo, chosen) != []
    ensures EnteredFromOutside(f, InOrder(rpo, chosen), InOrder(rpo, chosen)[0])
  {
    hide Succs, InOrder, Before;
    InOrderIs(rpo, chosen);
    var blocks := InOrder(rpo, chosen);
    assert blocks[0] in blocks;
    var i :| 0 <= i < |rpo| && rpo[i] == blocks[0];
    if i == 0 {
      var p :| p in f.blocks && p !in rpo && rpo[0] in Succs(f, p);
      assert p !in blocks;
    } else {
      var j :| 0 <= j < i && rpo[j] in f.blocks && rpo[i] in Succs(f, rpo[j]);
      EarlierInOrder(rpo, chosen, j, i);
    }
  }

  // so when only one block has one, that block, the header the extractor takes, comes first.
  lemma HeaderFirst(f: Func, rpo: seq<Label>, chosen: seq<Label>, header: Label)
    requires Traversal(f, rpo) && InOrder(rpo, chosen) != []
    requires forall b <- InOrder(rpo, chosen) :: EnteredFromOutside(f, InOrder(rpo, chosen), b) ==> b == header
    ensures InOrder(rpo, chosen)[0] == header
  {
    FirstIsEntered(f, rpo, chosen);
  }

  // What the predecessors say of the phis: where phis have an entry for every predecessor, none
  // but the header's takes a value from outside exactly when no other block with phis is entered
  // from outside.
  lemma WithinIffEntered(f: Func, blocks: seq<Label>, header: Label)
    requires Verified(f) && forall l <- blocks :: l in f.blocks && PhisComplete(f, l)
    ensures PhisWithin(f, blocks, header) <==>
            forall l <- blocks :: l != header && f.blocks[l].phis != [] ==> !EnteredFromOutside(f, blocks, l)
  {
    hide Clone.Uses;
    if PhisWithin(f, blocks, header) {
      forall l | l in blocks && l != header && f.blocks[l].phis != [] ensures !EnteredFromOutside(f, blocks, l) {
        var x := f.blocks[l].phis[0];
        forall p | p in f.blocks && l in Succs(f, p) ensures p in blocks {
          assert x in f.blocks[l].phis && p in Froms(x.inc);
          var e :| e in x.inc && e.from == p;
        }
      }
    }
    if forall l <- blocks :: l != header && f.blocks[l].phis != [] ==> !EnteredFromOutside(f, blocks, l) {
      WithinWhen(f, blocks, header);
    }
  }

  lemma WithinWhen(f: Func, blocks: seq<Label>, header: Label)
    requires Verified(f) && forall l <- blocks :: l in f.blocks
    requires forall l <- blocks :: l != header && f.blocks[l].phis != [] ==> !EnteredFromOutside(f, blocks, l)
    ensures PhisWithin(f, blocks, header)
  {
    hide Clone.Uses;
    forall l, x, e | l in blocks && l != header && x in f.blocks[l].phis && e in x.inc ensures e.from in blocks {
      assert e.from in f.blocks && l in Succs(f, e.from);
    }
  }

  // So with one block entered from outside, nothing comes in anywhere else,
  lemma OneEntryWithin(f: Func, rpo: seq<Label>, chosen: seq<Label>, header: Label)
    requires Verified(f) && Traversal(f, rpo) && InOrder(rpo, chosen) != [] && forall b <- InOrder(rpo, chosen) :: b in f.blocks
    requires forall b <- InOrder(rpo, chosen) :: EnteredFromOutside(f, InOrder(rpo, chosen), b) ==> b == header
    ensures PhisWithin(f, InOrder(rpo, chosen), InOrder(rpo, chosen)[0])
  {
    hide Verified, Traversal, InOrder, EnteredFromOutside, PhisWithin;
    HeaderFirst(f, rpo, chosen, header);
    WithinWhen(f, InOrder(rpo, chosen), header);
  }

  // and the function extracted for a loop is closed if that block needs no severing.
  lemma ClosedOfLoop(f: Func, rpo: seq<Label>, chosen: seq<Label>, header: Label, a: Analyses, r: Preparation, f1: Func, g: Func, m: Made)
    requires Extracts(f, InOrder(rpo, chosen), a, r, f1, g, m) && Verified(f) && Traversal(f, rpo)
    requires forall b <- InOrder(rpo, chosen) :: EnteredFromOutside(f, InOrder(rpo, chosen), b) ==> b == header
    requires !NeedsSevering(f, InOrder(rpo, chosen), header)
    ensures Closed(g)
  {
    hide Verified, Traversal, InOrder, EnteredFromOutside, PhisWithin, NeedsSevering, Closed, IsMade, BuiltAsIs, InterfaceOf, Stored, CountIterators,
         SoleIteratorFirst, ValidForExtraction;
    HeaderFirst(f, rpo, chosen, header);
    OneEntryWithin(f, rpo, chosen, header);
  }

  // ---------- the iterators among the arguments ----------

  function CountIterators(vs: seq<Value>, info: IteratorInfo): nat {
    if vs == [] then 0 else CountIterators(vs[..|vs| - 1], info) + if IsIterator(info, vs[|vs| - 1]) then 1 else 0
  }

  method CountIf(vs: seq<Value>, info: IteratorInfo) returns (n: nat)
    ensures n == CountIterators(vs, info)
  {
    n := 0;
    var k := 0;
    while k < |vs|
      invariant k <= |vs| && n == CountIterators(vs[..k], info)
    {
      assert vs[..k + 1][..k] == vs[..k];
      if IsIterator(info, vs[k]) {
        n := n + 1;
      }
      k := k + 1;
    }
    assert vs[..k] == vs;
  }

  lemma {:induction false} NoIterators(vs: seq<Value>, info: IteratorInfo)
    ensures CountIterators(vs, info) == 0 <==> forall v <- vs :: v.Inst? ==> !info(v.id)
  {
    if vs != [] {
      NoIterators(vs[..|vs| - 1], info);
      assert vs == vs[..|vs| - 1] + [vs[|vs| - 1]];
    }
  }

  // When one input is an iterator and it is passed as it is, the check finds one iterator, and
  // that one is argument 0.
  lemma OneIteratorFirst(inputs: seq<Value>, info: IteratorInfo, pure: set<Value>, x: Value)
    requires Distinct(inputs) && x in inputs && x.Inst? && info(x.id) && x in pure
    requires forall v <- inputs :: v.Inst? && info(v.id) ==> v == x
    ensures var args := Keeping(Reordered(inputs, info), pure);
            args != [] && args[0] == x && args[1..] == Keeping(inputs, pure - {x}) && CountIterators(args, info) == 1
  {
    hide Keeping, Reordered;
    var k := FirstIterator(inputs, info);
    assert k < |inputs| && inputs[k] == x;
    IteratorFirst(inputs, info, pure);
    var rest := Keeping(inputs, pure - {x});
    NoIterators(rest, info);
    CountConcat([x], rest, info);
    assert [x][..0] == [];
  }

  lemma {:induction false} CountConcat(a: seq<Value>, b: seq<Value>, info: IteratorInfo)
    ensures CountIterators(a + b, info) == CountIterators(a, info) + CountIterators(b, info)
  {
    if b == [] {
      assert a + b == a;
    } else {
      assert (a + b)[..|a + b| - 1] == a + b[..|b| - 1];
      CountConcat(a, b[..|b| - 1], info);
    }
  }

  // ---------- cloneLoop ----------

  datatype ArgSpec = ArgSpec(name: Id, direction: ArgDirection, iteratorDependent: bool)
  datatype FunctionArgSpec = FunctionArgSpec(func: Func, loop: Label, specs: seq<ArgSpec>)

  // What the loop's analyses say: iterators if known, the loop bounds, the pointers, the
  // accesses, and the dispositions if known.
  datatype Analyses = Analyses(iterators: Option<IteratorInfo>, bounds: Loops, pointers: set<Value>, accesses: Accesses,
                               dispositions: Option<map<Value, int>>)

  // Entry k of the list describes parameter k, which stands for argument k.
  ghost predicate Describes(specs: seq<ArgSpec>, params: seq<Id>, pure: seq<Value>, outputs: seq<Value>, a: Analyses) {
    && |specs| == |params| == |pure| + |outputs|
    && forall k :: 0 <= k < |specs| && k < |params| && k < |pure| + |outputs| ==>
         && specs[k].name == params[k]
         && specs[k].direction == (if k < |pure| then InputDirection(Argument(pure, outputs, k), a.pointers, Some(a.accesses))
                                   else OutputDirection(Argument(pure, outputs, k), Some(a.accesses)))
         && (specs[k].iteratorDependent <==>
               a.dispositions.Some? && Argument(pure, outputs, k) in a.dispositions.value
               && a.dispositions.value[Argument(pure, outputs, k)] == ITERATOR_VARIANT)
  }

  ghost predicate MayPrepare(f: Func, blocks: seq<Label>, a: Analyses) {
    && (forall l <- blocks :: l in f.blocks)
    && (InputsOf(f, blocks) == [] || exists v <- InputsOf(f, blocks) :: IsIterator(IteratorsOf(a), v))
    && Exclusive(InputsOf(f, blocks), a.bounds)
  }

  function IteratorsOf(a: Analyses): IteratorInfo { if a.iterators.Some? then a.iterators.value else (i: Id) => false }

  class LoopBodyCloner {
    const storeSuccessInfo: bool
    var storeInfo: seq<FunctionArgSpec>

    constructor (storeSuccessInfo: bool)
      ensures this.storeSuccessInfo == storeSuccessInfo && storeInfo == []
    {
      this.storeSuccessInfo, storeInfo := storeSuccessInfo, [];
    }

    // The three parallel lists, stored when that is asked for.
    method DescribeArguments(g: Func, loop: Label, pure: seq<Value>, outputs: seq<Value>, a: Analyses)
      requires |g.params| == |pure| + |outputs|
      modifies `storeInfo
      ensures storeSuccessInfo ==>
                && |storeInfo| == |old(storeInfo)| + 1 && storeInfo[..|old(storeInfo)|] == old(storeInfo)
                && var spec := storeInfo[|old(storeInfo)|];
                   spec.loop == loop && spec.func == g && Describes(spec.specs, g.params, pure, outputs, a)
      ensures !storeSuccessInfo ==> storeInfo == old(storeInfo)
    {
      hide Describes, InputDirection, OutputDirection, Argument;
      var argDirs := GenerateArgDirection(pure, outputs, a.pointers, Some(a.accesses));
      var argIteratorVariance;
      if a.dispositions.None? {
        argIteratorVariance := seq(|argDirs|, _ => false);
      } else {
        argIteratorVariance := GenerateArgIteratorVariance(pure, outputs, a.dispositions.value);
      }
      if storeSuccessInfo {
        var specs := AssembleSpecs(g.params, argDirs, argIteratorVariance);
        DescribesAll(specs, g.params, pure, outputs, a, argDirs, argIteratorVariance);
        storeInfo := storeInfo + [FunctionArgSpec(g, loop, specs)];
      }
    }

    // The bounds are what the analyzer answers for the inputs; `calls` are the blocks with calls
    // when such loops are to be skipped.  The new function, if there is one, joins the module.
    method CloneLoop(lba: Analyzer, f: Func, nl: Label, ni: Id, loop: Label, rpo: seq<Label>, initial: seq<Label>, calls: Option<set<Label>>, a: Analyses)
      returns (hasChanged: bool, f1: Func, extractedFunc: Option<Func>, ghost hidden: set<Id>, ghost r: Preparation, ghost m: Made)
      requires Ready(f, nl, ni, InOrder(rpo, initial)) && MayPrepare(f, ExtractionBlocks(f, InOrder(rpo, initial)), a)
      requires lba.Valid() && AnswersFor(a.bounds, InputsOf(f, ExtractionBlocks(f, InOrder(rpo, initial))), lba.forest, lba.bounds, loop)
      requires ExtractionBlocks(f, InOrder(rpo, initial)) != [] ==>
                 GoodHeader(f, ExtractionBlocks(f, InOrder(rpo, initial)), InOrder(rpo, initial)[0])
      modifies `storeInfo
      ensures Ssa.SameRuns(f, f1, hidden) && New(hidden, ni)
      ensures extractedFunc.None? ==> f1 == f
      ensures extractedFunc.Some? ==> initial != [] && Extracts(f, InOrder(rpo, initial), a, r, f1, extractedFunc.value, m)
      ensures hasChanged <==> extractedFunc.Some?
      ensures TakesUp(InOrder(rpo, initial), initial, calls) ==> IsPrepared(f, ExtractionBlocks(f, InOrder(rpo, initial)), IteratorsOf(a), a.bounds, r)
      ensures hasChanged <==>
                && TakesUp(InOrder(rpo, initial), initial, calls) && MayExtract(f, InOrder(rpo, initial))
                && (a.iterators.Some? ==> OnePureIterator(r, a.iterators.value))
      ensures Recorded(old(storeInfo), storeInfo, storeSuccessInfo, loop, extractedFunc, m, a)
    {
      hide Ready, GoodHeader, SameRuns, MayPrepare, ExtractionBlocks, InOrder, Extracts, Describes, Succs, AnswersFor, InputsOf, BoundsOf,
           IsPrepared, MayExtract, OnePureIterator;
      hasChanged, f1, extractedFunc, hidden, r, m := false, f, None, {}, NothingPrepared(), NothingMade(f);
      SameRunsReflexive(f);
      if |initial| == 0 {
        return;
      }
      var blocks := Reorder(rpo, initial);
      if calls.Some? && exists l <- blocks :: l in calls.value {
        return;
      }
      var pure, outputs;
      PrepareMay(f, ExtractionBlocks(f, blocks), a);
      AnswersApart(f, blocks, lba, a, loop);
      extractedFunc, f1, pure, outputs, hidden, r, m := Extract(f, nl, ni, blocks, a);
      if extractedFunc.Some? {
        hasChanged := true;
        DescribeArguments(extractedFunc.value, loop, pure, outputs, a);
      }
    }

    // One turn of cloneLoops: the nest of the loop is analyzed first, whatever was analyzed
    // before, so the bounds are the facts about all the loops around it and inside it.
    method AnalyzeAndClone(lba: Analyzer, f: Func, nl: Label, ni: Id, loop: Label, rpo: seq<Label>, initial: seq<Label>,
                           calls: Option<set<Label>>, a: Analyses)
      returns (hasChanged: bool, f1: Func, extractedFunc: Option<Func>, ghost hidden: set<Id>, ghost r: Preparation, ghost m: Made)
      requires Ready(f, nl, ni, InOrder(rpo, initial)) && MayPrepare(f, ExtractionBlocks(f, InOrder(rpo, initial)), a)
      requires lba.Valid() && loop in lba.forest.loops
      requires ByFacts(a.bounds, InputsOf(f, ExtractionBlocks(f, InOrder(rpo, initial))), lba.forest, lba.facts, loop)
      requires ExtractionBlocks(f, InOrder(rpo, initial)) != [] ==>
                 GoodHeader(f, ExtractionBlocks(f, InOrder(rpo, initial)), InOrder(rpo, initial)[0])
      modifies lba, `storeInfo
      ensures lba.Valid() && lba.topL.Some? && IsTop(lba.forest, lba.topL.value, loop)
      ensures Ssa.SameRuns(f, f1, hidden) && New(hidden, ni)
      ensures extractedFunc.None? ==> f1 == f
      ensures extractedFunc.Some? ==> initial != [] && Extracts(f, InOrder(rpo, initial), a, r, f1, extractedFunc.value, m)
      ensures hasChanged <==> extractedFunc.Some?
      ensures TakesUp(InOrder(rpo, initial), initial, calls) ==> IsPrepared(f, ExtractionBlocks(f, InOrder(rpo, initial)), IteratorsOf(a), a.bounds, r)
      ensures hasChanged <==>
                && TakesUp(InOrder(rpo, initial), initial, calls) && MayExtract(f, InOrder(rpo, initial))
                && (a.iterators.Some? ==> OnePureIterator(r, a.iterators.value))
      ensures Recorded(old(storeInfo), storeInfo, storeSuccessInfo, loop, extractedFunc, m, a)
    {
      hide Ready, GoodHeader, SameRuns, MayPrepare, ExtractionBlocks, InOrder, Extracts, Recorded, Succs, AnswersFor, ByFacts, InputsOf, BoundsOf, IsTop,
           IsPrepared, MayExtract, OnePureIterator, TakesUp;
      PrepareMay(f, ExtractionBlocks(f, InOrder(rpo, initial)), a);
      lba.Analyze(loop);
      FactsAnswer(a.bounds, InputsOf(f, ExtractionBlocks(f, InOrder(rpo, initial))), lba.forest, lba.facts, lba.topL.value, lba.bounds, loop);
      hasChanged, f1, extractedFunc, hidden, r, m := CloneLoop(lba, f, nl, ni, loop, rpo, initial, calls, a);
    }
  }

  // Blocks are chosen, and none has a call if such loops are skipped.
  ghost predicate TakesUp(blocks: seq<Label>, initial: seq<Label>, calls: Option<set<Label>>) {
    initial != [] && (calls.Some? ==> forall b <- blocks :: b !in calls.value)
  }

  // What is stored of a loop: with a new function, the function and the description of its
  // arguments, if that is asked for; without one, nothing.
  ghost predicate Recorded(before: seq<FunctionArgSpec>, after: seq<FunctionArgSpec>, store: bool, loop: Label, g: Option<Func>, m: Made, a: Analyses) {
    if store && g.Some? then
      && |after| == |before| + 1 && after[..|before|] == before
      && var spec := after[|before|];
         spec.loop == loop && spec.func == g.value && Describes(spec.specs, spec.func.params, m.i.pure, m.i.outputs, a)
    else after == before
  }

  // The answers for one loop name no input as the induction variable of an outer and of an inner
  // loop.
  ghost predicate VariablesApart(f: Func, blocks: seq<Label>, q: Loops)
    requires forall l <- blocks :: l in f.blocks
  {
    forall v <- InputsOf(f, blocks) :: !(v in q.outer && v in q.inner)
  }

  lemma AnswersApart(f: Func, blocks: seq<Label>, lba: Analyzer, a: Analyses, loop: Label)
    requires MayPrepare(f, ExtractionBlocks(f, blocks), a) && lba.Valid()
    requires AnswersFor(a.bounds, InputsOf(f, ExtractionBlocks(f, blocks)), lba.forest, lba.bounds, loop)
    ensures VariablesApart(f, ExtractionBlocks(f, blocks), a.bounds)
  {
    hide MayPrepare, ExtractionBlocks, InputsOf, Encloses, OwnHeaders, IsForest, BoundsOf;
    PrepareMay(f, ExtractionBlocks(f, blocks), a);
    forall v | v in InputsOf(f, ExtractionBlocks(f, blocks)) ensures !(v in a.bounds.outer && v in a.bounds.inner) {
      if lba.topL.Some? {
        NotOuterAndInner(lba.forest, lba.facts, lba.topL.value, lba.bounds, v, loop);
      }
    }
  }

  // Exactly one of the inputs that share no cell and have no slot is an iterator.
  ghost predicate OnePureIterator(r: Preparation, info: IteratorInfo) {
    exists x <- r.inputs ::
      && x.Inst? && info(x.id) && !Bidirectional(r.oi, x) && x !in r.allocas
      && forall w <- r.inputs :: w.Inst? && info(w.id) && !Bidirectional(r.oi, w) && w !in r.allocas ==> w == x
  }

  // There are blocks, and none of them allocates.
  ghost predicate MayExtract(f: Func, blocks: seq<Label>) {
    blocks != [] && forall b <- blocks :: b in f.blocks && forall x <- f.blocks[b].body :: !x.code.Alloca?
  }

  lemma MayExtractIs(f: Func, blocks: seq<Label>)
    requires forall b <- blocks :: b in f.blocks
    ensures MayExtract(f, blocks) <==> ExtractionBlocks(f, blocks) != []
  {
    forall b | b in blocks ensures ValidForExtraction(f.blocks[b]) <==> forall x <- f.blocks[b].body :: !x.code.Alloca? {}
  }

  ghost predicate Sole(vs: seq<Value>, info: IteratorInfo, x: Value) {
    x in vs && x.Inst? && info(x.id) && forall w <- vs :: w.Inst? && info(w.id) ==> w == x
  }

  lemma {:induction false} CountedOne(vs: seq<Value>, info: IteratorInfo)
    requires Distinct(vs)
    ensures CountIterators(vs, info) == 1 <==> exists x :: Sole(vs, info, x)
  {
    if vs != [] {
      var (rest, v) := (vs[..|vs| - 1], vs[|vs| - 1]);
      assert vs == rest + [v] && v !in rest;
      CountedOne(rest, info);
      NoIterators(rest, info);
      SoleMore(rest, v, info);
      hide Sole, Distinct;
      if IsIterator(info, v) {
        if x :| Sole(vs, info, x) {
          assert x == v;
        }
        assert Sole(vs, info, v) <==> CountIterators(rest, info) == 0;
      }
    }
  }

  lemma SoleMore(rest: seq<Value>, v: Value, info: IteratorInfo)
    requires v !in rest
    ensures IsIterator(info, v) ==> forall x :: Sole(rest + [v], info, x) <==> x == v && forall w <- rest :: !IsIterator(info, w)
    ensures !IsIterator(info, v) ==> forall x :: Sole(rest + [v], info, x) <==> Sole(rest, info, x)
  {
    forall x | !IsIterator(info, v) ensures Sole(rest + [v], info, x) <==> Sole(rest, info, x) {}
    forall x | IsIterator(info, v) ensures Sole(rest + [v], info, x) <==> x == v && forall w <- rest :: !IsIterator(info, w) {
      if x in rest && IsIterator(info, v) { assert v in rest + [v]; }
    }
  }

  lemma CountedPure(r: Preparation, info: IteratorInfo)
    requires Distinct(r.inputs)
    ensures CountIterators(Keeping(r.inputs, PureSet(r.inputs, r.oi, r.allocas)), info) == 1 <==> OnePureIterator(r, info)
  {
    hide CountIterators, Keeping, Bidirectional, Distinct;
    var pure := Keeping(r.inputs, PureSet(r.inputs, r.oi, r.allocas));
    KeepingHas(r.inputs, PureSet(r.inputs, r.oi, r.allocas));
    CountedOne(pure, info);
    if x :| Sole(pure, info, x) {
      assert OnePureIterator(r, info);
    }
    if OnePureIterator(r, info) {
      var x :| x in r.inputs && x.Inst? && info(x.id) && !Bidirectional(r.oi, x) && x !in r.allocas
               && forall w <- r.inputs :: w.Inst? && info(w.id) && !Bidirectional(r.oi, w) && w !in r.allocas ==> w == x;
      assert Sole(pure, info, x);
    }
  }

  ghost function NothingPrepared(): Preparation { Preparation([], [], map[], map[], map[], [], []) }

  ghost function NothingMade(f: Func): Made {
    Made(f, 0, 0, Clone.Plan([], 0, map[], map[], map[], 0, 0), Interface([], [], [], [], map[], [], 0, 0), map[], [], [], 0)
  }

  // The new function is delivered for what was prepared, and with iterator info one of its pure
  // inputs is an iterator, the first if the region has no other.
  ghost predicate Extracts(f: Func, blocks: seq<Label>, a: Analyses, r: Preparation, f1: Func, g: Func, m: Made) {
    && IsPrepared(f, ExtractionBlocks(f, blocks), IteratorsOf(a), a.bounds, r)
    && Delivered(f, ExtractionBlocks(f, blocks), a.pointers, r, f1, g, m)
    && (a.iterators.Some? ==> CountIterators(m.i.pure, IteratorsOf(a)) == 1 && SoleIteratorFirst(f, ExtractionBlocks(f, blocks), a, m.i.pure))
  }

  // A fresh extractor for the blocks, prepared.
  method PrepareExtractor(f: Func, nl: Label, ni: Id, blocks: seq<Label>, a: Analyses) returns (ce: CodeExtractor, pure: seq<Value>, ghost r: Preparation)
    requires Ready(f, nl, ni, blocks) && MayPrepare(f, ExtractionBlocks(f, blocks), a)
    requires (forall l <- ExtractionBlocks(f, blocks) :: l in f.blocks) && VariablesApart(f, ExtractionBlocks(f, blocks), a.bounds)
    ensures fresh(ce) && ExtractorReady(ce, f, nl, ni, blocks, a, r) && pure == Keeping(r.inputs, PureSet(r.inputs, r.oi, r.allocas))
  {
    hide Ready, MayPrepare, ExtractionBlocks, Keeping, Distinct, Exclusive, OneCase, InputsOf, OutputsOf, ExtractorReady,
         IOMap, OIMap, AddAllocas, InitsOf, Reordered, IsIterator, IncomingsOf, Bidirectional, PureSet, Clone.Uses, Clone.Defined;
    ce := new CodeExtractor(f, nl, ni, blocks, Some(IteratorsOf(a)), Some(a.bounds), a.pointers);
    PrepareMay(f, ce.blocks, a);
    ReadyToExtract(f, blocks, ce.blocks, Reordered(InputsOf(f, ce.blocks), IteratorsOf(a)), a);
    ghost var incs := ce.Prepare();
    r := Preparation(ce.inputs, ce.outputs, incs, ce.inputToOutputMap, ce.outputToInputMap, ce.stackAllocas, ce.stackAllocaInits);
    pure := ce.GetPureInputs();
    NowReady(ce, f, nl, ni, blocks, a, r);
  }

  lemma NowReady(ce: CodeExtractor, f: Func, nl: Label, ni: Id, blocks: seq<Label>, a: Analyses, r: Preparation)
    requires ce.Valid() && ce.InputsReady(ce.nextId) && ce.fn == f && ce.nextLabel == nl && ce.nextId == ni && ce.pointers == a.pointers
    requires ce.blocks == ExtractionBlocks(f, blocks) && (ce.blocks != [] ==> ce.blocks == blocks)
    requires ce.blockMap == map[] && ce.instMap == map[] && ce.clones == map[] && ce.cloneBlocks == []
    requires ce.inputs == r.inputs && ce.outputs == r.outputs && ce.inputToOutputMap == r.io && ce.outputToInputMap == r.oi
    requires ce.stackAllocas == r.allocas && ce.stackAllocaInits == r.inits
    requires IsPrepared(f, ce.blocks, IteratorsOf(a), a.bounds, r)
    requires forall v <- r.allocas :: v in r.inputs
    ensures ExtractorReady(ce, f, nl, ni, blocks, a, r)
  {
    hide Ready, ExtractionBlocks, Distinct, InputsOf, OutputsOf, IOMap, OIMap, AddAllocas, InitsOf, Reordered, IncomingsOf, Bidirectional, Clone.Uses, Clone.Defined;
    InputsAre(f, ce.blocks);
    ReorderedSame(InputsOf(f, ce.blocks), IteratorsOf(a));
    AlignedIff(r.inputs, a.bounds);
  }

  // The extractor holds what was prepared, and has made nothing of it yet.
  ghost predicate ExtractorReady(ce: CodeExtractor, f: Func, nl: Label, ni: Id, blocks: seq<Label>, a: Analyses, r: Preparation)
    reads ce
  {
    && ce.Valid() && ce.InputsReady(ce.nextId) && ce.fn == f && ce.nextLabel == nl && ce.nextId == ni && ce.pointers == a.pointers
    && ce.blocks == ExtractionBlocks(f, blocks) && (ce.blocks != [] ==> ce.blocks == blocks)
    && ce.blockMap == map[] && ce.instMap == map[] && ce.clones == map[] && ce.cloneBlocks == []
    && ce.inputs == r.inputs && ce.outputs == r.outputs && ce.inputToOutputMap == r.io && ce.outputToInputMap == r.oi
    && ce.stackAllocas == r.allocas && ce.stackAllocaInits == r.inits
    && IsPrepared(f, ce.blocks, IteratorsOf(a), a.bounds, r) && Distinct(InputsOf(f, ce.blocks)) && Current(f, ce.blocks, r.inputs, r.outputs)
    && Distinct(r.allocas) && (forall v <- r.allocas :: v in r.inputs) && forall v <- r.inputs :: Bidirectional(r.oi, v) ==> v in r.io && r.io[v] < |r.outputs|
  }

  // The extractor run on what it holds.
  method RunExtractor(ce: CodeExtractor, ghost f: Func, ghost nl: Label, ghost ni: Id, ghost blocks: seq<Label>, ghost a: Analyses, ghost r: Preparation)
    returns (extractedFunc: Option<Func>, ghost hidden: set<Id>, ghost m: Made)
    requires ExtractorReady(ce, f, nl, ni, blocks, a, r)
    requires ExtractionBlocks(f, blocks) != [] ==> GoodHeader(f, ExtractionBlocks(f, blocks), blocks[0])
    modifies ce
    ensures SameRuns(f, ce.fn, hidden) && New(hidden, ni)
    ensures extractedFunc.None? ==> ce.fn == f
    ensures extractedFunc.None? <==> ExtractionBlocks(f, blocks) == []
    ensures extractedFunc.Some? ==>
              && Delivered(f, ExtractionBlocks(f, blocks), a.pointers, r, ce.fn, extractedFunc.value, m)
              && m.i.pure == Keeping(r.inputs, PureSet(r.inputs, r.oi, r.allocas)) && m.i.outputs == r.outputs
  {
    hide Ready, GoodHeader, SameRuns, ExtractionBlocks, IsMade, Keeping, PureSet, InterfaceOf, Current, IsPrepared, Reshaped, NeedsSevering,
         Bidirectional, Distinct, Delivered, New, Returns, InputsOf, IteratorsOf, Stand;
    ghost var (taken, severed) := (ce.blocks, f);
    extractedFunc, hidden, severed, m := ce.CloneCodeRegion();
    if extractedFunc.Some? {
      MadeParts(extractedFunc.value, m);
      Delivers(f, nl, ni, blocks, taken, a.pointers, r, severed, extractedFunc.value, m);
      PureOfInterface(r, a.pointers, m.i);
    }
  }

  // Extraction with a fresh extractor, unless the pure inputs do not have exactly one iterator.
  method Extract(f: Func, nl: Label, ni: Id, blocks: seq<Label>, a: Analyses)
    returns (extractedFunc: Option<Func>, f1: Func, pure: seq<Value>, outputs: seq<Value>, ghost hidden: set<Id>, ghost r: Preparation, ghost m: Made)
    requires Ready(f, nl, ni, blocks) && MayPrepare(f, ExtractionBlocks(f, blocks), a)
    requires (forall l <- ExtractionBlocks(f, blocks) :: l in f.blocks) && VariablesApart(f, ExtractionBlocks(f, blocks), a.bounds)
    requires ExtractionBlocks(f, blocks) != [] ==> GoodHeader(f, ExtractionBlocks(f, blocks), blocks[0])
    ensures SameRuns(f, f1, hidden) && New(hidden, ni)
    ensures IsPrepared(f, ExtractionBlocks(f, blocks), IteratorsOf(a), a.bounds, r)
    ensures extractedFunc.Some? <==> MayExtract(f, blocks) && (a.iterators.Some? ==> OnePureIterator(r, a.iterators.value))
    ensures extractedFunc.None? ==> f1 == f
    ensures extractedFunc.Some? ==> Extracts(f, blocks, a, r, f1, extractedFunc.value, m)
    ensures extractedFunc.Some? ==>
              pure == m.i.pure && outputs == m.i.outputs && |extractedFunc.value.params| == |pure| + |outputs|
  {
    hide Ready, GoodHeader, SameRuns, MayPrepare, ExtractionBlocks, Keeping, CountIterators, PureSet, SoleIteratorFirst, Current, IsPrepared,
         Bidirectional, Distinct, Delivered, OnePureIterator, MayExtract;
    SameRunsReflexive(f);
    extractedFunc, f1, outputs, hidden, m := None, f, [], {}, NothingMade(f);
    ReadyBlocks(f, nl, ni, blocks);
    MayExtractIs(f, blocks);
    var ce;
    ce, pure, r := PrepareExtractor(f, nl, ni, blocks, a);
    PreparedDistinct(f, ce.blocks, r);
    CountedPure(r, IteratorsOf(a));
    if a.iterators.Some? {
      var n := CountIf(pure, a.iterators.value);
      if n != 1 {
        return;
      }
    }
    OneIteratorSole(f, ce.blocks, a, r, pure);
    outputs := ce.outputs;
    extractedFunc, hidden, m := RunExtractor(ce, f, nl, ni, blocks, a, r);
    f1 := ce.fn;
    DeliveredParams(f, blocks, a, r, f1, extractedFunc, m);
  }

  lemma ReadyBlocks(f: Func, nl: Label, ni: Id, blocks: seq<Label>)
    requires Ready(f, nl, ni, blocks)
    ensures forall b <- blocks :: b in f.blocks
  {
  }

  lemma PreparedDistinct(f: Func, blocks: seq<Label>, r: Preparation)
    requires Current(f, blocks, r.inputs, r.outputs)
    ensures Distinct(r.inputs)
  {
  }

  lemma DeliveredParams(f: Func, blocks: seq<Label>, a: Analyses, r: Preparation, f1: Func, g: Option<Func>, m: Made)
    requires g.Some? ==> Delivered(f, ExtractionBlocks(f, blocks), a.pointers, r, f1, g.value, m)
    ensures g.Some? ==> |g.value.params| == |m.i.pure| + |m.i.outputs|
  {
    hide IsMade, Closed, Closeable, BuiltAsIs, InterfaceOf, ExtractionBlocks, Verified, Stored;
  }

  // If one input of the region is the only iterator, it is argument 0.
  ghost predicate SoleIteratorFirst(f: Func, blocks: seq<Label>, a: Analyses, pure: seq<Value>) {
    && (forall l <- blocks :: l in f.blocks)
    && forall x <- InputsOf(f, blocks) ::
         (forall v <- InputsOf(f, blocks) :: (v.Inst? && IteratorsOf(a)(v.id)) <==> v == x) ==> pure != [] && pure[0] == x
  }

  lemma OneIteratorSole(f: Func, blocks: seq<Label>, a: Analyses, r: Preparation, pure: seq<Value>)
    requires IsPrepared(f, blocks, IteratorsOf(a), a.bounds, r) && pure == Keeping(r.inputs, PureSet(r.inputs, r.oi, r.allocas))
    requires Distinct(InputsOf(f, blocks))
    ensures CountIterators(pure, IteratorsOf(a)) == 1 ==> SoleIteratorFirst(f, blocks, a, pure)
  {
    hide Reordered, InputsOf, Keeping, CountIterators, IsIterator, Distinct, IOMap, OIMap, AddAllocas, InitsOf, OutputsOf, IncomingsOf, PureSet;
    var (all, keep) := (InputsOf(f, blocks), PureSet(r.inputs, r.oi, r.allocas));
    forall x | CountIterators(pure, IteratorsOf(a)) == 1 && x in all && (forall v <- all :: (v.Inst? && IteratorsOf(a)(v.id)) <==> v == x)
      ensures pure != [] && pure[0] == x
    {
      ReorderedSame(all, IteratorsOf(a));
      KeepingHas(r.inputs, keep);
      NoIterators(pure, IteratorsOf(a));
      assert x in keep;
      OneIteratorFirst(all, IteratorsOf(a), keep, x);
    }
  }

  lemma PureOfInterface(r: Preparation, pointers: set<Value>, i: Interface)
    requires i == InterfaceOf(r.inputs, r.outputs, r.io, r.oi, r.allocas, pointers, i.params, i.firstLoad, i.firstStore)
    ensures i.pure == Keeping(r.inputs, PureSet(r.inputs, r.oi, r.allocas)) && i.outputs == r.outputs
  {
    hide Keeping;
  }

  method AssembleSpecs(params: seq<Id>, dirs: seq<ArgDirection>, variance: seq<bool>) returns (specs: seq<ArgSpec>)
    requires |params| == |dirs| == |variance|
    ensures |specs| == |params| && forall k :: 0 <= k < |params| ==> specs[k] == ArgSpec(params[k], dirs[k], variance[k])
  {
    specs := [];
    var k := 0;
    while k < |dirs|
      invariant k <= |dirs| && |specs| == k && forall j :: 0 <= j < k ==> specs[j] == ArgSpec(params[j], dirs[j], variance[j])
    {
      specs := specs + [ArgSpec(params[k], dirs[k], variance[k])];
      k := k + 1;
    }
  }

  lemma DescribesAll(specs: seq<ArgSpec>, params: seq<Id>, pure: seq<Value>, outputs: seq<Value>, a: Analyses,
                     dirs: seq<ArgDirection>, variance: seq<bool>)
    requires |specs| == |params| == |dirs| == |variance| == |pure| + |outputs|
    requires forall k :: 0 <= k < |params| ==> specs[k] == ArgSpec(params[k], dirs[k], variance[k])
    requires forall k :: 0 <= k < |dirs| ==>
               dirs[k] == if k < |pure| then InputDirection(Argument(pure, outputs, k), a.pointers, Some(a.accesses))
                          else OutputDirection(Argument(pure, outputs, k), Some(a.accesses))
    requires forall k :: 0 <= k < |variance| ==>
               (variance[k] <==> a.dispositions.Some? && Argument(pure, outputs, k) in a.dispositions.value
                                 && a.dispositions.value[Argument(pure, outputs, k)] == ITERATOR_VARIANT)
    ensures Describes(specs, params, pure, outputs, a)
  {
    hide InputDirection, OutputDirection, Argument;
  }

  lemma ReadyToExtract(f: Func, blocks: seq<Label>, taken: seq<Label>, inputs: seq<Value>, a: Analyses)
    requires taken == ExtractionBlocks(f, blocks) && (forall l <- taken :: l in f.blocks)
    requires inputs == Reordered(InputsOf(f, taken), IteratorsOf(a)) && Exclusive(InputsOf(f, taken), a.bounds)
    requires forall v <- InputsOf(f, taken) :: !(v in a.bounds.outer && v in a.bounds.inner)
    ensures OneCase(inputs, a.bounds) && (taken != [] ==> taken == blocks)
  {
    hide Reordered, InputsOf;
    ReorderedSame(InputsOf(f, taken), IteratorsOf(a));
  }

  lemma PrepareMay(f: Func, blocks: seq<Label>, a: Analyses)
    requires MayPrepare(f, blocks, a)
    ensures forall l <- blocks :: l in f.blocks
    ensures InputsOf(f, blocks) == [] || exists v <- InputsOf(f, blocks) :: IsIterator(IteratorsOf(a), v)
    ensures Exclusive(InputsOf(f, blocks), a.bounds)
  {
    hide InputsOf, Exclusive, IsIterator;
  }
}
