/** What the extractor delivers for a region: prepare() first and cloneCodeRegion() after it. */
module Delivery {
  import opened Collections
  import opened Ssa
  import opened Partition
  import opened Clone
  import opened CloneRuns
  import opened CloneCall
  import opened CloneStages
  import opened InputsOutputs
  import opened InputOutputMap
  import opened StackAllocas
  import opened ArgUtils
  import opened ExtractorRegion
  import opened CodeExtractors
  import opened Extraction
  import opened Closure
  import opened StaleInputs
  import opened Wiring

  datatype Preparation = Preparation(inputs: seq<Value>, outputs: seq<Value>, incs: Incomings, io: map<Value, nat>, oi: map<Value, Value>,
                                     allocas: seq<Value>, inits: seq<Option<int>>)

  // What prepare() finds of a region of f, given the iterators and the loop bounds.
  ghost predicate IsPrepared(f: Func, blocks: seq<Label>, info: IteratorInfo, q: Loops, r: Preparation) {
    && (forall l <- blocks :: l in f.blocks) && IncomingsOf(f, r.incs)
    && r.inputs == Reordered(InputsOf(f, blocks), info) && r.outputs == OutputsOf(f, blocks)
    && r.io == IOMap(InputsOf(f, blocks), r.outputs, r.incs) && r.oi == OIMap(InputsOf(f, blocks), r.outputs, r.incs)
    && r.allocas == AddAllocas([], r.inputs, q) && r.inits == InitsOf(r.inputs, q)
  }

  // Nothing is severed and no return moves.
  ghost predicate Plain(f: Func, blocks: seq<Label>) {
    blocks != [] && !NeedsSevering(f, blocks, blocks[0]) && forall l <- blocks :: !Returns(f, l)
  }

  // A run of the region of n steps, and a call with the values it starts from.
  ghost predicate MayCall(m: Made, av: map<Label, set<Id>>, from: Label, argv: seq<int>, mem: map<int, int>, st: State, n: nat) {
    && Strict(m.f, m.p.region, m.p.header, av) && OutsKnown(m.f, m.p.region, av, OutIds(m.i))
    && EnteredFrom(m.f, m.p.region, m.p.header, from) && Passes(m.i, argv, mem, st)
    && StaysFor(m.f, m.p.region, Cells(m.i, argv), Goto(m.f, from, m.p.header, st), n)
  }

  ghost predicate Leaves(m: Made, from: Label, st: State, n: nat) {
    !InRegion(m.p.region, Run(m.f, Goto(m.f, from, m.p.header, st), n).0)
  }

  // Whatever run of the region it is called for, the new function does what the region does, step
  // by step, and it returns what the region leaves when that is left.
  ghost predicate CallsMatch(g: Func, m: Made) {
    forall av, from, argv, mem, st, n: nat :: MayCall(m, av, from, argv, mem, st, n) ==>
      && |argv| == |m.i.params| && CallKeepsUp(m.f, m.p, g, m.i, from, argv, mem, st, n)
      && (Leaves(m, from, st, n) ==> CallMatches(m.f, m.p, g, m.i, from, argv, mem, st, n))
  }

  // The new function g is built from f1, which f has become, with the interface prepared for
  // the given blocks of f, every input by its parameter, load, store or slot; it is closed exactly when they are closeable; and when nothing had
  // to be moved first, it is built from f as it was, and without slots its calls do what the
  // region does.
  ghost predicate Delivered(f: Func, blocks: seq<Label>, pointers: set<Value>, r: Preparation, f1: Func, g: Func, m: Made) {
    && blocks != [] && IsMade(g, m) && m.f == f1 && g.params == m.i.params && |g.params| == |m.i.pure| + |m.i.outputs|
    && m.i == InterfaceOf(r.inputs, r.outputs, r.io, r.oi, r.allocas, pointers, m.i.params, m.i.firstLoad, m.i.firstStore)
    && m.allocas == r.allocas && m.inits == r.inits
    && Wired(r.inputs, r.outputs, r.io, r.oi, r.allocas, r.inits, pointers, g, m.p)
    && (Verified(f) ==> (Closed(g) <==> Closeable(f, blocks, blocks[0], Stored(r.inputs, r.outputs, r.io, r.oi, pointers))))
    && (Plain(f, blocks) ==> BuiltAsIs(f, blocks, r, f1, g, m))
  }

  ghost predicate BuiltAsIs(f: Func, blocks: seq<Label>, r: Preparation, f1: Func, g: Func, m: Made) {
    && blocks != [] && f1 == f && m.p.region == blocks && m.p.header == blocks[0] && Current(f, blocks, r.inputs, r.outputs)
    && (r.allocas == [] ==> CallsMatch(g, m))
  }

  lemma MadeParts(g: Func, m: Made)
    requires IsMade(g, m)
    ensures Stand(m.i, m.s) && g.params == m.i.params && |m.i.params| == |m.i.pure| + |m.i.outputs|
  {
    hide Stand, SlotSubst, Loads, Stores, SlotsCode, Ready, IsClone, FreshPlan, FreshTargets;
  }

  // A region of blocks that may be extracted neither returns nor allocates when nothing returns.
  lemma PlainNoReturns(f: Func, given: seq<Label>, blocks: seq<Label>)
    requires blocks == ExtractionBlocks(f, given) && Plain(f, blocks)
    ensures NoReturns(f, blocks)
  {
    hide NeedsSevering;
    forall l | l in blocks ensures l in f.blocks && f.blocks[l].term.dests != [] && forall i <- f.blocks[l].body :: !i.code.Alloca? {
      assert ValidForExtraction(f.blocks[l]) && !Returns(f, l);
    }
  }

  lemma CallsOfMade(g: Func, m: Made, inputs: seq<Value>, outputs: seq<Value>, io: map<Value, nat>, oi: map<Value, Value>, pointers: set<Value>)
    requires IsMade(g, m) && m.allocas == [] && Current(m.f, m.p.region, inputs, outputs) && NoReturns(m.f, m.p.region)
    requires m.i == InterfaceOf(inputs, outputs, io, oi, [], pointers, m.i.params, m.i.firstLoad, m.i.firstStore)
    ensures CallsMatch(g, m)
  {
    hide Ready, Built, InterfaceOf, Current, NoReturns, Strict, OutsKnown, EnteredFrom, Passes, StaysFor, CallKeepsUp, CallMatches, Goto, Run;
    forall av, from, argv, mem, st, n: nat | MayCall(m, av, from, argv, mem, st, n)
      ensures |argv| == |m.i.params| && CallKeepsUp(m.f, m.p, g, m.i, from, argv, mem, st, n)
    {
      PrefixOfBuilt(m.f, m.nl, m.ni, g, m.p, m.i, m.s, m.inits, m.first, av, inputs, outputs, io, oi, pointers, from, argv, mem, st, n);
    }
    forall av, from, argv, mem, st, n: nat | MayCall(m, av, from, argv, mem, st, n) && Leaves(m, from, st, n)
      ensures |argv| == |m.i.params| && CallMatches(m.f, m.p, g, m.i, from, argv, mem, st, n)
    {
      CallOfBuilt(m.f, m.nl, m.ni, g, m.p, m.i, m.s, m.inits, m.first, av, inputs, outputs, io, oi, pointers, from, argv, mem, st, n);
    }
  }

  lemma DeliversWired(f: Func, nl: Label, ni: Id, blocks: seq<Label>, pointers: set<Value>, r: Preparation, severed: Func, g: Func, m: Made)
    requires m.allocas == r.allocas && m.inits == r.inits && Distinct(r.allocas)
    requires PreparedThenCloned(f, nl, ni, blocks, severed, g, m, r.inputs, r.outputs, r.io, r.oi, pointers)
    ensures Wired(r.inputs, r.outputs, r.io, r.oi, r.allocas, r.inits, pointers, g, m.p)
  {
    hide Ready, IsMade, InterfaceOf, Current, Reshaped, GoodHeader, Bidirectional, Wired, Distinct;
    CurrentDistinct(f, blocks, r.inputs, r.outputs);
    MadeReplaces(g, m, r.inputs, r.outputs, r.io, r.oi, pointers);
    BuiltIsWired(g, m, r.inputs, r.outputs, r.io, r.oi, pointers);
  }

  // Every step of the extractor taken together.
  lemma Delivers(f: Func, nl: Label, ni: Id, given: seq<Label>, blocks: seq<Label>, pointers: set<Value>, r: Preparation, severed: Func, g: Func, m: Made)
    requires blocks == ExtractionBlocks(f, given) && m.allocas == r.allocas && m.inits == r.inits && Distinct(r.allocas)
    requires PreparedThenCloned(f, nl, ni, blocks, severed, g, m, r.inputs, r.outputs, r.io, r.oi, pointers)
    requires Plain(f, blocks) ==> m.f == f && m.p.region == blocks && m.p.header == blocks[0]
    ensures Delivered(f, blocks, pointers, r, m.f, g, m)
  {
    hide Ready, Verified, IsMade, InterfaceOf, Current, Closed, Closeable, Stored, CallsMatch, NoReturns, Reshaped, GoodHeader, Bidirectional, Plain,
         ExtractionBlocks, Wired, Distinct, PreparedFor;
    MadeParts(g, m);
    DeliversWired(f, nl, ni, blocks, pointers, r, severed, g, m);
    if Verified(f) {
      ClosedIffCloseable(f, nl, ni, blocks, severed, g, m, r.inputs, r.outputs, r.io, r.oi, pointers);
    }
    if Plain(f, blocks) {
      PlainNoReturns(f, given, blocks);
      if r.allocas == [] {
        CallsOfMade(g, m, r.inputs, r.outputs, r.io, r.oi, pointers);
      }
    }
  }
}
