/** What the extractor builds is what the simulation theorems speak of, and it is closed: it
    mentions nothing of the old function. */
module Extraction {
  import opened Collections
  import opened Ssa
  import opened Split
  import opened Rewrite
  import opened Sever
  import opened Clone
  import opened CloneRuns
  import opened CloneCall
  import opened CloneStages
  import opened InputsOutputs
  import opened InputOutputMap
  import opened ExtractorRegion
  import opened CodeExtractors
  import opened Threading

  // The inputs and the outputs are those of the region as it was cloned.
  ghost predicate Current(f: Func, blocks: seq<Label>, inputs: seq<Value>, outputs: seq<Value>) {
    && Distinct(inputs) && (forall l <- blocks :: l in f.blocks)
    && (forall v :: v in inputs <==> v in InputsOf(f, blocks))
    && forall v :: v in outputs <==> v in OutputsOf(f, blocks)
  }

  // Nothing the region defines is an input, and whatever else it uses is one.
  lemma InputsCover(f: Func, blocks: seq<Label>, inputs: seq<Value>, outputs: seq<Value>)
    requires Current(f, blocks, inputs, outputs)
    ensures forall v <- inputs :: !v.Const? && !Defined(f, blocks, v)
    ensures forall l <- blocks, v <- (if l in f.blocks then Uses(f.blocks[l]) else []) :: v.Const? || Defined(f, blocks, v) || v in inputs
    ensures forall v <- outputs :: Defined(f, blocks, v)
  {
    hide Uses, RegionIds, InputsOf, OutputsOf;
    InputsAre(f, blocks);
    OutputsAre(f, blocks);
  }

  // Every input is replaced, in one way or another.
  lemma AllReplaced(i: Interface, s: Subst, inputs: seq<Value>, outputs: seq<Value>, io: map<Value, nat>, oi: map<Value, Value>,
                    allocas: seq<Value>, pointers: set<Value>, first: Id, ni: Id)
    requires i == InterfaceOf(inputs, outputs, io, oi, allocas, pointers, i.params, i.firstLoad, i.firstStore) && Distinct(inputs)
    requires Stand(i, s) && FreshTargets(s, ni) && ni <= first && forall v <- allocas :: v in inputs
    ensures forall v :: v in SlotSubst(s, allocas, first, |allocas|) <==> v in inputs
  {
    hide InterfaceOf, Distinct, FreshTargets, Bidirectional;
    InterfaceSeparate(inputs, outputs, io, oi, allocas, pointers, i.params, i.firstLoad, i.firstStore);
    SlotSubstIs(s, allocas, first, |allocas|, ni);
    assert allocas[..|allocas|] == allocas;
  }

  // Without stack slots, the new function is the clone the simulation starts from, and its
  // interface is the one the calls go through.
  lemma BuiltIsExtracted(f: Func, nl: Label, ni: Id, g: Func, p: Plan, i: Interface, s: Subst, inits: seq<Option<int>>, first: Id,
                         av: map<Label, set<Id>>, inputs: seq<Value>, outputs: seq<Value>, io: map<Value, nat>, oi: map<Value, Value>,
                         pointers: set<Value>)
    requires Ready(f, nl, ni, p.region) && Built(f, nl, ni, g, p, i, s, [], inits, first)
    requires i == InterfaceOf(inputs, outputs, io, oi, [], pointers, i.params, i.firstLoad, i.firstStore)
    requires Current(f, p.region, inputs, outputs)
    requires NoReturns(f, p.region) && Strict(f, p.region, p.header, av)
    ensures Extracted(f, p, av, g, nl, ni) && HasInterface(p, g, i)
  {
    hide IsClone, FreshPlan, Below, UniqueIds, Defined, Uses, StrictBlock, Strict, NoReturns, Stand, Loads, Stores, Current, InterfaceOf, Injective,
         FreshTargets, Ready;
    ReadyParts(f, nl, ni, p.region, 0);
    InputsCover(f, p.region, inputs, outputs);
    CurrentDistinct(f, p.region, inputs, outputs);
    AllReplaced(i, s, inputs, outputs, io, oi, [], pointers, first, ni);
    assert SlotSubst(s, [], first, 0) == s;
    TargetsApart(p.ids, i, s, ni);
    assert Loads(i) + SlotsCode(inits, first, 0) == Loads(i);
  }

  lemma CurrentDistinct(f: Func, blocks: seq<Label>, inputs: seq<Value>, outputs: seq<Value>)
    requires Current(f, blocks, inputs, outputs)
    ensures Distinct(inputs)
  {
  }

  // What stands for the inputs: parameters, and values the root loads.
  predicate IsTarget(i: Interface, v: Value) {
    (v.Arg? && v.arg in i.params) || (v.Inst? && i.firstLoad <= v.id < i.firstLoad + |i.scalars|)
  }

  lemma TargetsAre(i: Interface, s: Subst)
    requires Stand(i, s) && InterfaceOk(i)
    ensures forall v <- s :: IsTarget(i, s[v])
  {
    forall v | v in s ensures IsTarget(i, s[v]) {
      assert s[v] == SubstV(s, v);
      if k :| 0 <= k < |i.pure| && i.pure[k] == v {
      } else if k :| 0 <= k < |i.scalars| && i.scalars[k] == v {
      } else {
        var k :| 0 <= k < |i.pointers| && i.pointers[k] == v;
        assert v in i.scalars + i.pointers;
      }
    }
  }

  lemma TargetsApart(ids: map<Id, Id>, i: Interface, s: Subst, ni: Id)
    requires Stand(i, s) && InterfaceOk(i) && FreshTargets(s, ni) && forall x <- ids :: ids[x] < i.firstLoad
    ensures forall v <- s :: s[v].Inst? ==> s[v].id >= ni && s[v].id !in ids.Values
  {
    hide Stand, InterfaceOk;
    TargetsAre(i, s);
  }

  // End to end: for as long as the region runs, a call of the function the extractor built does
  // the same,
  lemma PrefixOfBuilt(f: Func, nl: Label, ni: Id, g: Func, p: Plan, i: Interface, s: Subst, inits: seq<Option<int>>, first: Id,
                      av: map<Label, set<Id>>, inputs: seq<Value>, outputs: seq<Value>, io: map<Value, nat>, oi: map<Value, Value>,
                      pointers: set<Value>, from: Label, argv: seq<int>, mem: map<int, int>, st: State, n: nat)
    requires Ready(f, nl, ni, p.region) && Built(f, nl, ni, g, p, i, s, [], inits, first)
    requires i == InterfaceOf(inputs, outputs, io, oi, [], pointers, i.params, i.firstLoad, i.firstStore)
    requires Current(f, p.region, inputs, outputs)
    requires NoReturns(f, p.region) && Strict(f, p.region, p.header, av) && OutsKnown(f, p.region, av, OutIds(i))
    requires EnteredFrom(f, p.region, p.header, from) && Passes(i, argv, mem, st)
    requires StaysFor(f, p.region, Cells(i, argv), Goto(f, from, p.header, st), n)
    ensures |argv| == |i.params| && CallKeepsUp(f, p, g, i, from, argv, mem, st, n)
  {
    hide *;
    BuiltIsExtracted(f, nl, ni, g, p, i, s, inits, first, av, inputs, outputs, io, oi, pointers);
    CallOfPrefix(f, p, av, g, nl, ni, i, from, argv, mem, st, n);
  }

  // and when the region is left, the call returns what the region leaves.
  lemma CallOfBuilt(f: Func, nl: Label, ni: Id, g: Func, p: Plan, i: Interface, s: Subst, inits: seq<Option<int>>, first: Id,
                    av: map<Label, set<Id>>, inputs: seq<Value>, outputs: seq<Value>, io: map<Value, nat>, oi: map<Value, Value>,
                    pointers: set<Value>, from: Label, argv: seq<int>, mem: map<int, int>, st: State, n: nat)
    requires Ready(f, nl, ni, p.region) && Built(f, nl, ni, g, p, i, s, [], inits, first)
    requires i == InterfaceOf(inputs, outputs, io, oi, [], pointers, i.params, i.firstLoad, i.firstStore)
    requires Current(f, p.region, inputs, outputs)
    requires NoReturns(f, p.region) && Strict(f, p.region, p.header, av) && OutsKnown(f, p.region, av, OutIds(i))
    requires EnteredFrom(f, p.region, p.header, from) && Passes(i, argv, mem, st)
    requires var c := Goto(f, from, p.header, st);
             StaysFor(f, p.region, Cells(i, argv), c, n) && !InRegion(p.region, Run(f, c, n).0)
    ensures |argv| == |i.params| && CallMatches(f, p, g, i, from, argv, mem, st, n)
  {
    hide *;
    BuiltIsExtracted(f, nl, ni, g, p, i, s, inits, first, av, inputs, outputs, io, oi, pointers);
    CallOfClone(f, p, av, g, nl, ni, i, from, argv, mem, st, n);
  }

  // Phi k of block l takes an output around every edge from inside the loop.
  ghost predicate TakesOutputs(f: Func, lp: LoopOf, outputs: seq<Value>, k: nat)
    requires lp.header in f.blocks && k < |f.blocks[lp.header].phis|
  {
    forall q <- f.blocks :: q in lp.blocks && lp.header in f.blocks[q].term.dests ==> Pick(f.blocks[lp.header].phis[k].inc, q) in outputs
  }

  // The pairing of inputs with outputs is the one the threading needs: when every bidirectional
  // scalar is a phi of the loop header that takes some output around every back edge, and no
  // phi takes two, it takes the output whose cell it shares.
  lemma PairingCarries(f: Func, p: Plan, i: Interface, lp: LoopOf, inputs0: seq<Value>, inputs: seq<Value>, outputs: seq<Value>,
                       incs: Incomings, allocas: seq<Value>, pointers: set<Value>)
    requires i == InterfaceOf(inputs, outputs, IOMap(inputs0, outputs, incs), OIMap(inputs0, outputs, incs), allocas, pointers,
                              i.params, i.firstLoad, i.firstStore)
    requires Distinct(inputs) && (forall v :: v in inputs <==> v in inputs0) && (forall o <- outputs :: o !in inputs0)
    requires IncomingsOf(f, incs) && SingleOutputs(inputs0, outputs, incs)
    requires (forall o <- outputs :: Defined(f, p.region, o)) && p.ids.Keys == RegionIds(f, p.region)
    requires lp.header in f.blocks && lp.header !in p.region && forall l <- p.region :: l in lp.blocks
    requires forall v <- i.scalars :: exists k :: 0 <= k < |f.blocks[lp.header].phis| && v == Inst(f.blocks[lp.header].phis[k].id)
                                                  && TakesOutputs(f, lp, outputs, k)
    ensures Carried(f, p, i, lp)
  {
    hide IOMap, OIMap, Bidirectional, SingleOutputs, InterfaceOf, TakesOutputs, RegionIds, IncomingsOf, CarriedAt, Distinct;
    var (io, oi) := (IOMap(inputs0, outputs, incs), OIMap(inputs0, outputs, incs));
    InterfaceSeparate(inputs, outputs, io, oi, allocas, pointers, i.params, i.firstLoad, i.firstStore);
    InterfaceParts(inputs, outputs, io, oi, allocas, pointers, i.params, i.firstLoad, i.firstStore);
    forall v | v in i.scalars
      ensures OutputOf(i, v).Inst? && OutputOf(i, v).id in p.ids && exists k :: 0 <= k < |f.blocks[lp.header].phis| && CarriedAt(f, i, lp, v, k)
    {
      assert v in i.scalars + i.pointers && v in inputs && Bidirectional(oi, v);
      InRange(inputs0, outputs, incs, v);
      assert OutputOf(i, v) == outputs[io[v]] && OutputOf(i, v) in outputs;
      var k :| 0 <= k < |f.blocks[lp.header].phis| && v == Inst(f.blocks[lp.header].phis[k].id) && TakesOutputs(f, lp, outputs, k);
      PairedAt(f, i, lp, inputs0, outputs, incs, v, k);
    }
  }

  lemma PairedAt(f: Func, i: Interface, lp: LoopOf, inputs0: seq<Value>, outputs: seq<Value>, incs: Incomings, v: Value, k: nat)
    requires IncomingsOf(f, incs) && SingleOutputs(inputs0, outputs, incs) && lp.header in f.blocks && k < |f.blocks[lp.header].phis|
    requires v == Inst(f.blocks[lp.header].phis[k].id) && TakesOutputs(f, lp, outputs, k) && v in inputs0
    requires OutputOf(i, v) in outputs && (OutputOf(i, v) == v || Takes(incs, v, OutputOf(i, v)))
    requires (forall o <- outputs :: o !in inputs0 && o.Inst?)
    ensures CarriedAt(f, i, lp, v, k)
  {
    hide SingleOutputs, IncUses, OutputOf;
    var inc := f.blocks[lp.header].phis[k].inc;
    forall q | q in f.blocks && q in lp.blocks && lp.header in f.blocks[q].term.dests ensures Pick(inc, q) == OutputOf(i, v) {
      PickUse(inc, q);
      assert Pick(inc, q) in outputs && incs[v] == IncUses(inc);
      OneOutput(inputs0, outputs, incs, v, Pick(inc, q), OutputOf(i, v));
    }
  }
}
