/** A run of the clone follows a run of the region step by step, for as long as the run stays
    in the region, and reaches the exit when it leaves. */
module CloneRuns {
  import opened Collections
  import opened Ssa
  import opened Split
  import opened Partition
  import opened Clone
  import opened Sever
  import SeverRuns

  // ---------- what the clone starts from ----------

  ghost predicate Injective<A(!new), B>(m: map<A, B>) { forall a <- m, b <- m :: m[a] == m[b] ==> a == b }

  // The names of the clone are new: labels from nl on, ids from ni on.
  ghost predicate FreshPlan(f: Func, p: Plan, nl: Label, ni: Id) {
    && Below(f, nl, ni)
    && Injective(p.labels) && (forall l <- p.labels :: p.labels[l] >= nl && p.labels[l] != p.root && p.labels[l] != p.exit)
    && p.root >= nl && p.exit >= nl && p.root != p.exit
    && p.ids.Keys == RegionIds(f, p.region)
    && Injective(p.ids) && (forall i <- p.ids :: p.ids[i] >= ni)
  }

  // What stands for the inputs: arguments and values computed in the root block.
  ghost predicate InputsPlanned(f: Func, p: Plan, ni: Id) {
    && (forall v <- p.inputs :: !v.Const? && !Defined(f, p.region, v))
    && (forall v <- p.inputs :: p.inputs[v].Inst? ==> p.inputs[v].id >= ni && p.inputs[v].id !in p.ids.Values)
  }

  // Every value from outside that the region uses is an input.
  ghost predicate Covered(f: Func, p: Plan) {
    forall l <- p.region, v <- (if l in f.blocks then Uses(f.blocks[l]) else []) ::
      v.Const? || Defined(f, p.region, v) || v in p.inputs
  }

  // No block of the region returns, and none allocates.
  ghost predicate NoReturns(f: Func, region: seq<Label>) {
    forall l <- region :: l in f.blocks && f.blocks[l].term.dests != [] && forall i <- f.blocks[l].body :: !i.code.Alloca?
  }

  // The header is entered from one block outside the region.
  ghost predicate EnteredFrom(f: Func, region: seq<Label>, header: Label, from: Label) {
    && header in f.blocks && from !in region
    && forall x <- f.blocks[header].phis, e <- x.inc :: e.from in region || e.from == from
  }

  ghost predicate Extracted(f: Func, p: Plan, av: map<Label, set<Id>>, g: Func, nl: Label, ni: Id) {
    && IsClone(f, p, g) && FreshPlan(f, p, nl, ni) && InputsPlanned(f, p, ni) && Covered(f, p)
    && UniqueIds(f) && NoReturns(f, p.region) && Strict(f, p.region, p.header, av)
  }

  // ---------- related states ----------

  // `known` has been computed by both; the inputs still stand for the values they stood for;
  // memory is the same outside the output cells, and the cells are as they were in mem0.
  ghost predicate Follows(p: Plan, known: set<Id>, cells: set<int>, mem0: map<int, int>, st: State, st': State) {
    && (forall i <- known :: Look(st'.env, NewId(p.ids, i)) == Look(st.env, i))
    && (forall v <- p.inputs :: Eval(p.inputs[v], st') == Eval(v, st))
    && (forall a :: a !in cells ==> Look(st'.mem, a) == Look(st.mem, a))
    && (forall a :: a in cells ==> Look(st'.mem, a) == Look(mem0, a))
  }

  function CloneEvent(ids: map<Id, Id>, e: Event): Event {
    match e
    case Computed(i, x) => Computed(NewId(ids, i), x)
    case Read(i, a, x) => Read(NewId(ids, i), a, x)
    case Wrote(i, a, x) => Wrote(NewId(ids, i), a, x)
    case Went(i, w) => Went(NewId(ids, i), w)
  }

  function CloneTrace(ids: map<Id, Id>, t: seq<Event>): (r: seq<Event>)
    ensures |r| == |t|
  {
    seq(|t|, k requires 0 <= k < |t| => CloneEvent(ids, t[k]))
  }

  // The event does not touch the output cells, which only the caller of the clone knows.
  predicate Spares(cells: set<int>, e: Event) { (e.Read? || e.Wrote?) ==> e.addr !in cells }

  // ---------- operands ----------

  lemma OperandClone(f: Func, p: Plan, ni: Id, known: set<Id>, cells: set<int>, mem0: map<int, int>, st: State, st': State, v: Value)
    requires InputsPlanned(f, p, ni) && p.ids.Keys == RegionIds(f, p.region) && (forall i <- p.ids.Keys :: i < ni)
    requires v.Const? || Defined(f, p.region, v) || v in p.inputs
    requires MayUse(f, p.region, v, known) && Follows(p, known, cells, mem0, st, st')
    ensures Eval(CloneV(p, v), st') == Eval(v, st)
  {
    hide RegionIds;
  }

  lemma OperandsClone(f: Func, p: Plan, ni: Id, known: set<Id>, cells: set<int>, mem0: map<int, int>, st: State, st': State, vs: seq<Value>)
    requires InputsPlanned(f, p, ni) && p.ids.Keys == RegionIds(f, p.region) && (forall i <- p.ids.Keys :: i < ni)
    requires forall v <- vs :: v.Const? || Defined(f, p.region, v) || v in p.inputs
    requires MayUseAll(f, p.region, vs, known) && Follows(p, known, cells, mem0, st, st')
    ensures EvalAll(CloneVs(p, vs), st') == EvalAll(vs, st)
  {
    hide RegionIds, InputsPlanned, Follows, MayUse, Defined;
    forall k | 0 <= k < |vs| ensures EvalAll(CloneVs(p, vs), st')[k] == EvalAll(vs, st)[k] {
      assert vs[k] in vs;
      OperandClone(f, p, ni, known, cells, mem0, st, st', vs[k]);
    }
  }

  // Writing the result of a region instruction, in both states.
  lemma ResultFollows(f: Func, p: Plan, ni: Id, known: set<Id>, cells: set<int>, mem0: map<int, int>, st: State, st': State, i: Id, r: int)
    requires InputsPlanned(f, p, ni) && p.ids.Keys == RegionIds(f, p.region) && Injective(p.ids)
    requires i in p.ids && known <= p.ids.Keys && Follows(p, known, cells, mem0, st, st')
    ensures Follows(p, known + {i}, cells, mem0, st.(env := st.env[i := r]), st'.(env := st'.env[NewId(p.ids, i) := r]))
  {
    hide RegionIds;
  }

  lemma StoreFollows(p: Plan, known: set<Id>, cells: set<int>, mem0: map<int, int>, st: State, st': State, a: int, x: int)
    requires Follows(p, known, cells, mem0, st, st') && a !in cells
    ensures Follows(p, known, cells, mem0, st.(mem := st.mem[a := x]), st'.(mem := st'.mem[a := x]))
  {
  }

  lemma LoadFollows(p: Plan, known: set<Id>, cells: set<int>, mem0: map<int, int>, st: State, st': State, a: int)
    requires Follows(p, known, cells, mem0, st, st') && a !in cells
    ensures Look(st'.mem, a) == Look(st.mem, a)
  {
  }

  lemma ExecClone(f: Func, p: Plan, ni: Id, known: set<Id>, cells: set<int>, mem0: map<int, int>, st: State, st': State, i: Instr)
    requires InputsPlanned(f, p, ni) && p.ids.Keys == RegionIds(f, p.region) && Injective(p.ids) && (forall x <- p.ids.Keys :: x < ni)
    requires forall v <- i.ops :: v.Const? || Defined(f, p.region, v) || v in p.inputs
    requires MayUseAll(f, p.region, i.ops, known) && Follows(p, known, cells, mem0, st, st')
    requires i.id in p.ids && known <= p.ids.Keys && !i.code.Alloca?
    requires Spares(cells, Exec(i, st).1)
    ensures Exec(CloneInstr(p, i), st').1 == CloneEvent(p.ids, Exec(i, st).1)
    ensures Follows(p, if i.code.Store? then known else known + {i.id}, cells, mem0, Exec(i, st).0, Exec(CloneInstr(p, i), st').0)
  {
    hide RegionIds, InputsPlanned, MayUseAll, Follows;
    OperandsClone(f, p, ni, known, cells, mem0, st, st', i.ops);
    var vals := EvalAll(i.ops, st);
    if i.code.Store? {
      StoreFollows(p, known, cells, mem0, st, st', Nth(vals, 0), Nth(vals, 1));
    } else {
      if i.code.Load? { LoadFollows(p, known, cells, mem0, st, st', Nth(vals, 0)); }
      var r := if i.code.Load? then Look(st.mem, Nth(vals, 0)) else i.code.f(vals);
      ResultFollows(f, p, ni, known, cells, mem0, st, st', i.id, r);
    }
  }

  // ---------- phis ----------

  lemma {:induction false} PickMapped(p: Plan, l: Label, inc: seq<Incoming>, from: Label, target: Label)
    requires forall e <- inc :: CloneFrom(p, l, e.from) == target <==> e.from == from
    requires CloneV(p, Const(0)) == Const(0)
    ensures Pick(CloneInc(p, l, inc), target) == CloneV(p, Pick(inc, from))
  {
    hide CloneFrom, CloneV;
    if inc != [] {
      assert forall e <- inc[1..] :: e in inc;
      assert CloneInc(p, l, inc)[1..] == CloneInc(p, l, inc[1..]);
      PickMapped(p, l, inc[1..], from, target);
    }
  }

  // Taking the phis of corresponding blocks with corresponding values.
  lemma EnterClone(p: Plan, l: Label, phis: seq<Phi>, from: Label, from': Label, known: set<Id>,
                   cells: set<int>, mem0: map<int, int>, st: State, st': State)
    requires Distinct(PhiIds(phis)) && Injective(p.ids) && (forall i <- PhiIds(phis) :: i in p.ids) && known <= p.ids.Keys
    requires forall v <- p.inputs :: v.Inst? ==> v.id !in p.ids
    requires forall v <- p.inputs :: p.inputs[v].Inst? ==> p.inputs[v].id !in p.ids.Values
    requires Follows(p, known, cells, mem0, st, st')
    requires forall k :: 0 <= k < |phis| ==> Eval(Pick(ClonePhis(p, l, phis)[k].inc, from'), st') == Eval(Pick(phis[k].inc, from), st)
    ensures Follows(p, known + Elements(PhiIds(phis)), cells, mem0, Enter(phis, from, st), Enter(ClonePhis(p, l, phis), from', st'))
  {
    hide Enter, Pick, Injective;
    var phis' := ClonePhis(p, l, phis);
    var (e, e') := (Enter(phis, from, st), Enter(phis', from', st'));
    CloneIdsDistinct(p, l, phis);
    EnterAt(phis, from, st);
    EnterAt(phis', from', st');
    SeverRuns.EnterFrame(phis, from, st);
    SeverRuns.EnterFrame(phis', from', st');
    forall i | i in known + Elements(PhiIds(phis)) ensures Look(e'.env, NewId(p.ids, i)) == Look(e.env, i) {
      if i in PhiIds(phis) {
        var k :| 0 <= k < |phis| && PhiIds(phis)[k] == i;
        assert phis[k].id == i && phis'[k].id == NewId(p.ids, i);
      } else {
        NotAPhi(p, l, phis, i);
      }
    }
    forall v | v in p.inputs ensures Eval(p.inputs[v], e') == Eval(v, e) {
      assert v.Inst? ==> v.id !in PhiIds(phis);
      InputNotAPhi(p, l, phis, p.inputs[v]);
    }
  }

  lemma CloneIdsDistinct(p: Plan, l: Label, phis: seq<Phi>)
    requires Distinct(PhiIds(phis)) && Injective(p.ids) && (forall i <- PhiIds(phis) :: i in p.ids)
    ensures Distinct(PhiIds(ClonePhis(p, l, phis)))
  {
    var phis' := ClonePhis(p, l, phis);
    forall i, j | 0 <= i < j < |phis'| ensures PhiIds(phis')[i] != PhiIds(phis')[j] {
      assert PhiIds(phis)[i] in p.ids && PhiIds(phis)[j] in p.ids && PhiIds(phis)[i] != PhiIds(phis)[j];
    }
  }

  lemma NotAPhi(p: Plan, l: Label, phis: seq<Phi>, i: Id)
    requires Injective(p.ids) && i in p.ids && i !in PhiIds(phis) && (forall j <- PhiIds(phis) :: j in p.ids)
    ensures NewId(p.ids, i) !in PhiIds(ClonePhis(p, l, phis))
  {
    forall k | 0 <= k < |phis| ensures PhiIds(ClonePhis(p, l, phis))[k] != NewId(p.ids, i) {
      assert PhiIds(phis)[k] in p.ids && PhiIds(phis)[k] != i;
    }
  }

  lemma InputNotAPhi(p: Plan, l: Label, phis: seq<Phi>, v: Value)
    requires v.Inst? ==> v.id !in p.ids.Values
    requires forall j <- PhiIds(phis) :: j in p.ids
    ensures v.Inst? ==> v.id !in PhiIds(ClonePhis(p, l, phis))
  {
    forall k | 0 <= k < |phis| ensures PhiIds(ClonePhis(p, l, phis))[k] in p.ids.Values {
      assert PhiIds(phis)[k] in p.ids;
    }
  }

  // ---------- facts about one block of the region ----------

  lemma RegionNames(f: Func, p: Plan, av: map<Label, set<Id>>, g: Func, nl: Label, ni: Id, l: Label)
    requires Extracted(f, p, av, g, nl, ni) && l in p.region
    ensures l in f.blocks && l in av && l in p.labels && p.labels[l] in g.blocks
    ensures g.blocks[p.labels[l]] == CloneBlock(p, l, f.blocks[l])
    ensures f.blocks[l].term.dests != [] && forall i <- f.blocks[l].body :: !i.code.Alloca?
    ensures p.ids.Keys == RegionIds(f, p.region) && Injective(p.ids) && InputsPlanned(f, p, ni)
    ensures StrictBlock(f, p.region, av, l)
  {
    hide Below, UniqueIds, Covered, CloneBlock, RegionIds, InputsPlanned, Injective, MayUseAll, Available;
    assert StrictBlock(f, p.region, av, l);
    assert l in p.labels && p.labels[l] in p.labels.Values;
  }

  lemma RegionIdsOf(f: Func, p: Plan, av: map<Label, set<Id>>, g: Func, nl: Label, ni: Id, l: Label)
    requires Extracted(f, p, av, g, nl, ni) && l in p.region
    ensures l in f.blocks && forall i <- Insts(f.blocks[l]) :: i in p.ids && i < ni
  {
    hide UniqueIds, Covered, CloneBlock, StrictBlock, InputsPlanned, Injective, Insts;
    var b := f.blocks[l];
    InstsBelow(b, nl, ni);
    forall i | i in Insts(b) ensures i in RegionIds(f, p.region) {}
  }

  lemma InstsBelow(b: Block, nl: Label, ni: Id)
    requires BlockBelow(b, nl, ni)
    ensures forall i <- Insts(b) :: i < ni
  {
    forall k | 0 <= k < |Insts(b)| ensures Insts(b)[k] < ni {
      if k < |b.phis| {
        assert PhiBelow(b.phis[k], nl, ni);
      } else if k < |b.phis| + |b.body| {
        assert InstrBelow(b.body[k - |b.phis|], ni);
      }
    }
  }

  lemma BlockIds(b: Block)
    ensures forall i <- PhiIds(b.phis) :: i in Insts(b)
    ensures forall k :: 0 <= k < |b.body| ==> b.body[k].id in Insts(b)
    ensures b.term.id in Insts(b)
    ensures Distinct(Insts(b)) ==> Distinct(PhiIds(b.phis))
  {
    var xs := Insts(b);
    forall i | i in PhiIds(b.phis) ensures i in xs {}
    forall k | 0 <= k < |b.body| ensures b.body[k].id in xs { assert xs[|b.phis| + k] == b.body[k].id; }
    assert xs[|xs| - 1] == b.term.id;
    if Distinct(xs) {
      forall i, j | 0 <= i < j < |b.phis| ensures PhiIds(b.phis)[i] != PhiIds(b.phis)[j] {
        assert xs[i] == PhiIds(b.phis)[i] && xs[j] == PhiIds(b.phis)[j];
      }
    }
  }

  lemma RegionPhis(f: Func, p: Plan, av: map<Label, set<Id>>, g: Func, nl: Label, ni: Id, l: Label)
    requires Extracted(f, p, av, g, nl, ni) && l in p.region
    ensures l in f.blocks && Distinct(PhiIds(f.blocks[l].phis)) && (forall i <- PhiIds(f.blocks[l].phis) :: i in p.ids)
  {
    RegionIdsOf(f, p, av, g, nl, ni, l);
    DistinctBlock(f, p, av, g, nl, ni, l);
    hide Extracted, Insts;
    BlockIds(f.blocks[l]);
  }

  lemma DistinctBlock(f: Func, p: Plan, av: map<Label, set<Id>>, g: Func, nl: Label, ni: Id, l: Label)
    requires Extracted(f, p, av, g, nl, ni) && l in f.blocks
    ensures Distinct(Insts(f.blocks[l]))
  {
    hide Below, Covered, IsClone, FreshPlan, Strict, NoReturns, Insts, InputsPlanned;
  }

  lemma InputNames(f: Func, p: Plan, av: map<Label, set<Id>>, g: Func, nl: Label, ni: Id)
    requires Extracted(f, p, av, g, nl, ni)
    ensures forall v <- p.inputs :: v.Inst? ==> v.id !in p.ids
    ensures forall v <- p.inputs :: p.inputs[v].Inst? ==> p.inputs[v].id !in p.ids.Values
    ensures CloneV(p, Const(0)) == Const(0)
  {
    hide Below, Covered, IsClone, UniqueIds, Strict, NoReturns, RegionIds, Injective;
  }

  // The values the region takes from outside are inputs.
  lemma UseCovered(f: Func, p: Plan, av: map<Label, set<Id>>, g: Func, nl: Label, ni: Id, l: Label, v: Value)
    requires Extracted(f, p, av, g, nl, ni) && l in p.region && l in f.blocks
    requires v in Uses(f.blocks[l]) || v == Const(0)
    ensures v.Const? || Defined(f, p.region, v) || v in p.inputs
  {
    hide Below, UniqueIds, CloneBlock, StrictBlock, Injective, RegionIds, Insts, Uses, InputsPlanned;
  }

  lemma AvailableIds(f: Func, p: Plan, av: map<Label, set<Id>>, g: Func, nl: Label, ni: Id, l: Label, k: nat)
    requires Extracted(f, p, av, g, nl, ni) && l in p.region
    ensures l in f.blocks && l in av && (k <= |f.blocks[l].body| ==> Available(f, av, l, k) <= p.ids.Keys)
  {
    RegionNames(f, p, av, g, nl, ni, l);
    RegionIdsOf(f, p, av, g, nl, ni, l);
    BlockIds(f.blocks[l]);
    hide Extracted, RegionIds, Insts;
    if k <= |f.blocks[l].body| {
      forall i | i in ValueIds(f.blocks[l].body[..k]) ensures i in p.ids {
        var j :| 0 <= j < k && f.blocks[l].body[j].id == i;
      }
    }
  }

  // ---------- one step ----------

  predicate InRegion(region: seq<Label>, c: Config) { c.At? && c.blk in region }

  // After leaving: the values in `outs` and the memory are what the region made them.
  ghost predicate LeftWith(p: Plan, outs: set<Id>, cells: set<int>, mem0: map<int, int>, st: State, st': State) {
    && (forall i <- outs :: Look(st'.env, NewId(p.ids, i)) == Look(st.env, i))
    && (forall a :: a !in cells ==> Look(st'.mem, a) == Look(st.mem, a))
    && (forall a :: a in cells ==> Look(st'.mem, a) == Look(mem0, a))
  }

  // The clone is where the original is: in the clone of the same block, at the same
  // instruction, or at its exit when the original has left the region.
  ghost predicate InStep(f: Func, p: Plan, av: map<Label, set<Id>>, outs: set<Id>, cells: set<int>, mem0: map<int, int>,
                         c: Config, d: Config)
  {
    if InRegion(p.region, c) then
      && c.blk in f.blocks && c.blk in av && c.blk in p.labels && c.pos <= |f.blocks[c.blk].body|
      && d.At? && d.blk == p.labels[c.blk] && d.pos == c.pos
      && Follows(p, Available(f, av, c.blk, c.pos), cells, mem0, c.st, d.st)
    else
      d.At? && d.blk == p.exit && d.pos == 0 && LeftWith(p, outs, cells, mem0, c.st, d.st)
  }

  // The values wanted outside are computed on every way out.
  ghost predicate OutsKnown(f: Func, region: seq<Label>, av: map<Label, set<Id>>, outs: set<Id>) {
    forall l <- region :: l in f.blocks && l in av &&
      forall d <- f.blocks[l].term.dests :: d !in region ==> outs <= Available(f, av, l, |f.blocks[l].body|)
  }

  lemma BodyStep(f: Func, p: Plan, av: map<Label, set<Id>>, g: Func, nl: Label, ni: Id, outs: set<Id>,
                 cells: set<int>, mem0: map<int, int>, c: Config, d: Config)
    requires Extracted(f, p, av, g, nl, ni) && InStep(f, p, av, outs, cells, mem0, c, d) && InRegion(p.region, c)
    requires c.pos < |f.blocks[c.blk].body| && forall e <- Step(f, c).1 :: Spares(cells, e)
    ensures InStep(f, p, av, outs, cells, mem0, Step(f, c).0, Step(g, d).0)
    ensures Step(g, d).1 == CloneTrace(p.ids, Step(f, c).1)
  {
    hide Extracted, Follows, Exec, CloneInstr, Available, CloneEvent, Step;
    var (l, k) := (c.blk, c.pos);
    var i := f.blocks[l].body[k];
    RegionNames(f, p, av, g, nl, ni, l);
    assert g.blocks[d.blk].body[k] == CloneInstr(p, i);
    StepBody(f, l, k, c.st);
    StepBody(g, d.blk, k, d.st);
    assert Exec(i, c.st).1 in Step(f, c).1;
    BodyFollows(f, p, av, g, nl, ni, cells, mem0, l, k, c.st, d.st);
    assert Step(g, d).1 == [CloneEvent(p.ids, Exec(i, c.st).1)];
  }

  lemma BodyFollows(f: Func, p: Plan, av: map<Label, set<Id>>, g: Func, nl: Label, ni: Id,
                    cells: set<int>, mem0: map<int, int>, l: Label, k: nat, st: State, st': State)
    requires Extracted(f, p, av, g, nl, ni) && l in p.region && l in f.blocks && l in av && k < |f.blocks[l].body|
    requires Follows(p, Available(f, av, l, k), cells, mem0, st, st')
    requires Spares(cells, Exec(f.blocks[l].body[k], st).1)
    ensures var i := f.blocks[l].body[k];
            && Exec(CloneInstr(p, i), st').1 == CloneEvent(p.ids, Exec(i, st).1)
            && Follows(p, Available(f, av, l, k + 1), cells, mem0, Exec(i, st).0, Exec(CloneInstr(p, i), st').0)
  {
    hide Extracted, Follows, Exec, RegionIds, Injective, InputsPlanned, MayUseAll, CloneInstr, Available, CloneEvent, Insts, MayUse, Defined;
    var i := f.blocks[l].body[k];
    var known := Available(f, av, l, k);
    RegionNames(f, p, av, g, nl, ni, l);
    RegionIdsOf(f, p, av, g, nl, ni, l);
    AvailableIds(f, p, av, g, nl, ni, l, k);
    BlockIds(f.blocks[l]);
    OperandsCovered(f, p, av, g, nl, ni, l, k);
    BelowIds(f, p, av, g, nl, ni);
    AvailableNext(f, av, l, k);
    assert Available(f, av, l, k + 1) == if i.code.Store? then known else known + {i.id};
    ExecClone(f, p, ni, known, cells, mem0, st, st', i);
  }

  lemma AvailableNext(f: Func, av: map<Label, set<Id>>, l: Label, k: nat)
    requires l in f.blocks && l in av && k < |f.blocks[l].body|
    ensures Available(f, av, l, k + 1) ==
            Available(f, av, l, k) + if f.blocks[l].body[k].code.Store? then {} else {f.blocks[l].body[k].id}
  {
    var body := f.blocks[l].body;
    assert body[..k + 1] == body[..k] + [body[k]];
    assert ValueIds(body[..k + 1]) == ValueIds(body[..k]) + if body[k].code.Store? then {} else {body[k].id};
  }

  lemma OperandsCovered(f: Func, p: Plan, av: map<Label, set<Id>>, g: Func, nl: Label, ni: Id, l: Label, k: nat)
    requires Extracted(f, p, av, g, nl, ni) && l in p.region && l in f.blocks
    ensures k < |f.blocks[l].body| ==>
              forall v <- f.blocks[l].body[k].ops :: v.Const? || Defined(f, p.region, v) || v in p.inputs
    ensures forall v <- f.blocks[l].term.ops :: v.Const? || Defined(f, p.region, v) || v in p.inputs
  {
    hide Extracted, Defined;
    var b := f.blocks[l];
    if k < |b.body| {
      forall v | v in b.body[k].ops ensures v.Const? || Defined(f, p.region, v) || v in p.inputs {
        BodyUse(b.body, k, v);
        UseCovered(f, p, av, g, nl, ni, l, v);
      }
    }
    forall v | v in b.term.ops ensures v.Const? || Defined(f, p.region, v) || v in p.inputs {
      UseCovered(f, p, av, g, nl, ni, l, v);
    }
  }

  lemma BelowIds(f: Func, p: Plan, av: map<Label, set<Id>>, g: Func, nl: Label, ni: Id)
    requires Extracted(f, p, av, g, nl, ni)
    ensures forall i <- p.ids.Keys :: i < ni
    ensures p.labels.Keys == (set l | l in p.region) && Injective(p.labels) && p.root !in p.labels.Values
    ensures forall l <- p.labels :: p.labels[l] >= nl
    ensures p.exit in g.blocks && g.blocks[p.exit].phis == []
    ensures forall l <- f.blocks, x <- f.blocks[l].phis, e <- x.inc :: e.from < nl
  {
    hide Covered, UniqueIds, CloneBlock, Strict, NoReturns, Insts;
    forall i | i in p.ids.Keys ensures i < ni {
      assert i in RegionIds(f, p.region);
      var l :| l in f.blocks && l in p.region && i in Insts(f.blocks[l]);
      InstsBelow(f.blocks[l], nl, ni);
    }
    forall l, x, e | l in f.blocks && x in f.blocks[l].phis && e in x.inc ensures e.from < nl {
      assert PhiBelow(x, nl, ni);
    }
  }

  // ---------- edges ----------

  lemma EdgeWithin(f: Func, p: Plan, av: map<Label, set<Id>>, g: Func, nl: Label, ni: Id, outs: set<Id>,
                   cells: set<int>, mem0: map<int, int>, l: Label, to: Label, st: State, st': State)
    requires Extracted(f, p, av, g, nl, ni) && l in p.region && to in p.region && l in f.blocks && l in av
    requires to in f.blocks[l].term.dests
    requires Follows(p, Available(f, av, l, |f.blocks[l].body|), cells, mem0, st, st')
    ensures l in p.labels && to in p.labels
    ensures InStep(f, p, av, outs, cells, mem0, Goto(f, l, to, st), Goto(g, p.labels[l], p.labels[to], st'))
  {
    hide Extracted, Follows, RegionIds, Injective, InputsPlanned, MayUseAll, Enter, CloneInc, Available, StrictBlock, Pick;
    RegionNames(f, p, av, g, nl, ni, l);
    RegionNames(f, p, av, g, nl, ni, to);
    RegionPhis(f, p, av, g, nl, ni, to);
    InputNames(f, p, av, g, nl, ni);
    AvailableIds(f, p, av, g, nl, ni, l, |f.blocks[l].body|);
    var (phis, known) := (f.blocks[to].phis, Available(f, av, l, |f.blocks[l].body|));
    forall k | 0 <= k < |phis|
      ensures Eval(Pick(ClonePhis(p, to, phis)[k].inc, p.labels[l]), st') == Eval(Pick(phis[k].inc, l), st)
    {
      WithinValue(f, p, av, g, nl, ni, cells, mem0, l, to, st, st', k);
    }
    EnterClone(p, to, phis, l, p.labels[l], known, cells, mem0, st, st');
    EdgeKnown(f, p, av, l, to);
    FollowsLess(p, known + Elements(PhiIds(phis)), Available(f, av, to, 0), cells, mem0,
                Enter(phis, l, st), Enter(ClonePhis(p, to, phis), p.labels[l], st'));
  }

  lemma EdgeKnown(f: Func, p: Plan, av: map<Label, set<Id>>, l: Label, to: Label)
    requires StrictBlock(f, p.region, av, l) && to in p.region && to in f.blocks && to in f.blocks[l].term.dests
    ensures to in av && Available(f, av, to, 0) <= Available(f, av, l, |f.blocks[l].body|) + Elements(PhiIds(f.blocks[to].phis))
  {
    assert ValueIds(f.blocks[to].body[..0]) == {};
  }

  lemma FollowsLess(p: Plan, known: set<Id>, less: set<Id>, cells: set<int>, mem0: map<int, int>, st: State, st': State)
    requires Follows(p, known, cells, mem0, st, st') && less <= known
    ensures Follows(p, less, cells, mem0, st, st')
  {
  }

  lemma WithinValue(f: Func, p: Plan, av: map<Label, set<Id>>, g: Func, nl: Label, ni: Id,
                    cells: set<int>, mem0: map<int, int>, l: Label, to: Label, st: State, st': State, k: nat)
    requires Extracted(f, p, av, g, nl, ni) && l in p.region && to in p.region && l in f.blocks && l in av && to in f.blocks
    requires to in f.blocks[l].term.dests && k < |f.blocks[to].phis|
    requires Follows(p, Available(f, av, l, |f.blocks[l].body|), cells, mem0, st, st')
    ensures l in p.labels
    ensures Eval(Pick(ClonePhis(p, to, f.blocks[to].phis)[k].inc, p.labels[l]), st') == Eval(Pick(f.blocks[to].phis[k].inc, l), st)
  {
    hide Extracted, Follows, RegionIds, InputsPlanned, MayUseAll, Available, Uses;
    var (x, known) := (f.blocks[to].phis[k], Available(f, av, l, |f.blocks[l].body|));
    RegionNames(f, p, av, g, nl, ni, l);
    InputNames(f, p, av, g, nl, ni);
    BelowIds(f, p, av, g, nl, ni);
    assert x in f.blocks[to].phis;
    PickMapped(p, to, x.inc, l, p.labels[l]);
    PickCovered(f, p, av, g, nl, ni, to, k, l);
    OperandClone(f, p, ni, known, cells, mem0, st, st', Pick(x.inc, l));
  }

  lemma PickCovered(f: Func, p: Plan, av: map<Label, set<Id>>, g: Func, nl: Label, ni: Id, to: Label, k: nat, from: Label)
    requires Extracted(f, p, av, g, nl, ni) && to in p.region && to in f.blocks && k < |f.blocks[to].phis|
    ensures var v := Pick(f.blocks[to].phis[k].inc, from);
            v.Const? || Defined(f, p.region, v) || v in p.inputs
  {
    hide Extracted, Defined;
    var v := Pick(f.blocks[to].phis[k].inc, from);
    PickUse(f.blocks[to].phis[k].inc, from);
    if v in IncUses(f.blocks[to].phis[k].inc) {
      PhiUse(f.blocks[to].phis, k, v);
    }
    UseCovered(f, p, av, g, nl, ni, to, v);
  }

  // An edge out of the region leads the clone to its exit.
  lemma EdgeAway(f: Func, p: Plan, av: map<Label, set<Id>>, g: Func, nl: Label, ni: Id, outs: set<Id>,
                 cells: set<int>, mem0: map<int, int>, l: Label, to: Label, st: State, st': State)
    requires Extracted(f, p, av, g, nl, ni) && l in p.region && to !in p.region && l in f.blocks && l in av
    requires to in f.blocks[l].term.dests && outs <= Available(f, av, l, |f.blocks[l].body|)
    requires Follows(p, Available(f, av, l, |f.blocks[l].body|), cells, mem0, st, st')
    ensures l in p.labels
    ensures InStep(f, p, av, outs, cells, mem0, Goto(f, l, to, st), Goto(g, p.labels[l], p.exit, st'))
  {
    hide Extracted, RegionIds, Injective, InputsPlanned, MayUseAll, Available, StrictBlock, Pick, Enter;
    RegionNames(f, p, av, g, nl, ni, l);
    BelowIds(f, p, av, g, nl, ni);
    AvailableIds(f, p, av, g, nl, ni, l, |f.blocks[l].body|);
    EnterNothing(p.labels[l], st');
    if to in f.blocks {
      OutsidePhis(f, p, av, g, nl, ni, to, l, st);
    }
  }

  lemma EnterNothing(from: Label, st: State)
    ensures Enter([], from, st) == st
  {
  }

  lemma OutsidePhis(f: Func, p: Plan, av: map<Label, set<Id>>, g: Func, nl: Label, ni: Id, to: Label, from: Label, st: State)
    requires Extracted(f, p, av, g, nl, ni) && to in f.blocks && to !in p.region
    ensures var e := Enter(f.blocks[to].phis, from, st);
            && e.mem == st.mem && e.args == st.args
            && forall i <- p.ids.Keys :: Look(e.env, i) == Look(st.env, i)
  {
    hide Insts, Below, Covered, CloneBlock, Strict, NoReturns, InputsPlanned, Enter;
    var phis := f.blocks[to].phis;
    DistinctBlock(f, p, av, g, nl, ni, to);
    BlockIds(f.blocks[to]);
    EnterAt(phis, from, st);
    SeverRuns.EnterFrame(phis, from, st);
    forall i | i in p.ids.Keys ensures i !in PhiIds(phis) {
      assert i in RegionIds(f, p.region);
      var l :| l in f.blocks && l in p.region && i in Insts(f.blocks[l]);
      assert i !in Insts(f.blocks[to]);
    }
  }

  lemma TermStep(f: Func, p: Plan, av: map<Label, set<Id>>, g: Func, nl: Label, ni: Id, outs: set<Id>,
                 cells: set<int>, mem0: map<int, int>, c: Config, d: Config)
    requires Extracted(f, p, av, g, nl, ni) && InStep(f, p, av, outs, cells, mem0, c, d) && InRegion(p.region, c)
    requires OutsKnown(f, p.region, av, outs)
    requires c.pos == |f.blocks[c.blk].body|
    ensures InStep(f, p, av, outs, cells, mem0, Step(f, c).0, Step(g, d).0)
    ensures Step(g, d).1 == CloneTrace(p.ids, Step(f, c).1)
  {
    hide Extracted, Follows, RegionIds, Injective, InputsPlanned, MayUseAll, Available, LeftWith, Goto, Choice, NewId;
    var l := c.blk;
    RegionNames(f, p, av, g, nl, ni, l);
    var (t, t') := (f.blocks[l].term, g.blocks[d.blk].term);
    assert t' == CloneTerm(p, t);
    SameChoice(f, p, av, g, nl, ni, cells, mem0, l, c.st, d.st);
    var w := Choice(t, c.st);
    var to := t.dests[w];
    assert to in t.dests && t'.dests[w] == CloneDest(p, to);
    StepTerm(f, c);
    StepTerm(g, d);
    if to in p.region {
      EdgeWithin(f, p, av, g, nl, ni, outs, cells, mem0, l, to, c.st, d.st);
    } else {
      EdgeAway(f, p, av, g, nl, ni, outs, cells, mem0, l, to, c.st, d.st);
    }
    assert Step(g, d).1 == [CloneEvent(p.ids, Went(t.id, w))];
  }

  lemma StepTerm(f: Func, c: Config)
    requires c.At? && c.blk in f.blocks && c.pos == |f.blocks[c.blk].body| && f.blocks[c.blk].term.dests != []
    ensures var t := f.blocks[c.blk].term;
            Step(f, c) == (Goto(f, c.blk, t.dests[Choice(t, c.st)], c.st), [Went(t.id, Choice(t, c.st))])
  {
  }

  lemma SameChoice(f: Func, p: Plan, av: map<Label, set<Id>>, g: Func, nl: Label, ni: Id,
                   cells: set<int>, mem0: map<int, int>, l: Label, st: State, st': State)
    requires Extracted(f, p, av, g, nl, ni) && l in p.region && l in f.blocks && l in av && f.blocks[l].term.dests != []
    requires Follows(p, Available(f, av, l, |f.blocks[l].body|), cells, mem0, st, st')
    ensures Choice(CloneTerm(p, f.blocks[l].term), st') == Choice(f.blocks[l].term, st)
  {
    hide Extracted, Follows, RegionIds, Injective, InputsPlanned, Available, MayUse, Defined, CloneV;
    var t := f.blocks[l].term;
    RegionNames(f, p, av, g, nl, ni, l);
    BelowIds(f, p, av, g, nl, ni);
    OperandsCovered(f, p, av, g, nl, ni, l, 0);
    if t.ops != [] {
      assert t.ops[0] in t.ops;
      OperandClone(f, p, ni, Available(f, av, l, |f.blocks[l].body|), cells, mem0, st, st', t.ops[0]);
    }
  }

  // ---------- whole runs ----------

  // For n steps the run stays in the region and touches no output cell.
  ghost predicate StaysFor(f: Func, region: seq<Label>, cells: set<int>, c: Config, n: nat) {
    && (forall m :: 0 <= m < n ==> InRegion(region, Run(f, c, m).0))
    && forall e <- Run(f, c, n).1 :: Spares(cells, e)
  }

  // As long as the region runs, the clone runs with it: the clones of the same blocks, in the
  // same order, the same results, the same memory traffic; and it is at its exit exactly when
  // the original has left the region.
  lemma {:induction false} CloneFollows(f: Func, p: Plan, av: map<Label, set<Id>>, g: Func, nl: Label, ni: Id, outs: set<Id>,
                                        cells: set<int>, mem0: map<int, int>, c: Config, d: Config, n: nat)
    requires Extracted(f, p, av, g, nl, ni) && OutsKnown(f, p.region, av, outs)
    requires InStep(f, p, av, outs, cells, mem0, c, d)
    requires StaysFor(f, p.region, cells, c, n)
    ensures InStep(f, p, av, outs, cells, mem0, Run(f, c, n).0, Run(g, d, n).0)
    ensures Run(g, d, n).1 == CloneTrace(p.ids, Run(f, c, n).1)
  {
    hide Extracted, OutsKnown, InStep, Step, CloneEvent, Spares;
    if n > 0 {
      var (c1, d1) := (Run(f, c, n - 1).0, Run(g, d, n - 1).0);
      assert Run(f, c, n).1 == Run(f, c, n - 1).1 + Step(f, c1).1;
      assert forall e <- Run(f, c, n - 1).1 :: e in Run(f, c, n).1;
      assert forall e <- Step(f, c1).1 :: e in Run(f, c, n).1;
      CloneFollows(f, p, av, g, nl, ni, outs, cells, mem0, c, d, n - 1);
      assert InRegion(p.region, c1);
      OneStep(f, p, av, g, nl, ni, outs, cells, mem0, c1, d1);
      assert Run(g, d, n).1 == Run(g, d, n - 1).1 + Step(g, d1).1;
    }
  }

  lemma OneStep(f: Func, p: Plan, av: map<Label, set<Id>>, g: Func, nl: Label, ni: Id, outs: set<Id>,
                cells: set<int>, mem0: map<int, int>, c: Config, d: Config)
    requires Extracted(f, p, av, g, nl, ni) && OutsKnown(f, p.region, av, outs)
    requires InStep(f, p, av, outs, cells, mem0, c, d) && InRegion(p.region, c)
    requires forall e <- Step(f, c).1 :: Spares(cells, e)
    ensures InStep(f, p, av, outs, cells, mem0, Step(f, c).0, Step(g, d).0)
    ensures Step(g, d).1 == CloneTrace(p.ids, Step(f, c).1)
  {
    hide Extracted, OutsKnown, Step, Follows, Available;
    if c.pos < |f.blocks[c.blk].body| {
      BodyStep(f, p, av, g, nl, ni, outs, cells, mem0, c, d);
    } else {
      TermStep(f, p, av, g, nl, ni, outs, cells, mem0, c, d);
    }
  }
}
