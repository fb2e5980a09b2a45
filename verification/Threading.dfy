/** Calling the extracted function once per iteration, on the same output cells, threads the
    loop-carried values: after n calls the cells hold what the phis of the loop header hold
    after n iterations of the original. */
module Threading {
  import opened Collections
  import opened Ssa
  import opened Split
  import opened Partition
  import opened Clone
  import opened CloneRuns
  import opened CloneCall

  // The loop the region lies in.
  datatype LoopOf = LoopOf(blocks: set<Label>, header: Label)

  // Every bidirectional scalar is a phi of the loop header that takes its output around every
  // back edge.
  ghost predicate Carried(f: Func, p: Plan, i: Interface, lp: LoopOf) {
    && lp.header in f.blocks && lp.header !in p.region && (forall l <- p.region :: l in lp.blocks)
    && forall v <- i.scalars :: OutputOf(i, v).Inst? && OutputOf(i, v).id in p.ids
         && exists k :: 0 <= k < |f.blocks[lp.header].phis| && CarriedAt(f, i, lp, v, k)
  }

  ghost predicate CarriedAt(f: Func, i: Interface, lp: LoopOf, v: Value, k: nat)
    requires lp.header in f.blocks && k < |f.blocks[lp.header].phis|
  {
    && v == Inst(f.blocks[lp.header].phis[k].id)
    && forall q <- f.blocks :: q in lp.blocks && lp.header in f.blocks[q].term.dests ==>
         Pick(f.blocks[lp.header].phis[k].inc, q) == OutputOf(i, v)
  }

  // ---------- one iteration of the original ----------

  // The states compared: what the region has computed, and the carried values.
  ghost predicate SameRegionIds(p: Plan, a: State, b: State) { forall x <- p.ids.Keys :: Look(a.env, x) == Look(b.env, x) }

  ghost predicate TookOutputs(i: Interface, st: State) {
    forall v <- i.scalars :: Eval(v, st) == Eval(OutputOf(i, v), st)
  }

  // Where the run is outside the region, on its way round the loop.
  ghost predicate Elsewhere(p: Plan, lp: LoopOf, c: Config) { c.At? && c.blk in lp.blocks && c.blk !in p.region }

  // A block outside the region does not define what the region defines, and only the loop
  // header defines the carried values.
  lemma ForeignIds(f: Func, p: Plan, av: map<Label, set<Id>>, g: Func, nl: Label, ni: Id, l: Label)
    requires Extracted(f, p, av, g, nl, ni) && l in f.blocks && l !in p.region
    ensures forall x <- Insts(f.blocks[l]) :: x !in p.ids
    ensures Distinct(Insts(f.blocks[l]))
  {
    hide Below, Covered, CloneBlock, Strict, NoReturns, InputsPlanned, Insts;
    forall x | x in Insts(f.blocks[l]) ensures x !in p.ids {
      forall m | m in f.blocks && m in p.region ensures x !in Insts(f.blocks[m]) {}
    }
  }

  lemma ForeignPhis(f: Func, p: Plan, av: map<Label, set<Id>>, g: Func, nl: Label, ni: Id, l: Label, m: Label)
    requires Extracted(f, p, av, g, nl, ni) && l in f.blocks && m in f.blocks && l != m
    ensures forall x <- Insts(f.blocks[l]) :: x !in PhiIds(f.blocks[m].phis)
  {
    hide Below, Covered, IsClone, FreshPlan, Strict, NoReturns, InputsPlanned, Insts;
    BlockIds(f.blocks[m]);
  }

  // An instruction outside the region, other than a header phi, leaves both alone.
  lemma ExecForeign(f: Func, p: Plan, av: map<Label, set<Id>>, g: Func, nl: Label, ni: Id, i: Interface, lp: LoopOf, l: Label, k: nat, st: State)
    requires Extracted(f, p, av, g, nl, ni) && Carried(f, p, i, lp) && l in f.blocks && l !in p.region && k < |f.blocks[l].body|
    ensures SameRegionIds(p, Exec(f.blocks[l].body[k], st).0, st)
    ensures TookOutputs(i, st) ==> TookOutputs(i, Exec(f.blocks[l].body[k], st).0)
  {
    hide Extracted, Insts, CarriedAt;
    var x := f.blocks[l].body[k];
    ForeignIds(f, p, av, g, nl, ni, l);
    BlockIds(f.blocks[l]);
    ExecOnly(x, st);
    if TookOutputs(i, st) {
      forall v | v in i.scalars ensures Eval(v, Exec(x, st).0) == Eval(OutputOf(i, v), Exec(x, st).0) {
        NotTheCarried(f, p, av, g, nl, ni, i, lp, l, k, v);
      }
    }
  }

  lemma ExecOnly(x: Instr, st: State)
    ensures forall y :: y != x.id ==> Look(Exec(x, st).0.env, y) == Look(st.env, y)
    ensures Exec(x, st).0.args == st.args
  {
  }

  lemma NotTheCarried(f: Func, p: Plan, av: map<Label, set<Id>>, g: Func, nl: Label, ni: Id, i: Interface, lp: LoopOf, l: Label, k: nat, v: Value)
    requires Extracted(f, p, av, g, nl, ni) && Carried(f, p, i, lp) && l in f.blocks && l !in p.region && k < |f.blocks[l].body|
    requires v in i.scalars
    ensures v.Inst? && v.id != f.blocks[l].body[k].id && OutputOf(i, v).Inst? && OutputOf(i, v).id in p.ids
  {
    hide Extracted, Pick;
    var q :| 0 <= q < |f.blocks[lp.header].phis| && CarriedAt(f, i, lp, v, q);
    var b := f.blocks[l];
    if l == lp.header {
      ForeignIds(f, p, av, g, nl, ni, l);
      assert Insts(b)[q] == b.phis[q].id && Insts(b)[|b.phis| + k] == b.body[k].id;
    } else {
      ForeignPhis(f, p, av, g, nl, ni, l, lp.header);
      BlockIds(b);
      assert PhiIds(f.blocks[lp.header].phis)[q] == v.id;
    }
  }

  // An edge outside the region: taken into the loop header, the carried values become the
  // outputs; taken elsewhere, nothing of either changes.
  lemma EdgeForeign(f: Func, p: Plan, av: map<Label, set<Id>>, g: Func, nl: Label, ni: Id, i: Interface, lp: LoopOf,
                    l: Label, to: Label, st: State)
    requires Extracted(f, p, av, g, nl, ni) && Carried(f, p, i, lp) && l in f.blocks && l in lp.blocks
    requires to in f.blocks && to !in p.region && to in f.blocks[l].term.dests
    ensures var e := Enter(f.blocks[to].phis, l, st);
            && SameRegionIds(p, e, st)
            && (to == lp.header || TookOutputs(i, st) ==> TookOutputs(i, e))
  {
    hide Extracted, Carried, Enter;
    var e := Enter(f.blocks[to].phis, l, st);
    OutsidePhis(f, p, av, g, nl, ni, to, l, st);
    if to == lp.header || TookOutputs(i, st) {
      forall v | v in i.scalars ensures Eval(v, e) == Eval(OutputOf(i, v), e) {
        CarriedEdge(f, p, av, g, nl, ni, i, lp, l, to, st, v);
      }
    }
  }

  lemma CarriedEdge(f: Func, p: Plan, av: map<Label, set<Id>>, g: Func, nl: Label, ni: Id, i: Interface, lp: LoopOf,
                    l: Label, to: Label, st: State, v: Value)
    requires Extracted(f, p, av, g, nl, ni) && Carried(f, p, i, lp) && l in f.blocks && l in lp.blocks
    requires to in f.blocks && to !in p.region && to in f.blocks[l].term.dests && v in i.scalars
    ensures var e := Enter(f.blocks[to].phis, l, st);
            && OutputOf(i, v).Inst? && OutputOf(i, v).id in p.ids
            && Eval(v, e) == if to == lp.header then Eval(OutputOf(i, v), st) else Eval(v, st)
  {
    hide Extracted, Enter, Pick, Insts;
    var (phis, hs) := (f.blocks[to].phis, f.blocks[lp.header].phis);
    var q :| 0 <= q < |hs| && CarriedAt(f, i, lp, v, q);
    ForeignIds(f, p, av, g, nl, ni, to);
    BlockIds(f.blocks[to]);
    EnterAt(phis, l, st);
    if to != lp.header {
      ForeignPhis(f, p, av, g, nl, ni, to, lp.header);
      assert PhiIds(hs)[q] == v.id;
    }
  }

  lemma StepForeign(f: Func, p: Plan, av: map<Label, set<Id>>, g: Func, nl: Label, ni: Id, i: Interface, lp: LoopOf, c: Config)
    requires Extracted(f, p, av, g, nl, ni) && Carried(f, p, i, lp) && c.At? && c.blk in f.blocks && c.blk in lp.blocks
    requires c.blk in p.region ==> c.pos >= |f.blocks[c.blk].body|
    requires Elsewhere(p, lp, Step(f, c).0)
    ensures var d := Step(f, c).0;
            && SameRegionIds(p, d.st, c.st)
            && (AtLoopHeader(lp, d) || TookOutputs(i, c.st) ==> TookOutputs(i, d.st))
            && d.blk in f.blocks
  {
    hide Extracted, Carried, Enter, Exec, SameRegionIds, TookOutputs, Choice;
    var b := f.blocks[c.blk];
    if c.pos < |b.body| {
      StepBody(f, c.blk, c.pos, c.st);
      ExecForeign(f, p, av, g, nl, ni, i, lp, c.blk, c.pos, c.st);
    } else {
      var to := b.term.dests[Choice(b.term, c.st)];
      assert to in b.term.dests;
      EdgeForeign(f, p, av, g, nl, ni, i, lp, c.blk, to, c.st);
    }
  }

  ghost predicate PassesHeader(f: Func, lp: LoopOf, c: Config, from: nat, to: nat) {
    exists t :: from <= t <= to && AtLoopHeader(lp, Run(f, c, t).0)
  }

  lemma WayStep(f: Func, p: Plan, av: map<Label, set<Id>>, g: Func, nl: Label, ni: Id, i: Interface, lp: LoopOf, c: Config, y: State)
    requires Extracted(f, p, av, g, nl, ni) && Carried(f, p, i, lp) && c.At? && c.blk in f.blocks && c.blk in lp.blocks
    requires c.blk in p.region ==> c.pos >= |f.blocks[c.blk].body|
    requires Elsewhere(p, lp, Step(f, c).0) && SameRegionIds(p, c.st, y)
    ensures var d := Step(f, c).0;
            && SameRegionIds(p, d.st, y) && d.blk in f.blocks
            && (AtLoopHeader(lp, d) || TookOutputs(i, c.st) ==> TookOutputs(i, d.st))
  {
    hide *;
    StepForeign(f, p, av, g, nl, ni, i, lp, c);
    SameTrans(p, Step(f, c).0.st, c.st, y);
  }

  // Between step n, which is out of the region, and step m, the carried values become the
  // outputs where the loop header is passed.
  ghost predicate CarriesSo(f: Func, p: Plan, i: Interface, lp: LoopOf, c: Config, n: nat, m: nat, y: State) {
    var d := Run(f, c, m).0;
    && SameRegionIds(p, d.st, y) && d.At? && d.blk in f.blocks
    && (PassesHeader(f, lp, c, n, m) ==> TookOutputs(i, d.st))
  }

  lemma WayOut(f: Func, p: Plan, av: map<Label, set<Id>>, g: Func, nl: Label, ni: Id, i: Interface, lp: LoopOf, c: Config, n: nat, y: Config)
    requires Extracted(f, p, av, g, nl, ni) && Carried(f, p, i, lp) && 0 < n && Run(f, c, n).0 == Step(f, y).0
    requires y.At? && y.blk in f.blocks && y.blk in lp.blocks && y.pos >= |f.blocks[y.blk].body|
    requires Elsewhere(p, lp, Run(f, c, n).0)
    ensures CarriesSo(f, p, i, lp, c, n, n, y.st)
  {
    SameRefl(p, y.st);
    hide Extracted, Carried, Step, SameRegionIds, TookOutputs, AtLoopHeader, Run;
    WayStep(f, p, av, g, nl, ni, i, lp, y, y.st);
    assert PassesHeader(f, lp, c, n, n) ==> AtLoopHeader(lp, Run(f, c, n).0);
  }

  lemma {:induction false} WayRound(f: Func, p: Plan, av: map<Label, set<Id>>, g: Func, nl: Label, ni: Id, i: Interface, lp: LoopOf,
                                    c: Config, n: nat, m: nat, y: Config)
    requires Extracted(f, p, av, g, nl, ni) && Carried(f, p, i, lp) && 0 < n <= m && Run(f, c, n).0 == Step(f, y).0
    requires y.At? && y.blk in f.blocks && y.blk in lp.blocks && y.pos >= |f.blocks[y.blk].body|
    requires forall t :: n <= t <= m ==> Elsewhere(p, lp, Run(f, c, t).0)
    ensures CarriesSo(f, p, i, lp, c, n, m, y.st)
  {
    hide Extracted, Carried, Step, SameRegionIds, TookOutputs, AtLoopHeader, PassesHeader;
    if m == n {
      WayOut(f, p, av, g, nl, ni, i, lp, c, n, y);
    } else {
      WayRound(f, p, av, g, nl, ni, i, lp, c, n, m - 1, y);
      var x := Run(f, c, m - 1).0;
      assert Elsewhere(p, lp, x) && Elsewhere(p, lp, Run(f, c, m).0) && Run(f, c, m).0 == Step(f, x).0;
      WayStep(f, p, av, g, nl, ni, i, lp, x, y.st);
      if PassesHeader(f, lp, c, n, m) { PassesLast(f, lp, c, n, m); }
    }
  }

  lemma PassesLast(f: Func, lp: LoopOf, c: Config, n: nat, m: nat)
    requires n <= m && PassesHeader(f, lp, c, n, m)
    ensures AtLoopHeader(lp, Run(f, c, m).0) || (n < m && PassesHeader(f, lp, c, n, m - 1))
  {
    hide AtLoopHeader, Step;
  }

  predicate AtLoopHeader(lp: LoopOf, c: Config) { c.At? && c.blk == lp.header && c.pos == 0 }

  lemma SameRefl(p: Plan, a: State)
    ensures SameRegionIds(p, a, a)
  {
  }

  lemma SameTrans(p: Plan, a: State, b: State, c: State)
    requires SameRegionIds(p, a, b) && SameRegionIds(p, b, c)
    ensures SameRegionIds(p, a, c)
  {
  }

  // One iteration: the region is run for n steps, then the rest of the loop for m, by way of
  // the loop header, until the region is about to be entered again, in state `next`.
  ghost predicate Iterates(f: Func, p: Plan, lp: LoopOf, from: Label, cells: set<int>, st: State, n: nat, m: nat, next: State) {
    var c := Goto(f, from, p.header, st);
    && n > 0 && StaysFor(f, p.region, cells, c, n)
    && (forall t :: n <= t <= n + m ==> Elsewhere(p, lp, Run(f, c, t).0))
    && PassesHeader(f, lp, c, n, n + m)
    && from in f.blocks && Run(f, c, n + m).0 == At(from, |f.blocks[from].body|, next)
  }

  // After an iteration the carried values are the outputs as the region left them.
  lemma IterationCarries(f: Func, p: Plan, av: map<Label, set<Id>>, g: Func, nl: Label, ni: Id, i: Interface, lp: LoopOf, from: Label,
                         cells: set<int>, st: State, n: nat, m: nat, next: State)
    requires Extracted(f, p, av, g, nl, ni) && Carried(f, p, i, lp) && Iterates(f, p, lp, from, cells, st, n, m, next)
    ensures !InRegion(p.region, Run(f, Goto(f, from, p.header, st), n).0)
    ensures forall v <- i.scalars ::
              OutputOf(i, v).Inst? && Eval(v, next) == Look(Run(f, Goto(f, from, p.header, st), n).0.st.env, OutputOf(i, v).id)
  {
    hide Extracted, Carried, Goto, Step, SameRegionIds, TookOutputs, PassesHeader, Spares;
    var c := Goto(f, from, p.header, st);
    var y := Run(f, c, n - 1).0;
    assert InRegion(p.region, y);
    assert Run(f, c, n).0 == Step(f, y).0 && Elsewhere(p, lp, Run(f, c, n).0);
    LastInRegion(f, p, av, g, nl, ni, i, lp, y);
    WayRound(f, p, av, g, nl, ni, i, lp, c, n, n + m, y);
    WayRound(f, p, av, g, nl, ni, i, lp, c, n, n, y);
    CarriedOutputs(f, p, av, i, lp, y.st, Run(f, c, n).0.st, next);
  }

  lemma LastInRegion(f: Func, p: Plan, av: map<Label, set<Id>>, g: Func, nl: Label, ni: Id, i: Interface, lp: LoopOf, y: Config)
    requires Extracted(f, p, av, g, nl, ni) && Carried(f, p, i, lp) && InRegion(p.region, y) && !InRegion(p.region, Step(f, y).0)
    ensures y.blk in f.blocks && y.blk in lp.blocks && y.pos >= |f.blocks[y.blk].body|
  {
    RegionNames(f, p, av, g, nl, ni, y.blk);
    hide Extracted, Exec, CarriedAt;
  }

  lemma CarriedOutputs(f: Func, p: Plan, av: map<Label, set<Id>>, i: Interface, lp: LoopOf, y: State, out: State, next: State)
    requires Carried(f, p, i, lp) && SameRegionIds(p, out, y) && SameRegionIds(p, next, y) && TookOutputs(i, next)
    ensures forall v <- i.scalars :: OutputOf(i, v).Inst? && Eval(v, next) == Look(out.env, OutputOf(i, v).id)
  {
    hide CarriedAt, OutputOf;
  }

  // ---------- calling it once per iteration ----------

  lemma {:induction false} HaltStays(g: Func, c: Config, t: nat, u: nat)
    requires Run(g, c, t).0.Halt? && Run(g, c, u).0.Halt?
    ensures Run(g, c, t).0 == Run(g, c, u).0
    decreases t + u
  {
    hide Step;
    if t < u {
      RestsHalted(g, c, t, u);
    } else {
      RestsHalted(g, c, u, t);
    }
  }

  lemma {:induction false} RestsHalted(g: Func, c: Config, t: nat, u: nat)
    requires t <= u && Run(g, c, t).0.Halt?
    ensures Run(g, c, u).0 == Run(g, c, t).0
  {
    if t < u { RestsHalted(g, c, t, u - 1); }
  }

  // The output cells after a call with arguments argv in memory mem are as in `later`.
  ghost predicate CallLeaves(g: Func, i: Interface, argv: seq<int>, mem: map<int, int>, later: map<int, int>)
    requires |argv| == |i.params|
  {
    exists t: nat ::
      var e := Run(g, Start(g, CallState(i, argv, mem)), t).0;
      e.Halt? && forall a <- Cells(i, argv) :: Look(later, a) == Look(e.st.mem, a)
  }

  // The arguments of one call: the pure inputs and the pointers as they are in st, and distinct
  // cells for the scalars.
  ghost predicate Supplies(i: Interface, argv: seq<int>, st: State) {
    && |argv| == |i.params|
    && (forall k :: 0 <= k < |i.pure| && k < |argv| ==> argv[k] == Eval(i.pure[k], st))
    && (forall v <- i.pointers :: Cell(i, argv, v) == Eval(v, st))
    && OwnCells(i, argv)
  }

  // Bidirectional pointers that are phis of the loop header as well: arguments are those of the
  // next iteration exactly when each pointer's is the output the region has just computed.
  lemma PointersSupplied(f: Func, p: Plan, av: map<Label, set<Id>>, g: Func, nl: Label, ni: Id, i: Interface, lp: LoopOf, from: Label,
                         cells: set<int>, st: State, n: nat, m: nat, next: State, argv: seq<int>)
    requires Extracted(f, p, av, g, nl, ni) && Carried(f, p, i.(scalars := i.pointers), lp) && Iterates(f, p, lp, from, cells, st, n, m, next)
    ensures forall v <- i.pointers :: OutputOf(i, v).Inst?
    ensures Supplies(i, argv, next) <==>
              && |argv| == |i.params|
              && (forall k :: 0 <= k < |i.pure| && k < |argv| ==> argv[k] == Eval(i.pure[k], next))
              && (forall v <- i.pointers :: Cell(i, argv, v) == Look(Run(f, Goto(f, from, p.header, st), n).0.st.env, OutputOf(i, v).id))
              && OwnCells(i, argv)
  {
    hide Extracted, Carried, Iterates, Cell, Run, Goto;
    IterationCarries(f, p, av, g, nl, ni, i.(scalars := i.pointers), lp, from, cells, st, n, m, next);
    assert forall v <- i.pointers :: OutputOf(i.(scalars := i.pointers), v) == OutputOf(i, v);
  }

  ghost predicate SameCells(i: Interface, a: seq<int>, b: seq<int>) { forall v <- i.scalars :: Cell(i, a, v) == Cell(i, b, v) }

  // One iteration of the original, of n steps in the region and m outside it.
  datatype Visit = Visit(st: State, n: nat, m: nat, argv: seq<int>, mem: map<int, int>)

  ghost predicate Apart(cells: set<int>, a: map<int, int>, b: map<int, int>) { forall x :: x !in cells ==> Look(a, x) == Look(b, x) }

  // The original makes the iterations vs[0], vs[1], ...; the caller of the clone calls it on
  // the arguments and in the memory of each.  Between two calls the caller does to memory what
  // the rest of the loop does and leaves the output cells alone.
  ghost predicate Threads(f: Func, p: Plan, g: Func, i: Interface, lp: LoopOf, from: Label, vs: seq<Visit>) {
    && vs != []
    && (forall v <- vs :: Supplies(i, v.argv, v.st) && SameCells(i, v.argv, vs[0].argv) && Apart(Cells(i, v.argv), v.mem, v.st.mem))
    && (forall v <- i.scalars :: Look(vs[0].mem, Cell(i, vs[0].argv, v)) == Eval(v, vs[0].st))
    && forall k :: 0 <= k < |vs| - 1 ==>
         Iterates(f, p, lp, from, Cells(i, vs[k].argv), vs[k].st, vs[k].n, vs[k].m, vs[k + 1].st)
         && CallLeaves(g, i, vs[k].argv, vs[k].mem, vs[k + 1].mem)
  }

  // After every number of calls, the cells hold the values of the phis of the loop header, and
  // so every call does what the region does in its iteration.
  lemma {:induction false} LoopCarried(f: Func, p: Plan, av: map<Label, set<Id>>, g: Func, nl: Label, ni: Id, i: Interface, lp: LoopOf,
                                       from: Label, vs: seq<Visit>, k: nat)
    requires Extracted(f, p, av, g, nl, ni) && EnteredFrom(f, p.region, p.header, from) && HasInterface(p, g, i)
    requires OutsKnown(f, p.region, av, OutIds(i)) && Carried(f, p, i, lp)
    requires Threads(f, p, g, i, lp, from, vs) && k < |vs|
    ensures forall x <- i.scalars :: Look(vs[k].mem, Cell(i, vs[0].argv, x)) == Eval(x, vs[k].st)
    ensures Passes(i, vs[k].argv, vs[k].mem, vs[k].st)
    ensures |vs[k].argv| == |i.params|
    ensures k < |vs| - 1 ==> CallMatches(f, p, g, i, from, vs[k].argv, vs[k].mem, vs[k].st, vs[k].n)
  {
    hide Extracted, EnteredFrom, HasInterface, OutsKnown, Carried, Iterates, CallLeaves, CallMatches, Cell, Cells;
    if k > 0 {
      LoopCarried(f, p, av, g, nl, ni, i, lp, from, vs, k - 1);
      var (a, b) := (vs[k - 1], vs[k]);
      assert Iterates(f, p, lp, from, Cells(i, a.argv), a.st, a.n, a.m, b.st);
      CallCarries(f, p, av, g, nl, ni, i, lp, from, a, b);
    }
    assert vs[k] in vs && Passes(i, vs[k].argv, vs[k].mem, vs[k].st);
    if k < |vs| - 1 {
      IterationCall(f, p, av, g, nl, ni, i, lp, from, vs[k], vs[k + 1].st);
    }
  }

  lemma IterationCall(f: Func, p: Plan, av: map<Label, set<Id>>, g: Func, nl: Label, ni: Id, i: Interface, lp: LoopOf,
                      from: Label, a: Visit, next: State)
    requires Extracted(f, p, av, g, nl, ni) && EnteredFrom(f, p.region, p.header, from) && HasInterface(p, g, i)
    requires OutsKnown(f, p.region, av, OutIds(i)) && Carried(f, p, i, lp)
    requires Passes(i, a.argv, a.mem, a.st)
    requires Iterates(f, p, lp, from, Cells(i, a.argv), a.st, a.n, a.m, next)
    ensures |a.argv| == |i.params| && CallMatches(f, p, g, i, from, a.argv, a.mem, a.st, a.n)
  {
    hide Extracted, EnteredFrom, HasInterface, OutsKnown, Carried, CallMatches, Passes, StaysFor, Elsewhere;
    IterationCarries(f, p, av, g, nl, ni, i, lp, from, Cells(i, a.argv), a.st, a.n, a.m, next);
    CallOfClone(f, p, av, g, nl, ni, i, from, a.argv, a.mem, a.st, a.n);
  }

  // What one call leaves in the cells is what the phis of the loop header take next.
  lemma CallCarries(f: Func, p: Plan, av: map<Label, set<Id>>, g: Func, nl: Label, ni: Id, i: Interface, lp: LoopOf,
                    from: Label, a: Visit, b: Visit)
    requires Extracted(f, p, av, g, nl, ni) && EnteredFrom(f, p.region, p.header, from) && HasInterface(p, g, i)
    requires OutsKnown(f, p.region, av, OutIds(i)) && Carried(f, p, i, lp)
    requires Passes(i, a.argv, a.mem, a.st) && |a.argv| == |i.params|
    requires Iterates(f, p, lp, from, Cells(i, a.argv), a.st, a.n, a.m, b.st)
    requires CallLeaves(g, i, a.argv, a.mem, b.mem)
    ensures forall x <- i.scalars :: Look(b.mem, Cell(i, a.argv, x)) == Eval(x, b.st)
  {
    hide Extracted, EnteredFrom, HasInterface, OutsKnown, Carried, Passes, Iterates, CallMatches, Run, Cell, Goto, Start;
    IterationCarries(f, p, av, g, nl, ni, i, lp, from, Cells(i, a.argv), a.st, a.n, a.m, b.st);
    IterationCall(f, p, av, g, nl, ni, i, lp, from, a, b.st);
    var call := Start(g, CallState(i, a.argv, a.mem));
    var t: nat :| Run(g, call, t).0.Halt? && forall x <- Cells(i, a.argv) :: Look(b.mem, x) == Look(Run(g, call, t).0.st.mem, x);
    var out := Run(f, Goto(f, from, p.header, a.st), a.n).0.st;
    var u := MatchReturned(f, p, g, i, from, a.argv, a.mem, a.st, a.n);
    HaltStays(g, call, t, u);
    forall x | x in i.scalars ensures Look(b.mem, Cell(i, a.argv, x)) == Eval(x, b.st) {
      assert Cell(i, a.argv, x) in Cells(i, a.argv);
    }
  }

  lemma MatchReturned(f: Func, p: Plan, g: Func, i: Interface, from: Label, argv: seq<int>, mem: map<int, int>, st: State, n: nat)
    returns (u: nat)
    requires |argv| == |i.params| && CallMatches(f, p, g, i, from, argv, mem, st, n)
    ensures Returned(i, argv, Run(f, Goto(f, from, p.header, st), n).0.st, Run(g, Start(g, CallState(i, argv, mem)), u).0)
  {
    hide Run, Goto, Start, Returned, CallState;
    u := (|i.scalars| + 1) + n + (|i.scalars| + 1);
  }
}
