/** A counting loop, extracted: the hypotheses of the simulation and of the threading hold
    together, and the threading counts.

    Block 1 is the loop header with the counter as its phi, block 2 the region: it adds one to
    the counter and branches back. */
module Example {
  import opened Collections
  import opened Ssa
  import opened Split
  import opened Partition
  import opened Sever
  import opened Clone
  import opened CloneRuns
  import opened CloneCall
  import opened Threading
  import opened InputsOutputs
  import opened InputOutputMap
  import opened StackAllocas
  import opened ArgUtils
  import opened CloneStages
  import opened CodeExtractors
  import opened ExtractorRegion
  import opened Extraction
  import opened Closure
  import opened StaleInputs
  import opened Wiring
  import opened Delivery

  function Successor(xs: seq<int>): int { Nth(xs, 0) + 1 }

  function Entry(): Block { Block([], [], Term(3, [], [1])) }

  function Header(): Block { Block([Phi(1, [Incoming(0, Const(0)), Incoming(2, Inst(2))])], [], Term(4, [], [2])) }

  function Body(): Block { Block([], [Instr(2, Compute(Successor), [Inst(1)])], Term(5, [], [1])) }

  function Loop(): Func { Func(0, [], map[0 := Entry(), 1 := Header(), 2 := Body()]) }

  function ThePlan(): Plan { Plan([2], 2, map[2 := 5], map[2 := 10, 5 := 11], map[Inst(1) := Inst(20)], 6, 7) }

  function TheInterface(): Interface { Interface([], [Inst(1)], [], [Inst(2)], map[Inst(1) := 0], [12], 20, 30) }

  function New(): Func {
    Func(6, [12], map[5 := CloneBlock(ThePlan(), 2, Body()),
                      6 := Block([], Loads(TheInterface()), Term(40, [], [5])),
                      7 := Block([], Stores(TheInterface(), ThePlan().ids), Term(41, [], []))])
  }

  function Certificate(): map<Label, set<Id>> { map[2 := {}] }

  lemma BlocksOfLoop()
    ensures Loop().blocks.Keys == {0, 1, 2} && Loop().blocks[0] == Entry() && Loop().blocks[1] == Header() && Loop().blocks[2] == Body()
    ensures Insts(Entry()) == [3] && Insts(Header()) == [1, 4] && Insts(Body()) == [2, 5]
  {
    hide Insts, Entry, Header, Body;
    InstsOfBlocks();
  }

  lemma InstsOfBlocks()
    ensures Insts(Entry()) == [3] && Insts(Header()) == [1, 4] && Insts(Body()) == [2, 5]
  {
    assert PhiIds([]) == [] && BodyIds([]) == [];
    assert PhiIds(Header().phis) == [1] && BodyIds(Body().body) == [2];
  }

  lemma RegionOfLoop()
    ensures RegionIds(Loop(), [2]) == {2, 5}
  {
    hide Insts, Entry, Header, Body, Loop;
    BlocksOfLoop();
    assert [2][0] == 2;
    var (r, b) := (RegionIds(Loop(), [2]), Loop().blocks[2]);
    assert Insts(b)[0] in Insts(b) && Insts(b)[1] in Insts(b);
    assert 2 in r && 5 in r;
    forall i | i in r ensures i in {2, 5} {
      var l :| l in Loop().blocks && l in [2] && i in Insts(Loop().blocks[l]);
    }
  }

  lemma BlocksBelow()
    ensures BlockBelow(Entry(), 5, 10) && BlockBelow(Header(), 5, 10) && BlockBelow(Body(), 5, 10)
  {
  }

  lemma LoopBelow()
    ensures Below(Loop(), 5, 10)
  {
    hide BlockBelow, Entry, Header, Body;
    BlocksBelow();
    BlocksOfLoop();
  }

  lemma LoopUnique()
    ensures UniqueIds(Loop())
  {
    hide Insts, Entry, Header, Body, Loop;
    BlocksOfLoop();
    assert Distinct([3]) && Distinct([1, 4]) && Distinct([2, 5]);
    var bs := Loop().blocks;
    forall l, m, i | l in bs && m in bs && l != m && i in Insts(bs[l]) ensures i !in Insts(bs[m]) {
      assert i in [3] || i in [1, 4] || i in [2, 5];
    }
  }

  lemma UsesOfBody()
    ensures Uses(Body()) == [Inst(1)]
  {
    assert PhiUses([]) == [] && BodyUses([]) == [];
    assert Body().body[1..] == [];
  }

  lemma PlanIsFresh()
    ensures FreshPlan(Loop(), ThePlan(), 5, 10) && InputsPlanned(Loop(), ThePlan(), 10)
    ensures ThePlan().labels.Values == {5} && ThePlan().ids.Values == {10, 11}
  {
    hide Below, RegionIds, Loop;
    LoopBelow();
    RegionOfLoop();
    assert ThePlan().labels[2] == 5 && ThePlan().ids[2] == 10 && ThePlan().ids[5] == 11;
  }

  lemma InputsCovered()
    ensures Covered(Loop(), ThePlan())
  {
    hide Uses, Entry, Header, Body, Insts;
    BlocksOfLoop();
    UsesOfBody();
  }

  lemma NewIsClone()
    ensures IsClone(Loop(), ThePlan(), New())
  {
    hide CloneBlock, Loads, Stores, Entry, Header, Body, Insts, TheInterface;
    BlocksOfLoop();
    assert ThePlan().labels[2] == 5;
    assert (set l | l in [2]) == {2};
    assert New().blocks.Keys == {5, 6, 7} && ThePlan().labels.Values == {5};
  }

  lemma LoopIsStrict()
    ensures Strict(Loop(), [2], 2, Certificate()) && NoReturns(Loop(), [2])
  {
    hide Insts, RegionIds;
    BlocksOfLoop();
    RegionOfLoop();
    assert Body().body[..0] == [] && ValueIds([]) == {};
  }

  lemma LoopIsExtracted()
    ensures Extracted(Loop(), ThePlan(), Certificate(), New(), 5, 10)
  {
    hide IsClone, FreshPlan, InputsPlanned, Covered, UniqueIds, NoReturns, Strict, Loop, New;
    NewIsClone();
    PlanIsFresh();
    InputsCovered();
    LoopUnique();
    LoopIsStrict();
  }

  lemma LoopHasInterface()
    ensures HasInterface(ThePlan(), New(), TheInterface())
  {
    hide CloneBlock;
  }

  // ---------- what counts ----------

  // The new function g is made from the region, by plan p and with interface i: whatever the
  // names, the counter is the one scalar, and its cell is that of its successor.
  ghost predicate Counts(p: Plan, i: Interface, g: Func, nl: Label, ni: Id) {
    && Extracted(Loop(), p, Certificate(), g, nl, ni) && HasInterface(p, g, i) && p.region == [2] && p.header == 2
    && i == Interface([], [Inst(1)], [], [Inst(2)], map[Inst(1) := 0], i.params, i.firstLoad, i.firstStore)
  }

  // There is such a function,
  lemma NewCounts()
    ensures Counts(ThePlan(), TheInterface(), New(), 5, 10)
  {
    hide Extracted, HasInterface, Loop, New;
    LoopIsExtracted();
    LoopHasInterface();
  }

  lemma OnlyOne(xs: seq<Value>, x: Value)
    requires Distinct(xs) && forall v :: v in xs <==> v == x
    ensures xs == [x]
  {
    assert x in xs;
    assert |xs| > 1 ==> xs[0] != xs[1];
    forall k | 0 <= k < |xs| ensures xs[k] == x { assert xs[k] in xs; }
  }

  lemma LoopInputs()
    ensures InputsOf(Loop(), [2]) == [Inst(1)]
  {
    hide Insts, Uses, Entry, Header, Body, InputsOf, RegionIds;
    BlocksOfLoop();
    UsesOfBody();
    RegionOfLoop();
    InputsAre(Loop(), [2]);
    forall v ensures v in InputsOf(Loop(), [2]) <==> v == Inst(1) {
      assert (exists l <- [2] :: v in Uses(Loop().blocks[l])) <==> v in Uses(Loop().blocks[2]);
    }
    OnlyOne(InputsOf(Loop(), [2]), Inst(1));
  }

  lemma LoopOutputs()
    ensures OutputsOf(Loop(), [2]) == [Inst(2)]
  {
    hide Insts, Uses, Entry, Header, Body, OutputsOf, RegionIds;
    BlocksOfLoop();
    UsesOutside();
    RegionOfLoop();
    OutputsAre(Loop(), [2]);
    assert 1 in Loop().blocks && 1 !in [2];
    OnlyOne(OutputsOf(Loop(), [2]), Inst(2));
  }

  lemma UsesOutside()
    ensures Uses(Entry()) == [] && Uses(Header()) == [Const(0), Inst(2)]
  {
    assert PhiUses([]) == [] && BodyUses([]) == [] && Header().phis[1..] == [];
    assert IncUses(Header().phis[0].inc) == [Const(0), Inst(2)];
  }

  lemma LoopPairs(incs: Incomings)
    requires IncomingsOf(Loop(), incs)
    ensures IOMap([Inst(1)], [Inst(2)], incs) == map[Inst(1) := 0] && OIMap([Inst(1)], [Inst(2)], incs) == map[Inst(2) := Inst(1)]
  {
    var b := Loop().blocks[1];
    assert b.phis[0].id == 1 && IncUses(b.phis[0].inc) == [Const(0), Inst(2)];
    var vs := incs[Inst(1)];
    assert vs == [Const(0), Inst(2)];
    assert LastOutput(vs, [Inst(2)]) == Some(Inst(2)) && LastTaker([Inst(1)], incs, Inst(2)) == Some(Inst(1));
    assert OutputFor(Inst(1), [Inst(2)], incs) == Some(Inst(2)) && InputFor(Inst(2), [Inst(1)], incs) == Some(Inst(1));
  }

  lemma LoopInterface(params: seq<Id>, firstLoad: Id, firstStore: Id)
    ensures InterfaceOf([Inst(1)], [Inst(2)], map[Inst(1) := 0], map[Inst(2) := Inst(1)], [], {}, params, firstLoad, firstStore)
            == Interface([], [Inst(1)], [], [Inst(2)], map[Inst(1) := 0], params, firstLoad, firstStore)
  {
    hide Keeping;
    var (inputs, outputs, oi) := ([Inst(1)], [Inst(2)], map[Inst(2) := Inst(1)]);
    var io: map<Value, nat> := map[Inst(1) := 0];
    assert Bidirectional(oi, Inst(1)) by { assert oi[Inst(2)] == Inst(1); }
    KeepingOne(Inst(1), PureSet(inputs, oi, []));
    KeepingOne(Inst(1), ScalarSet(inputs, outputs, io, oi, {}));
    KeepingOne(Inst(1), PointerSet(inputs, outputs, io, oi, {}));
  }

  lemma LoopPlain()
    ensures Plain(Loop(), [2])
  {
  }

  // and whatever function is delivered for the region is one.
  lemma DeliveredCounts(info: IteratorInfo, q: Loops, r: Preparation, f1: Func, g: Func, m: Made)
    requires IsPrepared(Loop(), [2], info, q, r) && r.allocas == [] && Delivered(Loop(), [2], {}, r, f1, g, m)
    ensures Counts(m.p, m.i, g, m.nl, m.ni)
  {
    hide Loop, IOMap, OIMap, InputsOf, OutputsOf, InterfaceOf, Built, Ready, Closed, Closeable, Verified, Stored, CallsMatch, Strict, NoReturns,
         Extracted, HasInterface, Current, IncomingsOf, Certificate, Plain, Wired;
    LoopInputs();
    LoopOutputs();
    assert Reordered([Inst(1)], info) == [Inst(1)] by { OneReordered(info); }
    LoopPairs(r.incs);
    LoopInterface(m.i.params, m.i.firstLoad, m.i.firstStore);
    LoopPlain();
    LoopIsStrict();
    BuiltIsExtracted(m.f, m.nl, m.ni, g, m.p, m.i, m.s, m.inits, m.first, Certificate(), r.inputs, r.outputs, r.io, r.oi, {});
  }

  lemma OneReordered(info: IteratorInfo)
    ensures Reordered([Inst(1)], info) == [Inst(1)]
  {
    var k := FirstIterator([Inst(1)], info);
    assert k == 0 ==> Without([Inst(1)], 0) == [];
  }

  // ---------- running the loop ----------

  lemma LoopCarries(p: Plan, i: Interface, g: Func, nl: Label, ni: Id)
    requires Counts(p, i, g, nl, ni)
    ensures Carried(Loop(), p, i, LoopOf({1, 2}, 1))
    ensures EnteredFrom(Loop(), [2], 2, 1) && OutsKnown(Loop(), [2], Certificate(), OutIds(i))
  {
    hide Insts, Pick, Extracted, HasInterface, RegionIds;
    BlocksOfLoop();
    PlanHasRegion(p, i, g, nl, ni);
    var inc := [Incoming(0, Const(0)), Incoming(2, Inst(2))];
    assert Pick(inc, 2) == Inst(2) by { PickSecond(); }
    assert CarriedAt(Loop(), i, LoopOf({1, 2}, 1), Inst(1), 0);
    BodyComputes(i);
  }

  lemma PlanHasRegion(p: Plan, i: Interface, g: Func, nl: Label, ni: Id)
    requires Counts(p, i, g, nl, ni)
    ensures p.ids.Keys == {2, 5} && |i.params| == 1 && OutIds(i) == {2}
  {
    hide InputsPlanned, Covered, UniqueIds, NoReturns, Strict, IsClone, Stand, Loads, Stores, RegionIds, Loop, Certificate;
    RegionOfLoop();
    OutOfLoop(i);
  }

  lemma OutOfLoop(i: Interface)
    requires i.scalars == [Inst(1)] && i.outputs == [Inst(2)] && i.cellOf == map[Inst(1) := 0]
    ensures OutIds(i) == {2}
  {
    assert OutputOf(i, Inst(1)) == Inst(2);
  }

  lemma PickSecond()
    ensures Pick([Incoming(0, Const(0)), Incoming(2, Inst(2))], 2) == Inst(2)
  {
    assert [Incoming(0, Const(0)), Incoming(2, Inst(2))][1..] == [Incoming(2, Inst(2))];
  }

  lemma BodyComputes(i: Interface)
    requires OutIds(i) == {2}
    ensures OutIds(i) <= Available(Loop(), Certificate(), 2, 1)
  {
    assert Body().body[..1] == Body().body && Body().body[0] in Body().body;
    assert 2 in ValueIds(Body().body);
  }

  // ---------- running it ----------

  function Counter(k: int, env: map<Id, int>, mem: map<int, int>): State { State(map[], env[1 := k], mem) }

  // One turn of the loop, from the end of the header to the end of the header.
  lemma LoopTurn(k: int, env: map<Id, int>, mem: map<int, int>)
    ensures var (f, st) := (Loop(), Counter(k, env, mem));
            var c := Goto(f, 1, 2, st);
            && Run(f, c, 0) == (At(2, 0, st), [])
            && Run(f, c, 1) == (At(2, 1, Counter(k, env[2 := k + 1], mem)), [Computed(2, k + 1)])
            && Run(f, c, 2) == (At(1, 0, Counter(k + 1, env[2 := k + 1], mem)), [Computed(2, k + 1), Went(5, 0)])
  {
    var (f, st) := (Loop(), Counter(k, env, mem));
    var c := Goto(f, 1, 2, st);
    assert st.env + map[] == st.env;
    assert c == At(2, 0, st);
    var st1 := Counter(k, env[2 := k + 1], mem);
    assert EvalAll([Inst(1)], st) == [k];
    assert st.env[2 := k + 1] == st1.env;
    assert Step(f, c) == (At(2, 1, st1), [Computed(2, k + 1)]);
    assert [] + [Computed(2, k + 1)] == [Computed(2, k + 1)];
    assert Run(f, c, 1) == (At(2, 1, st1), [Computed(2, k + 1)]);
    PickSecond();
    PhisOfHeader(st1);
    assert st1.env[1 := k + 1] == Counter(k + 1, env[2 := k + 1], mem).env;
    assert Step(f, At(2, 1, st1)) == (At(1, 0, Counter(k + 1, env[2 := k + 1], mem)), [Went(5, 0)]);
    assert [Computed(2, k + 1)] + [Went(5, 0)] == [Computed(2, k + 1), Went(5, 0)];
  }

  lemma PhisOfHeader(st: State)
    ensures Enter(Header().phis, 2, st) == st.(env := st.env[1 := Look(st.env, 2)])
  {
    PickSecond();
    var phis := Header().phis;
    assert phis[1..] == [];
    assert PhiValues(phis, 2, st) == map[1 := Look(st.env, 2)];
    assert st.env + map[1 := Look(st.env, 2)] == st.env[1 := Look(st.env, 2)];
  }

  lemma LoopIterates(p: Plan, i: Interface, g: Func, nl: Label, ni: Id, k: int, env: map<Id, int>, mem: map<int, int>)
    requires Counts(p, i, g, nl, ni)
    ensures Iterates(Loop(), p, LoopOf({1, 2}, 1), 1, Cells(i, [7]), Counter(k, env, mem), 2, 0,
                     Counter(k + 1, env[2 := k + 1], mem))
  {
    hide Run, Goto, Cells, Extracted, HasInterface;
    LoopTurn(k, env, mem);
    var c := Goto(Loop(), 1, 2, Counter(k, env, mem));
    assert AtLoopHeader(LoopOf({1, 2}, 1), Run(Loop(), c, 2).0);
    forall m: nat | m < 2 ensures InRegion([2], Run(Loop(), c, m).0) { assert m == 0 || m == 1; }
  }

  lemma TheCells(i: Interface)
    requires i.pure == [] && i.scalars == [Inst(1)] && i.cellOf == map[Inst(1) := 0]
    ensures Cells(i, [7]) == {7}
  {
    assert Cell(i, [7], Inst(1)) == 7;
  }

  // ---------- calling the extracted function ----------

  lemma CallSupplied(p: Plan, i: Interface, g: Func, nl: Label, ni: Id, k: int, env: map<Id, int>, mem: map<int, int>, at: map<int, int>)
    requires Counts(p, i, g, nl, ni) && Look(at, 7) == k && Apart({7}, at, mem)
    ensures Passes(i, [7], at, Counter(k, env, mem)) && Supplies(i, [7], Counter(k, env, mem))
  {
    hide Extracted, HasInterface;
    PlanHasRegion(p, i, g, nl, ni);
    TheCells(i);
  }

  lemma CallRunsLoop(p: Plan, i: Interface, g: Func, nl: Label, ni: Id, k: int, env: map<Id, int>, mem: map<int, int>)
    requires Counts(p, i, g, nl, ni)
    ensures StaysFor(Loop(), [2], Cells(i, [7]), Goto(Loop(), 1, 2, Counter(k, env, mem)), 2)
    ensures Run(Loop(), Goto(Loop(), 1, 2, Counter(k, env, mem)), 2).0 == At(1, 0, Counter(k + 1, env[2 := k + 1], mem))
  {
    LoopIterates(p, i, g, nl, ni, k, env, mem);
    LoopTurn(k, env, mem);
    hide Run, Goto, StaysFor, Loop, Cells, Extracted, HasInterface;
  }

  lemma OneCall(p: Plan, i: Interface, g: Func, nl: Label, ni: Id, k: int, env: map<Id, int>, mem: map<int, int>, at: map<int, int>)
    returns (later: map<int, int>)
    requires Counts(p, i, g, nl, ni) && Look(at, 7) == k && Apart({7}, at, mem)
    ensures CallLeaves(g, i, [7], at, later) && Look(later, 7) == k + 1 && Apart({7}, later, mem)
  {
    hide Extracted, HasInterface, EnteredFrom, OutsKnown, Carried, Passes, Supplies, Run, Goto, Loop, StaysFor, Start, CallState, CallMatches, Cells;
    var st := Counter(k, env, mem);
    LoopCarries(p, i, g, nl, ni);
    CallSupplied(p, i, g, nl, ni, k, env, mem, at);
    CallRunsLoop(p, i, g, nl, ni, k, env, mem);
    CallOfClone(Loop(), p, Certificate(), g, nl, ni, i, 1, [7], at, st, 2);
    var u := MatchReturned(Loop(), p, g, i, 1, [7], at, st, 2);
    later := Run(g, Start(g, CallState(i, [7], at)), u).0.st.mem;
    TheCells(i);
    TheReturn(i, Counter(k + 1, env[2 := k + 1], mem), Run(g, Start(g, CallState(i, [7], at)), u).0);
  }

  lemma TheReturn(i: Interface, out: State, e: Config)
    requires i.pure == [] && i.scalars == [Inst(1)] && i.cellOf == map[Inst(1) := 0] && i.outputs == [Inst(2)] && Returned(i, [7], out, e)
    ensures Look(e.st.mem, 7) == Look(out.env, 2) && Apart({7}, e.st.mem, out.mem)
  {
    TheCells(i);
    assert Inst(1) in i.scalars;
  }

  // Any number of calls on one cell count: the hypotheses of the threading hold for every
  // number of iterations.
  lemma {:induction false} CallsCount(p: Plan, i: Interface, g: Func, nl: Label, ni: Id, n: nat) returns (vs: seq<Visit>, env: map<Id, int>)
    requires Counts(p, i, g, nl, ni)
    ensures |vs| == n + 1 && Threads(Loop(), p, g, i, LoopOf({1, 2}, 1), 1, vs)
    ensures (forall k :: 0 <= k <= n ==> Look(vs[k].mem, 7) == k) && (forall v <- vs :: v.argv == [7])
    ensures vs[n].st == Counter(n, env, map[]) && vs[n].n == 2 && vs[n].m == 0 && Apart({7}, vs[n].mem, map[])
  {
    hide Iterates, CallLeaves, Supplies, Cells, Loop, Apart, SameCells, Extracted, HasInterface;
    PlanHasRegion(p, i, g, nl, ni);
    TheCells(i);
    if n == 0 {
      env := map[];
      var v := FirstVisit(p, i, g, nl, ni);
      vs := [v];
    } else {
      var us, e := CallsCount(p, i, g, nl, ni, n - 1);
      var later := OneCall(p, i, g, nl, ni, n - 1, e, map[], us[n - 1].mem);
      env := e[2 := n];
      var next := Visit(Counter(n, env, map[]), 2, 0, [7], later);
      vs := us + [next];
      LoopIterates(p, i, g, nl, ni, n - 1, e, map[]);
      CallSupplied(p, i, g, nl, ni, n, env, map[], later);
      CellsSame(i);
      ThreadsMore(p, i, g, us, next);
    }
  }

  lemma ThreadsMore(p: Plan, i: Interface, g: Func, us: seq<Visit>, next: Visit)
    requires us != [] && Threads(Loop(), p, g, i, LoopOf({1, 2}, 1), 1, us)
    requires var a := us[|us| - 1];
             && Supplies(i, next.argv, next.st) && SameCells(i, next.argv, us[0].argv) && Apart(Cells(i, next.argv), next.mem, next.st.mem)
             && Iterates(Loop(), p, LoopOf({1, 2}, 1), 1, Cells(i, a.argv), a.st, a.n, a.m, next.st)
             && CallLeaves(g, i, a.argv, a.mem, next.mem)
    ensures Threads(Loop(), p, g, i, LoopOf({1, 2}, 1), 1, us + [next])
  {
    hide Iterates, CallLeaves, Cells, Loop, Apart, SameCells;
    var vs := us + [next];
    assert forall v <- us :: |v.argv| == |i.params|;
    assert vs[0] == us[0] && forall k :: 0 <= k < |us| ==> vs[k] == us[k];
    forall k | 0 <= k < |vs| - 1
      ensures Iterates(Loop(), p, LoopOf({1, 2}, 1), 1, Cells(i, vs[k].argv), vs[k].st, vs[k].n, vs[k].m, vs[k + 1].st)
      ensures CallLeaves(g, i, vs[k].argv, vs[k].mem, vs[k + 1].mem)
    {
      if k < |us| - 1 { assert vs[k + 1] == us[k + 1]; }
    }
  }

  lemma CellsSame(i: Interface)
    ensures SameCells(i, [7], [7])
  {
  }

  lemma FirstVisit(p: Plan, i: Interface, g: Func, nl: Label, ni: Id) returns (v: Visit)
    requires Counts(p, i, g, nl, ni)
    ensures Threads(Loop(), p, g, i, LoopOf({1, 2}, 1), 1, [v])
    ensures v == Visit(Counter(0, map[], map[]), 2, 0, [7], map[7 := 0]) && Apart({7}, v.mem, map[])
  {
    hide Iterates, CallLeaves, Loop, Extracted, HasInterface;
    PlanHasRegion(p, i, g, nl, ni);
    v := Visit(Counter(0, map[], map[]), 2, 0, [7], map[7 := 0]);
    TheCells(i);
    CallSupplied(p, i, g, nl, ni, 0, map[], map[], map[7 := 0]);
  }

  // ---------- two pointers to one address ----------

  // Two cursors, each with an output of its own.
  function TwoCursors(): Interface { Interface([], [], [Inst(1), Inst(2)], [Inst(5), Inst(6)], map[Inst(1) := 0, Inst(2) := 1], [7, 8], 20, 20) }

  // They may start at one address: that is a call like any other.
  lemma CursorsMayMeet(a: int, mem: map<int, int>)
    ensures var st := State(map[], map[1 := a, 2 := a], mem);
            InterfaceOk(TwoCursors()) && Passes(TwoCursors(), [a, a], mem, st) && Supplies(TwoCursors(), [a, a], st)
  {
    assert TwoCursors().scalars == [];
  }
}
