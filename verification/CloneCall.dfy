/** Calling the extracted function in place of the region: the root block loads the
    bidirectional scalars, the region runs, the exit block stores their new values. */
module CloneCall {
  import opened Collections
  import opened Ssa
  import opened Split
  import opened Rewrite
  import opened Clone
  import opened CloneRuns
  import opened Sever

  // The inputs by the way they are passed, the outputs, and the parameters: one for each pure
  // input, then one for each output.  A bidirectional input has the cell of its output.
  datatype Interface = Interface(pure: seq<Value>, scalars: seq<Value>, pointers: seq<Value>,
                                 outputs: seq<Value>, cellOf: map<Value, nat>,
                                 params: seq<Id>, firstLoad: Id, firstStore: Id)

  ghost predicate InterfaceOk(i: Interface) {
    && |i.params| == |i.pure| + |i.outputs| && Distinct(i.params)
    && (forall v <- i.scalars + i.pointers :: v in i.cellOf && i.cellOf[v] < |i.outputs|)
    && forall v <- i.scalars :: i.outputs[i.cellOf[v]].Inst?
  }

  function CellParam(i: Interface, v: Value): Id {
    if v in i.cellOf && |i.pure| + i.cellOf[v] < |i.params| then i.params[|i.pure| + i.cellOf[v]] else 0
  }

  function OutputOf(i: Interface, v: Value): Value {
    if v in i.cellOf && i.cellOf[v] < |i.outputs| then i.outputs[i.cellOf[v]] else Const(0)
  }

  function Loads(i: Interface): (r: seq<Instr>)
    ensures |r| == |i.scalars|
  {
    seq(|i.scalars|, k requires 0 <= k < |i.scalars| => Instr(i.firstLoad + k, Load, [Arg(CellParam(i, i.scalars[k]))]))
  }

  function Stores(i: Interface, ids: map<Id, Id>): (r: seq<Instr>)
    ensures |r| == |i.scalars|
  {
    seq(|i.scalars|, k requires 0 <= k < |i.scalars| =>
      Instr(i.firstStore + k, Store, [Arg(CellParam(i, i.scalars[k])), RemapV(ids, OutputOf(i, i.scalars[k]))]))
  }

  // What stands for each input in the clone.
  ghost predicate Stand(i: Interface, inputs: Subst) {
    && inputs.Keys == (set v | v in i.pure + i.scalars + i.pointers)
    && |i.pure| <= |i.params|
    && (forall k :: 0 <= k < |i.pure| ==> SubstV(inputs, i.pure[k]) == Arg(i.params[k]))
    && (forall k :: 0 <= k < |i.scalars| ==> SubstV(inputs, i.scalars[k]) == Inst(i.firstLoad + k))
    && (forall k :: 0 <= k < |i.pointers| ==> SubstV(inputs, i.pointers[k]) == Arg(CellParam(i, i.pointers[k])))
  }

  ghost predicate HasInterface(p: Plan, g: Func, i: Interface) {
    && InterfaceOk(i) && Stand(i, p.inputs) && g.params == i.params
    && p.root in g.blocks && g.blocks[p.root].body == Loads(i)
    && p.exit in g.blocks && g.blocks[p.exit].body == Stores(i, p.ids)
  }

  // ---------- the call ----------

  function Bind(params: seq<Id>, argv: seq<int>): map<Id, int>
    requires |params| == |argv|
  {
    if params == [] then map[]
    else Bind(params[1..], argv[1..])[params[0] := argv[0]]
  }

  lemma {:induction false} BindAt(params: seq<Id>, argv: seq<int>, k: nat)
    requires |params| == |argv| && k < |params| && Distinct(params)
    ensures Look(Bind(params, argv), params[k]) == argv[k]
  {
    if k > 0 {
      assert params[0] != params[k];
      assert forall i, j :: 0 <= i < j < |params[1..]| ==> params[1..][i] == params[i + 1] && params[1..][j] == params[j + 1];
      BindAt(params[1..], argv[1..], k - 1);
    }
  }

  function CallState(i: Interface, argv: seq<int>, mem: map<int, int>): State
    requires |i.params| == |argv|
  {
    State(Bind(i.params, argv), map[], mem)
  }

  function Cell(i: Interface, argv: seq<int>, v: Value): int {
    if v in i.cellOf && |i.pure| + i.cellOf[v] < |argv| then argv[|i.pure| + i.cellOf[v]] else 0
  }

  ghost function Cells(i: Interface, argv: seq<int>): set<int> { set v | v in i.scalars :: Cell(i, argv, v) }

  // Different outputs of scalars have different cells; a pointer may share its address.
  ghost predicate OwnCells(i: Interface, argv: seq<int>) {
    forall v <- i.scalars, w <- i.scalars ::
      v in i.cellOf && w in i.cellOf && i.cellOf[v] != i.cellOf[w] ==> Cell(i, argv, v) != Cell(i, argv, w)
  }

  // The arguments carry the live-ins of the region as they are in st, at the end of the block
  // it is entered from, and the cells of the scalars are distinct.
  ghost predicate Passes(i: Interface, argv: seq<int>, mem: map<int, int>, st: State) {
    && |argv| == |i.params|
    && (forall k :: 0 <= k < |i.pure| && k < |argv| ==> argv[k] == Eval(i.pure[k], st))
    && (forall v <- i.scalars :: Look(mem, Cell(i, argv, v)) == Eval(v, st))
    && (forall v <- i.pointers :: Cell(i, argv, v) == Eval(v, st))
    && (forall a :: a !in Cells(i, argv) ==> Look(mem, a) == Look(st.mem, a))
    && OwnCells(i, argv)
  }

  lemma CellParamAt(i: Interface, argv: seq<int>, mem: map<int, int>, v: Value)
    requires InterfaceOk(i) && |argv| == |i.params| && v in i.scalars + i.pointers
    ensures Look(CallState(i, argv, mem).args, CellParam(i, v)) == Cell(i, argv, v)
  {
    BindAt(i.params, argv, |i.pure| + i.cellOf[v]);
  }

  // ---------- the root block ----------

  function LoadEnv(i: Interface, argv: seq<int>, mem: map<int, int>, q: nat): map<Id, int>
    requires q <= |i.scalars|
  {
    if q == 0 then map[]
    else LoadEnv(i, argv, mem, q - 1)[i.firstLoad + (q - 1) := Look(mem, Cell(i, argv, i.scalars[q - 1]))]
  }

  function LoadTrace(i: Interface, argv: seq<int>, mem: map<int, int>): seq<Event> {
    seq(|i.scalars|, k requires 0 <= k < |i.scalars| =>
      Read(i.firstLoad + k, Cell(i, argv, i.scalars[k]), Look(mem, Cell(i, argv, i.scalars[k]))))
  }

  lemma {:induction false} LoadEnvAt(i: Interface, argv: seq<int>, mem: map<int, int>, q: nat, k: nat)
    requires k < q <= |i.scalars|
    ensures Look(LoadEnv(i, argv, mem, q), i.firstLoad + k) == Look(mem, Cell(i, argv, i.scalars[k]))
  {
    if k < q - 1 { LoadEnvAt(i, argv, mem, q - 1, k); }
  }

  // All loads of the root come before anything else, so they all see the memory of the call.
  lemma {:induction false} RootRun(p: Plan, g: Func, i: Interface, argv: seq<int>, mem: map<int, int>, q: nat)
    requires HasInterface(p, g, i) && |argv| == |i.params| && q <= |i.scalars|
    ensures var st := CallState(i, argv, mem);
            Run(g, At(p.root, 0, st), q) == (At(p.root, q, st.(env := LoadEnv(i, argv, mem, q))), LoadTrace(i, argv, mem)[..q])
  {
    hide Exec, Step, Bind, Stand, Loads, Stores;
    var st := CallState(i, argv, mem);
    if q == 0 {
      assert LoadTrace(i, argv, mem)[..0] == [];
    } else {
      RootRun(p, g, i, argv, mem, q - 1);
      var prior := st.(env := LoadEnv(i, argv, mem, q - 1));
      StepBody(g, p.root, q - 1, prior);
      CellParamAt(i, argv, mem, i.scalars[q - 1]);
      LoadStep(i, argv, mem, prior, q - 1);
      assert LoadTrace(i, argv, mem)[..q] == LoadTrace(i, argv, mem)[..q - 1] + [LoadTrace(i, argv, mem)[q - 1]];
    }
  }

  lemma LoadStep(i: Interface, argv: seq<int>, mem: map<int, int>, st: State, k: nat)
    requires k < |i.scalars| && Look(st.args, CellParam(i, i.scalars[k])) == Cell(i, argv, i.scalars[k]) && st.mem == mem
    ensures Exec(Loads(i)[k], st) ==
            (st.(env := st.env[i.firstLoad + k := Look(mem, Cell(i, argv, i.scalars[k]))]), LoadTrace(i, argv, mem)[k])
  {
    var ops := Loads(i)[k].ops;
    assert EvalAll(ops, st) == [Cell(i, argv, i.scalars[k])];
  }

  // ---------- the exit block ----------

  ghost function StoreMem(i: Interface, argv: seq<int>, out: map<Id, int>, mem: map<int, int>, q: nat): map<int, int>
    requires q <= |i.scalars|
  {
    if q == 0 then mem
    else
      var v := i.scalars[q - 1];
      StoreMem(i, argv, out, mem, q - 1)[Cell(i, argv, v) := OutValue(i, out, v)]
  }

  // The value of v's output where the original left the region.
  ghost function OutValue(i: Interface, out: map<Id, int>, v: Value): int {
    if OutputOf(i, v).Inst? then Look(out, OutputOf(i, v).id) else 0
  }

  lemma {:induction false} StoreMemAt(i: Interface, argv: seq<int>, out: map<Id, int>, mem: map<int, int>, q: nat, a: int)
    requires q <= |i.scalars| && InterfaceOk(i) && |argv| == |i.params|
    requires OwnCells(i, argv)
    ensures forall k :: 0 <= k < q ==>
              Look(StoreMem(i, argv, out, mem, q), Cell(i, argv, i.scalars[k])) == OutValue(i, out, i.scalars[k])
    ensures (forall k :: 0 <= k < q ==> Cell(i, argv, i.scalars[k]) != a) ==> Look(StoreMem(i, argv, out, mem, q), a) == Look(mem, a)
  {
    if q > 0 {
      StoreMemAt(i, argv, out, mem, q - 1, a);
      forall k | 0 <= k < q - 1 && Cell(i, argv, i.scalars[k]) == Cell(i, argv, i.scalars[q - 1])
        ensures OutValue(i, out, i.scalars[k]) == OutValue(i, out, i.scalars[q - 1])
      {
        assert i.scalars[k] in i.scalars + i.pointers && i.scalars[q - 1] in i.scalars + i.pointers;
        var (x, y) := (|i.pure| + i.cellOf[i.scalars[k]], |i.pure| + i.cellOf[i.scalars[q - 1]]);
        assert argv[x] == argv[y];
      }
    }
  }

  // ---------- entering the region ----------

  // When the root block has run, everything stands for what it should.
  lemma RootFollows(p: Plan, g: Func, i: Interface, argv: seq<int>, mem: map<int, int>, st: State)
    requires HasInterface(p, g, i) && Passes(i, argv, mem, st)
    ensures Follows(p, {}, Cells(i, argv), mem, st,
                    CallState(i, argv, mem).(env := LoadEnv(i, argv, mem, |i.scalars|)))
  {
    hide LoadEnv, Bind, Cells, Stand, InterfaceOk, Loads, Stores, Eval;
    var st' := CallState(i, argv, mem).(env := LoadEnv(i, argv, mem, |i.scalars|));
    forall v | v in p.inputs ensures Eval(p.inputs[v], st') == Eval(v, st) {
      RootValue(p, g, i, argv, mem, st, v);
    }
  }

  lemma RootValue(p: Plan, g: Func, i: Interface, argv: seq<int>, mem: map<int, int>, st: State, v: Value)
    requires HasInterface(p, g, i) && Passes(i, argv, mem, st) && v in p.inputs
    ensures Eval(p.inputs[v], CallState(i, argv, mem).(env := LoadEnv(i, argv, mem, |i.scalars|))) == Eval(v, st)
  {
    hide LoadEnv, Bind, Cells, Loads, Stores, OwnCells;
    if k :| 0 <= k < |i.pure| && i.pure[k] == v {
      BindAt(i.params, argv, k);
    } else if k :| 0 <= k < |i.scalars| && i.scalars[k] == v {
      LoadEnvAt(i, argv, mem, |i.scalars|, k);
    } else {
      var k :| 0 <= k < |i.pointers| && i.pointers[k] == v;
      CellParamAt(i, argv, mem, v);
    }
  }

  // The value a header phi takes on entry is the value the clone takes from the root.
  lemma EntryValue(f: Func, p: Plan, av: map<Label, set<Id>>, g: Func, nl: Label, ni: Id, from: Label,
                   cells: set<int>, mem: map<int, int>, st: State, st': State, k: nat)
    requires Extracted(f, p, av, g, nl, ni) && EnteredFrom(f, p.region, p.header, from)
    requires Follows(p, {}, cells, mem, st, st') && k < |f.blocks[p.header].phis|
    ensures Eval(Pick(ClonePhis(p, p.header, f.blocks[p.header].phis)[k].inc, p.root), st')
         == Eval(Pick(f.blocks[p.header].phis[k].inc, from), st)
  {
    hide Extracted, Follows, RegionIds, InputsPlanned, Uses, Injective;
    HeaderInRegion(f, p, av, g, nl, ni);
    var x := f.blocks[p.header].phis[k];
    RegionNames(f, p, av, g, nl, ni, p.header);
    InputNames(f, p, av, g, nl, ni);
    BelowIds(f, p, av, g, nl, ni);
    assert x in f.blocks[p.header].phis;
    PickMapped(p, p.header, x.inc, from, p.root);
    PickCovered(f, p, av, g, nl, ni, p.header, k, from);
    PickEntry(x.inc, from);
    EntryKnown(f, p, av, g, nl, ni, from, k);
    OperandClone(f, p, ni, {}, cells, mem, st, st', Pick(x.inc, from));
  }

  lemma HeaderInRegion(f: Func, p: Plan, av: map<Label, set<Id>>, g: Func, nl: Label, ni: Id)
    requires Extracted(f, p, av, g, nl, ni)
    ensures p.header in p.region && p.header in f.blocks && p.header in p.labels && p.header in av && av[p.header] == {}
    ensures p.root in g.blocks && g.blocks[p.root].phis == [] && g.blocks[p.root].term.dests == [p.labels[p.header]]
    ensures p.exit in g.blocks && g.blocks[p.exit].term.dests == [] && g.entry == p.root
    ensures p.labels[p.header] in g.blocks
    ensures p.ids.Keys == RegionIds(f, p.region) && Injective(p.ids)
  {
    hide Below, UniqueIds, Covered, CloneBlock, StrictBlock, RegionIds, InputsPlanned, Injective;
    assert p.labels[p.header] in p.labels.Values;
  }

  lemma {:induction false} PickEntry(inc: seq<Incoming>, from: Label)
    ensures Pick(inc, from) == Const(0) || exists e <- inc :: e.from == from && Pick(inc, from) == e.val
  {
    if inc != [] {
      PickEntry(inc[1..], from);
      if inc[0].from != from && Pick(inc[1..], from) != Const(0) {
        var e :| e in inc[1..] && e.from == from && Pick(inc[1..], from) == e.val;
        assert e in inc;
      }
    }
  }

  lemma EntryKnown(f: Func, p: Plan, av: map<Label, set<Id>>, g: Func, nl: Label, ni: Id, from: Label, k: nat)
    requires Extracted(f, p, av, g, nl, ni) && EnteredFrom(f, p.region, p.header, from)
    requires k < |f.blocks[p.header].phis|
    ensures MayUse(f, p.region, Pick(f.blocks[p.header].phis[k].inc, from), {})
  {
    hide Below, UniqueIds, Covered, IsClone, StrictBlock, RegionIds, InputsPlanned, Injective;
    var x := f.blocks[p.header].phis[k];
    assert x in f.blocks[p.header].phis;
    PickEntry(x.inc, from);
  }

  // The step out of the root block, next to the edge into the region.
  lemma EnterRegion(f: Func, p: Plan, av: map<Label, set<Id>>, g: Func, nl: Label, ni: Id, outs: set<Id>, from: Label,
                    cells: set<int>, mem: map<int, int>, st: State, st': State)
    requires Extracted(f, p, av, g, nl, ni) && EnteredFrom(f, p.region, p.header, from)
    requires Follows(p, {}, cells, mem, st, st')
    ensures p.header in p.labels
    ensures InStep(f, p, av, outs, cells, mem, Goto(f, from, p.header, st), Goto(g, p.root, p.labels[p.header], st'))
  {
    hide Extracted, Follows, RegionIds, InputsPlanned, Uses, Injective, Enter, Pick, CloneInc, Available, StrictBlock, EnteredFrom, CloneV;
    HeaderInRegion(f, p, av, g, nl, ni);
    var phis := f.blocks[p.header].phis;
    RegionNames(f, p, av, g, nl, ni, p.header);
    RegionPhis(f, p, av, g, nl, ni, p.header);
    InputNames(f, p, av, g, nl, ni);
    forall k | 0 <= k < |phis|
      ensures Eval(Pick(ClonePhis(p, p.header, phis)[k].inc, p.root), st') == Eval(Pick(phis[k].inc, from), st)
    {
      EntryValue(f, p, av, g, nl, ni, from, cells, mem, st, st', k);
    }
    EnterClone(p, p.header, phis, from, p.root, {}, cells, mem, st, st');
    HeaderAvailable(f, p, av);
    assert g.blocks[p.labels[p.header]].phis == ClonePhis(p, p.header, phis);
    var (c, d) := (Goto(f, from, p.header, st), Goto(g, p.root, p.labels[p.header], st'));
    assert c == At(p.header, 0, Enter(phis, from, st));
    assert d == At(p.labels[p.header], 0, Enter(ClonePhis(p, p.header, phis), p.root, st'));
    assert Follows(p, Available(f, av, p.header, 0), cells, mem, c.st, d.st);
  }

  lemma HeaderAvailable(f: Func, p: Plan, av: map<Label, set<Id>>)
    requires p.header in f.blocks && p.header in av && av[p.header] == {}
    ensures Available(f, av, p.header, 0) == {} + Elements(PhiIds(f.blocks[p.header].phis))
  {
    assert ValueIds(f.blocks[p.header].body[..0]) == {};
  }

  // ---------- leaving it ----------

  ghost function OutIds(i: Interface): set<Id> {
    set v | v in i.scalars && OutputOf(i, v).Inst? :: OutputOf(i, v).id
  }

  lemma StoreStep(i: Interface, ids: map<Id, Id>, argv: seq<int>, out: map<Id, int>, st: State, k: nat)
    requires k < |i.scalars| && Look(st.args, CellParam(i, i.scalars[k])) == Cell(i, argv, i.scalars[k])
    requires OutputOf(i, i.scalars[k]).Inst?
    requires Look(st.env, NewId(ids, OutputOf(i, i.scalars[k]).id)) == Look(out, OutputOf(i, i.scalars[k]).id)
    ensures Exec(Stores(i, ids)[k], st).0 ==
            st.(mem := st.mem[Cell(i, argv, i.scalars[k]) := OutValue(i, out, i.scalars[k])])
  {
    var ops := Stores(i, ids)[k].ops;
    assert EvalAll(ops, st) == [Cell(i, argv, i.scalars[k]), OutValue(i, out, i.scalars[k])];
  }

  lemma {:induction false} ExitRun(p: Plan, g: Func, i: Interface, argv: seq<int>, mem: map<int, int>, out: map<Id, int>, st: State, q: nat)
    requires HasInterface(p, g, i) && |argv| == |i.params| && q <= |i.scalars|
    requires st.args == CallState(i, argv, mem).args
    requires forall x <- OutIds(i) :: Look(st.env, NewId(p.ids, x)) == Look(out, x)
    ensures Run(g, At(p.exit, 0, st), q).0 == At(p.exit, q, st.(mem := StoreMem(i, argv, out, st.mem, q)))
  {
    hide Exec, Step, Bind, Stand, Loads, Stores, NewId, CellParam;
    if q > 0 {
      ExitRun(p, g, i, argv, mem, out, st, q - 1);
      var prior := st.(mem := StoreMem(i, argv, out, st.mem, q - 1));
      var v := i.scalars[q - 1];
      StepBody(g, p.exit, q - 1, prior);
      CellParamAt(i, argv, mem, v);
      assert v in i.scalars && OutputOf(i, v).Inst? && OutputOf(i, v).id in OutIds(i);
      StoreStep(i, p.ids, argv, out, prior, q - 1);
    }
  }

  lemma {:induction false} RunKeepsArgs(g: Func, c: Config, n: nat)
    ensures Run(g, c, n).0.st.args == c.st.args
  {
    hide Exec;
    if n > 0 {
      RunKeepsArgs(g, c, n - 1);
      StepKeepsArgs(g, Run(g, c, n - 1).0);
    }
  }

  lemma StepKeepsArgs(g: Func, c: Config)
    ensures Step(g, c).0.st.args == c.st.args
  {
  }

  // ---------- the whole call ----------

  // The call as far as the edge into the region.
  lemma CallEnters(f: Func, p: Plan, av: map<Label, set<Id>>, g: Func, nl: Label, ni: Id, i: Interface, outs: set<Id>, from: Label,
                   argv: seq<int>, mem: map<int, int>, st: State)
    requires Extracted(f, p, av, g, nl, ni) && EnteredFrom(f, p.region, p.header, from) && HasInterface(p, g, i)
    requires Passes(i, argv, mem, st)
    ensures p.root in g.blocks
    ensures var (d, t) := Run(g, Start(g, CallState(i, argv, mem)), |i.scalars| + 1);
            && InStep(f, p, av, outs, Cells(i, argv), mem, Goto(f, from, p.header, st), d)
            && t == LoadTrace(i, argv, mem) + [Went(g.blocks[p.root].term.id, 0)]
  {
    hide Extracted, Passes, Follows, LoadEnv, Bind, Cells, Loads, Stores, Stand, EnteredFrom, InStep, Goto, IsClone;
    PassesCount(i, argv, mem, st);
    var (cs, k) := (CallState(i, argv, mem), |i.scalars|);
    HeaderInRegion(f, p, av, g, nl, ni);
    RootRun(p, g, i, argv, mem, k);
    RootFollows(p, g, i, argv, mem, st);
    var st' := cs.(env := LoadEnv(i, argv, mem, k));
    EnterRegion(f, p, av, g, nl, ni, outs, from, Cells(i, argv), mem, st, st');
    RootLeaves(p, g, i, st');
    assert LoadTrace(i, argv, mem)[..k] == LoadTrace(i, argv, mem);
    assert Start(g, cs) == At(p.root, 0, cs);
  }

  lemma PassesCount(i: Interface, argv: seq<int>, mem: map<int, int>, st: State)
    requires Passes(i, argv, mem, st)
    ensures |argv| == |i.params|
    ensures OwnCells(i, argv)
    ensures forall a :: a !in Cells(i, argv) ==> Look(mem, a) == Look(st.mem, a)
  {
  }

  lemma RootLeaves(p: Plan, g: Func, i: Interface, st: State)
    requires HasInterface(p, g, i) && |g.blocks[p.root].term.dests| == 1
    ensures Step(g, At(p.root, |i.scalars|, st)) ==
            (Goto(g, p.root, g.blocks[p.root].term.dests[0], st), [Went(g.blocks[p.root].term.id, 0)])
  {
  }

  // From its exit the clone stores the outputs and returns.
  lemma CallReturns(p: Plan, g: Func, i: Interface, argv: seq<int>, mem: map<int, int>, out: State, d: Config)
    requires HasInterface(p, g, i) && |argv| == |i.params|
    requires OwnCells(i, argv)
    requires d.At? && d.blk == p.exit && d.pos == 0 && LeftWith(p, OutIds(i), Cells(i, argv), mem, out, d.st)
    requires d.st.args == CallState(i, argv, mem).args && g.blocks[p.exit].term.dests == []
    ensures Returned(i, argv, out, Run(g, d, |i.scalars| + 1).0)
  {
    hide Exec, Bind, Stand, Loads, Stores, Cell;
    var k := |i.scalars|;
    ExitRun(p, g, i, argv, mem, out.env, d.st, k);
    var e := Run(g, d, k + 1).0;
    assert e == Halt(d.st.(mem := StoreMem(i, argv, out.env, d.st.mem, k)));
    forall v | v in i.scalars ensures OutputOf(i, v).Inst? && Look(e.st.mem, Cell(i, argv, v)) == Look(out.env, OutputOf(i, v).id) {
      var j :| 0 <= j < k && i.scalars[j] == v;
      StoreMemAt(i, argv, out.env, d.st.mem, k, 0);
    }
    forall a | a !in Cells(i, argv) ensures Look(e.st.mem, a) == Look(out.mem, a) {
      forall j | 0 <= j < k ensures Cell(i, argv, i.scalars[j]) != a {
        assert i.scalars[j] in i.scalars;
      }
      StoreMemAt(i, argv, out.env, d.st.mem, k, a);
    }
  }

  // What the call of the extracted function has to do with n steps of a run of the region: after
  // loading the cells it goes through the clones of the same blocks in step with the region, with
  // the same trace.
  ghost predicate CallKeepsUp(f: Func, p: Plan, g: Func, i: Interface, from: Label, argv: seq<int>, mem: map<int, int>, st: State, n: nat)
    requires |argv| == |i.params|
  {
    var c := Goto(f, from, p.header, st);
    var call := Start(g, CallState(i, argv, mem));
    var k := |i.scalars|;
    && (forall m :: 0 <= m < n ==> Corresponds(p, Run(f, c, m).0, Run(g, call, (k + 1) + m).0))
    && p.root in g.blocks
    && Run(g, call, (k + 1) + n).1 ==
         LoadTrace(i, argv, mem) + [Went(g.blocks[p.root].term.id, 0)] + CloneTrace(p.ids, Run(f, c, n).1)
  }

  // And with a run that leaves the region after n steps: it is at its exit exactly then, and it
  // returns with the memory the region leaves and, in the cell of every bidirectional scalar,
  // the value the region computed for the next iteration.
  ghost predicate CallMatches(f: Func, p: Plan, g: Func, i: Interface, from: Label, argv: seq<int>, mem: map<int, int>, st: State, n: nat)
    requires |argv| == |i.params|
  {
    var call := Start(g, CallState(i, argv, mem));
    var k := |i.scalars|;
    && CallKeepsUp(f, p, g, i, from, argv, mem, st, n)
    && Run(g, call, (k + 1) + n).0.At? && Run(g, call, (k + 1) + n).0.blk == p.exit
    && Returned(i, argv, Run(f, Goto(f, from, p.header, st), n).0.st, Run(g, call, (k + 1) + n + (k + 1)).0)
  }

  ghost predicate Returned(i: Interface, argv: seq<int>, out: State, e: Config) {
    && e.Halt?
    && (forall v <- i.scalars :: OutputOf(i, v).Inst? && Look(e.st.mem, Cell(i, argv, v)) == Look(out.env, OutputOf(i, v).id))
    && (forall a :: a !in Cells(i, argv) ==> Look(e.st.mem, a) == Look(out.mem, a))
  }

  // For as long as the region runs, if need be for ever, the call runs with it.
  lemma CallOfPrefix(f: Func, p: Plan, av: map<Label, set<Id>>, g: Func, nl: Label, ni: Id, i: Interface, from: Label,
                     argv: seq<int>, mem: map<int, int>, st: State, n: nat)
    requires Extracted(f, p, av, g, nl, ni) && EnteredFrom(f, p.region, p.header, from) && HasInterface(p, g, i)
    requires OutsKnown(f, p.region, av, OutIds(i)) && Passes(i, argv, mem, st)
    requires StaysFor(f, p.region, Cells(i, argv), Goto(f, from, p.header, st), n)
    ensures |argv| == |i.params| && CallKeepsUp(f, p, g, i, from, argv, mem, st, n)
  {
    hide *;
    PassesCount(i, argv, mem, st);
    var c := Goto(f, from, p.header, st);
    var call := Start(g, CallState(i, argv, mem));
    var k := |i.scalars|;
    forall m | 0 <= m < n ensures Corresponds(p, Run(f, c, m).0, Run(g, call, (k + 1) + m).0) {
      StaysForLess(f, p.region, Cells(i, argv), c, n, m);
      CallTracks(f, p, av, g, nl, ni, i, from, argv, mem, st, m);
      InStepCorresponds(f, p, av, OutIds(i), Cells(i, argv), mem, Run(f, c, m).0, Run(g, call, (k + 1) + m).0);
    }
    CallTracks(f, p, av, g, nl, ni, i, from, argv, mem, st, n);
    CallKeepsUpIntro(f, p, g, i, from, argv, mem, st, n);
  }

  // Calling the extracted function in place of running the region does what the region does.
  lemma CallOfClone(f: Func, p: Plan, av: map<Label, set<Id>>, g: Func, nl: Label, ni: Id, i: Interface, from: Label,
                    argv: seq<int>, mem: map<int, int>, st: State, n: nat)
    requires Extracted(f, p, av, g, nl, ni) && EnteredFrom(f, p.region, p.header, from) && HasInterface(p, g, i)
    requires OutsKnown(f, p.region, av, OutIds(i)) && Passes(i, argv, mem, st)
    requires var c := Goto(f, from, p.header, st);
             StaysFor(f, p.region, Cells(i, argv), c, n) && !InRegion(p.region, Run(f, c, n).0)
    ensures |argv| == |i.params| && CallMatches(f, p, g, i, from, argv, mem, st, n)
  {
    hide *;
    PassesCount(i, argv, mem, st);
    var c := Goto(f, from, p.header, st);
    CallOfPrefix(f, p, av, g, nl, ni, i, from, argv, mem, st, n);
    CallTracks(f, p, av, g, nl, ni, i, from, argv, mem, st, n);
    CallEnds(f, p, av, g, nl, ni, i, argv, mem, Run(f, c, n).0, (|i.scalars| + 1) + n);
    CallMatchesIntro(f, p, g, i, from, argv, mem, st, n);
  }

  lemma CallKeepsUpIntro(f: Func, p: Plan, g: Func, i: Interface, from: Label, argv: seq<int>, mem: map<int, int>, st: State, n: nat)
    requires |argv| == |i.params| && p.root in g.blocks
    requires var c := Goto(f, from, p.header, st);
             var call := Start(g, CallState(i, argv, mem));
             var k := |i.scalars|;
             && (forall m :: 0 <= m < n ==> Corresponds(p, Run(f, c, m).0, Run(g, call, (k + 1) + m).0))
             && Run(g, call, (k + 1) + n).1 ==
                  LoadTrace(i, argv, mem) + [Went(g.blocks[p.root].term.id, 0)] + CloneTrace(p.ids, Run(f, c, n).1)
    ensures CallKeepsUp(f, p, g, i, from, argv, mem, st, n)
  {
    hide Run, Corresponds, LoadTrace, CloneTrace, Goto, CallState;
  }

  lemma CallMatchesIntro(f: Func, p: Plan, g: Func, i: Interface, from: Label, argv: seq<int>, mem: map<int, int>, st: State, n: nat)
    requires |argv| == |i.params| && CallKeepsUp(f, p, g, i, from, argv, mem, st, n)
    requires var call := Start(g, CallState(i, argv, mem));
             var k := |i.scalars|;
             && Run(g, call, (k + 1) + n).0.At? && Run(g, call, (k + 1) + n).0.blk == p.exit
             && Returned(i, argv, Run(f, Goto(f, from, p.header, st), n).0.st, Run(g, call, (k + 1) + n + (k + 1)).0)
    ensures CallMatches(f, p, g, i, from, argv, mem, st, n)
  {
    hide Run, CallKeepsUp, Returned, Goto, CallState;
  }

  lemma CallTracks(f: Func, p: Plan, av: map<Label, set<Id>>, g: Func, nl: Label, ni: Id, i: Interface, from: Label,
                   argv: seq<int>, mem: map<int, int>, st: State, m: nat)
    requires Extracted(f, p, av, g, nl, ni) && EnteredFrom(f, p.region, p.header, from) && HasInterface(p, g, i)
    requires OutsKnown(f, p.region, av, OutIds(i)) && Passes(i, argv, mem, st)
    requires StaysFor(f, p.region, Cells(i, argv), Goto(f, from, p.header, st), m)
    ensures |argv| == |i.params| && p.root in g.blocks
    ensures var c := Goto(f, from, p.header, st);
            var d := Run(g, Start(g, CallState(i, argv, mem)), (|i.scalars| + 1) + m);
            && InStep(f, p, av, OutIds(i), Cells(i, argv), mem, Run(f, c, m).0, d.0)
            && d.1 == LoadTrace(i, argv, mem) + [Went(g.blocks[p.root].term.id, 0)] + CloneTrace(p.ids, Run(f, c, m).1)
  {
    hide *;
    PassesCount(i, argv, mem, st);
    var c := Goto(f, from, p.header, st);
    var call := Start(g, CallState(i, argv, mem));
    CallEnters(f, p, av, g, nl, ni, i, OutIds(i), from, argv, mem, st);
    CloneFollows(f, p, av, g, nl, ni, OutIds(i), Cells(i, argv), mem, c, Run(g, call, |i.scalars| + 1).0, m);
    RunAdd(g, call, |i.scalars| + 1, m);
  }

  lemma CallEnds(f: Func, p: Plan, av: map<Label, set<Id>>, g: Func, nl: Label, ni: Id, i: Interface,
                 argv: seq<int>, mem: map<int, int>, c: Config, m: nat)
    requires Extracted(f, p, av, g, nl, ni) && HasInterface(p, g, i) && |argv| == |i.params|
    requires OwnCells(i, argv)
    requires InStep(f, p, av, OutIds(i), Cells(i, argv), mem, c, Run(g, Start(g, CallState(i, argv, mem)), m).0)
    requires !InRegion(p.region, c)
    ensures var call := Start(g, CallState(i, argv, mem));
            && Run(g, call, m).0.At? && Run(g, call, m).0.blk == p.exit
            && Returned(i, argv, c.st, Run(g, call, m + (|i.scalars| + 1)).0)
  {
    hide *;
    var call := Start(g, CallState(i, argv, mem));
    var d := Run(g, call, m).0;
    InStepLeft(f, p, av, OutIds(i), Cells(i, argv), mem, c, d);
    RunKeepsArgs(g, call, m);
    CallArgs(g, CallState(i, argv, mem));
    HeaderInRegion(f, p, av, g, nl, ni);
    CallReturns(p, g, i, argv, mem, c.st, d);
    RunAdd(g, call, m, |i.scalars| + 1);
  }

  lemma CallArgs(g: Func, st: State)
    ensures Start(g, st).st.args == st.args
  {
  }

  // The same block, cloned, and the same instruction.
  ghost predicate Corresponds(p: Plan, c: Config, d: Config) {
    c.At? && d.At? && c.blk in p.labels && d.blk == p.labels[c.blk] && d.pos == c.pos
  }

  lemma StaysForLess(f: Func, region: seq<Label>, cells: set<int>, c: Config, n: nat, m: nat)
    requires StaysFor(f, region, cells, c, n) && m < n
    ensures StaysFor(f, region, cells, c, m) && InRegion(region, Run(f, c, m).0)
  {
    hide Step, InRegion, Spares;
    RunAdd(f, c, m, n - m);
    forall e <- Run(f, c, m).1 ensures e in Run(f, c, n).1 {
      assert m + (n - m) == n;
    }
  }

  lemma InStepCorresponds(f: Func, p: Plan, av: map<Label, set<Id>>, outs: set<Id>, cells: set<int>, mem: map<int, int>, c: Config, d: Config)
    requires InStep(f, p, av, outs, cells, mem, c, d) && InRegion(p.region, c)
    ensures Corresponds(p, c, d)
  {
    hide Follows;
  }

  lemma InStepLeft(f: Func, p: Plan, av: map<Label, set<Id>>, outs: set<Id>, cells: set<int>, mem: map<int, int>, c: Config, d: Config)
    requires InStep(f, p, av, outs, cells, mem, c, d) && !InRegion(p.region, c)
    ensures d.At? && d.blk == p.exit && d.pos == 0 && LeftWith(p, outs, cells, mem, c.st, d.st)
  {
  }
}
