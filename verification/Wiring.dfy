/** How the new function takes in the inputs and gives back the outputs: which parameter, load,
    store or slot belongs to which input. */
module Wiring {
  import opened Collections
  import opened Ssa
  import opened Rewrite
  import opened Clone
  import opened CloneRuns
  import opened CloneCall
  import opened CloneStages
  import opened InputOutputMap
  import opened ArgUtils
  import opened ExtractorRegion
  import opened CodeExtractors

  // How many of the first n inputs are passed as they are, and how many are loaded and stored.
  ghost function PureBefore(inputs: seq<Value>, oi: map<Value, Value>, allocas: seq<Value>, n: nat): nat
    requires n <= |inputs|
  {
    if n == 0 then 0
    else PureBefore(inputs, oi, allocas, n - 1) + if !Bidirectional(oi, inputs[n - 1]) && inputs[n - 1] !in allocas then 1 else 0
  }

  ghost function LoadedBefore(inputs: seq<Value>, outputs: seq<Value>, io: map<Value, nat>, oi: map<Value, Value>, pointers: set<Value>, n: nat): nat
    requires n <= |inputs| && forall v <- inputs :: Bidirectional(oi, v) ==> v in io && io[v] < |outputs|
  {
    if n == 0 then 0
    else LoadedBefore(inputs, outputs, io, oi, pointers, n - 1)
         + if Bidirectional(oi, inputs[n - 1]) && outputs[io[inputs[n - 1]]] !in pointers then 1 else 0
  }

  // What input m has become: its parameter; or, when it shares a cell with an output, the value
  // loaded from the parameter of that output, to which the exit stores the output, unless the
  // output is a pointer, which is the parameter itself.
  ghost predicate InputWired(inputs: seq<Value>, outputs: seq<Value>, io: map<Value, nat>, oi: map<Value, Value>, allocas: seq<Value>,
                             pointers: set<Value>, g: Func, p: Plan, m: nat)
    requires m < |inputs| && (forall v <- inputs :: Bidirectional(oi, v) ==> v in io && io[v] < |outputs|)
    requires p.root in g.blocks && p.exit in g.blocks
  {
    var (v, pure, root, exit) := (inputs[m], PureBefore(inputs, oi, allocas, |inputs|), g.blocks[p.root].body, g.blocks[p.exit].body);
    && v in p.inputs && |g.params| == pure + |outputs|
    && (!Bidirectional(oi, v) && v !in allocas ==>
          var k := PureBefore(inputs, oi, allocas, m);
          k < pure && p.inputs[v] == Arg(g.params[k]))
    && (Bidirectional(oi, v) && outputs[io[v]] in pointers ==> p.inputs[v] == Arg(g.params[pure + io[v]]))
    && (Bidirectional(oi, v) && outputs[io[v]] !in pointers ==>
          var k := LoadedBefore(inputs, outputs, io, oi, pointers, m);
          && k < |root| && k < |exit|
          && root[k].code == Load && root[k].ops == [Arg(g.params[pure + io[v]])] && p.inputs[v] == Inst(root[k].id)
          && exit[k].code == Store && exit[k].ops == [Arg(g.params[pure + io[v]]), RemapV(p.ids, outputs[io[v]])])
  }

  // Slot k of the root: allocated, given its initial value if there is one, and reloaded; the
  // reload stands for its input unless that shares a cell.
  ghost predicate SlotWired(oi: map<Value, Value>, allocas: seq<Value>, inits: seq<Option<int>>, g: Func, p: Plan, k: nat, q: nat)
    requires k < |allocas| && p.root in g.blocks
  {
    var root := g.blocks[p.root].body;
    var store := k < |inits| && inits[k].Some?;
    var load := if store then q + 2 else q + 1;
    && load < |root| && root[q].code == Alloca && root[load].code == Load && root[load].ops == [Inst(root[q].id)]
    && (store ==> root[q + 1].code == Store && root[q + 1].ops == [Inst(root[q].id), Const(inits[k].value)])
    && (!Bidirectional(oi, allocas[k]) ==> allocas[k] in p.inputs && p.inputs[allocas[k]] == Inst(root[load].id))
  }

  ghost predicate HasSlot(oi: map<Value, Value>, allocas: seq<Value>, inits: seq<Option<int>>, g: Func, p: Plan, k: nat)
    requires k < |allocas| && p.root in g.blocks
  {
    exists q :: SlotWired(oi, allocas, inits, g, p, k, q)
  }

  ghost predicate Wired(inputs: seq<Value>, outputs: seq<Value>, io: map<Value, nat>, oi: map<Value, Value>, allocas: seq<Value>,
                        inits: seq<Option<int>>, pointers: set<Value>, g: Func, p: Plan)
  {
    && p.root in g.blocks && p.exit in g.blocks
    && (forall v <- inputs :: Bidirectional(oi, v) ==> v in io && io[v] < |outputs|)
    && (forall m :: 0 <= m < |inputs| ==> InputWired(inputs, outputs, io, oi, allocas, pointers, g, p, m))
    && (forall v <- p.inputs :: v in inputs)
    && (forall k :: 0 <= k < |allocas| ==> HasSlot(oi, allocas, inits, g, p, k))
    // nothing else is read from a parameter or stored at the exit
    && LoadedBefore(inputs, outputs, io, oi, pointers, |inputs|) <= |g.blocks[p.root].body|
    && |g.blocks[p.exit].body| == LoadedBefore(inputs, outputs, io, oi, pointers, |inputs|)
    && forall x <- g.blocks[p.root].body[LoadedBefore(inputs, outputs, io, oi, pointers, |inputs|)..], v <- x.ops :: !v.Arg?
  }

  // ---------- the counts ----------

  lemma {:induction false} PureCounted(inputs: seq<Value>, oi: map<Value, Value>, allocas: seq<Value>, n: nat)
    requires n <= |inputs|
    ensures |Keeping(inputs[..n], PureSet(inputs, oi, allocas))| == PureBefore(inputs, oi, allocas, n)
  {
    hide Bidirectional;
    if n > 0 {
      PureCounted(inputs, oi, allocas, n - 1);
      KeepingPrefix(inputs, PureSet(inputs, oi, allocas), n - 1);
      assert inputs[n - 1] in inputs;
    }
  }

  lemma {:induction false} LoadedCounted(inputs: seq<Value>, outputs: seq<Value>, io: map<Value, nat>, oi: map<Value, Value>, pointers: set<Value>, n: nat)
    requires n <= |inputs| && forall v <- inputs :: Bidirectional(oi, v) ==> v in io && io[v] < |outputs|
    ensures |Keeping(inputs[..n], ScalarSet(inputs, outputs, io, oi, pointers))| == LoadedBefore(inputs, outputs, io, oi, pointers, n)
  {
    hide Bidirectional;
    if n > 0 {
      LoadedCounted(inputs, outputs, io, oi, pointers, n - 1);
      KeepingPrefix(inputs, ScalarSet(inputs, outputs, io, oi, pointers), n - 1);
      assert inputs[n - 1] in inputs;
    }
  }

  // Where input m stands among those of its kind.
  lemma KeptAt(xs: seq<Value>, keep: set<Value>, m: nat)
    requires m < |xs| && xs[m] in keep
    ensures |Keeping(xs[..m], keep)| < |Keeping(xs, keep)| && Keeping(xs, keep)[|Keeping(xs[..m], keep)|] == xs[m]
  {
    hide Keeping;
    KeepingPrefix(xs, keep, m);
  }

  // ---------- slots ----------

  lemma {:induction false} SlotValue(s: Subst, allocas: seq<Value>, first: Id, n: nat, k: nat)
    requires k < n <= |allocas| && Distinct(allocas) && allocas[k] !in s
    ensures allocas[k] in SlotSubst(s, allocas, first, n) && SlotSubst(s, allocas, first, n)[allocas[k]] == Inst(first + 3 * k + 2)
  {
    if k < n - 1 {
      SlotValue(s, allocas, first, n - 1, k);
    } else {
      SlotNotYet(s, allocas, first, k, k);
    }
  }

  lemma {:induction false} SlotNotYet(s: Subst, allocas: seq<Value>, first: Id, n: nat, k: nat)
    requires n <= k < |allocas| && Distinct(allocas) && allocas[k] !in s
    ensures allocas[k] !in SlotSubst(s, allocas, first, n)
  {
    if n > 0 { SlotNotYet(s, allocas, first, n - 1, k); }
  }

  // The code of slot k, from position q on.
  ghost predicate SlotCodeAt(code: seq<Instr>, inits: seq<Option<int>>, first: Id, k: nat, q: nat) {
    var store := k < |inits| && inits[k].Some?;
    var load := if store then q + 2 else q + 1;
    && load < |code| && code[q] == Instr(first + 3 * k, Alloca, [])
    && (store ==> code[q + 1] == Instr(first + 3 * k + 1, Store, [Inst(first + 3 * k), Const(inits[k].value)]))
    && code[load] == Instr(first + 3 * k + 2, Load, [Inst(first + 3 * k)])
  }

  lemma {:induction false} SlotCodeIs(inits: seq<Option<int>>, first: Id, n: nat, k: nat) returns (q: nat)
    requires k < n
    ensures SlotCodeAt(SlotsCode(inits, first, n), inits, first, k, q)
  {
    if k < n - 1 {
      q := SlotCodeIs(inits, first, n - 1, k);
    } else {
      q := |SlotsCode(inits, first, n - 1)|;
    }
  }

  lemma {:induction false} SlotsReadNoParameter(inits: seq<Option<int>>, first: Id, n: nat)
    ensures forall x <- SlotsCode(inits, first, n), v <- x.ops :: !v.Arg?
  {
    if n > 0 { SlotsReadNoParameter(inits, first, n - 1); }
  }

  // ---------- what is built is wired ----------

  lemma BuiltParts(g: Func, m: Made)
    requires IsMade(g, m)
    ensures Stand(m.i, m.s) && FreshTargets(m.s, m.ni) && m.ni <= m.first && g.params == m.i.params && |m.i.params| == |m.i.pure| + |m.i.outputs|
    ensures m.p.inputs == SlotSubst(m.s, m.allocas, m.first, |m.allocas|)
    ensures m.p.root in g.blocks && g.blocks[m.p.root].body == Loads(m.i) + SlotsCode(m.inits, m.first, |m.allocas|)
    ensures m.p.exit in g.blocks && g.blocks[m.p.exit].body == Stores(m.i, m.p.ids)
  {
    hide Stand, SlotSubst, Loads, Stores, SlotsCode, Ready, IsClone, FreshPlan, FreshTargets;
  }

  // What stood for an input before the slots stands for it still.
  lemma StandsFor(g: Func, m: Made, v: Value)
    requires IsMade(g, m) && v in m.i.pure + m.i.scalars + m.i.pointers
    ensures v in m.s && v in m.p.inputs && m.p.inputs[v] == SubstV(m.s, v)
  {
    hide SlotSubst, Loads, Stores, SlotsCode, Ready, IsClone, FreshPlan, FreshTargets, Built;
    BuiltParts(g, m);
    SlotSubstIs(m.s, m.allocas, m.first, |m.allocas|, m.ni);
  }

  lemma PureWired(g: Func, m: Made, k: nat)
    requires IsMade(g, m) && k < |m.i.pure|
    ensures m.i.pure[k] in m.p.inputs && k < |g.params| && m.p.inputs[m.i.pure[k]] == Arg(g.params[k])
  {
    hide SlotSubst, Loads, Stores, SlotsCode, Ready, IsMade;
    BuiltParts(g, m);
    assert m.i.pure[k] in m.i.pure + m.i.scalars + m.i.pointers;
    StandsFor(g, m, m.i.pure[k]);
  }

  lemma PointerWired(g: Func, m: Made, k: nat)
    requires IsMade(g, m) && k < |m.i.pointers|
    ensures m.i.pointers[k] in m.p.inputs && m.p.inputs[m.i.pointers[k]] == Arg(CellParam(m.i, m.i.pointers[k]))
  {
    hide SlotSubst, Loads, Stores, SlotsCode, Ready, IsMade, CellParam;
    BuiltParts(g, m);
    assert m.i.pointers[k] in m.i.pure + m.i.scalars + m.i.pointers;
    StandsFor(g, m, m.i.pointers[k]);
  }

  lemma ScalarWired(g: Func, m: Made, k: nat)
    requires IsMade(g, m) && k < |m.i.scalars|
    ensures m.p.root in g.blocks && m.p.exit in g.blocks && k < |g.blocks[m.p.root].body| && |g.blocks[m.p.exit].body| == |m.i.scalars|
    ensures var v := m.i.scalars[k];
            var load := g.blocks[m.p.root].body[k];
            var store := g.blocks[m.p.exit].body[k];
            && v in m.p.inputs && m.p.inputs[v] == Inst(load.id) && load.code == Load && load.ops == [Arg(CellParam(m.i, v))]
            && store.code == Store && store.ops == [Arg(CellParam(m.i, v)), RemapV(m.p.ids, OutputOf(m.i, v))]
  {
    hide SlotSubst, SlotsCode, Ready, IsMade, CellParam, OutputOf, RemapV;
    BuiltParts(g, m);
    assert m.i.scalars[k] in m.i.pure + m.i.scalars + m.i.pointers;
    StandsFor(g, m, m.i.scalars[k]);
    assert g.blocks[m.p.root].body[k] == Loads(m.i)[k];
  }

  // The prepared inputs, and how they are to be found in the interface.
  ghost predicate PreparedFor(m: Made, inputs: seq<Value>, outputs: seq<Value>, io: map<Value, nat>, oi: map<Value, Value>, pointers: set<Value>) {
    && m.i == InterfaceOf(inputs, outputs, io, oi, m.allocas, pointers, m.i.params, m.i.firstLoad, m.i.firstStore)
    && Distinct(inputs) && Distinct(m.allocas) && (forall v <- m.allocas :: v in inputs)
    && forall v <- inputs :: Bidirectional(oi, v) ==> v in io && io[v] < |outputs|
  }

  lemma CountsAgree(m: Made, inputs: seq<Value>, outputs: seq<Value>, io: map<Value, nat>, oi: map<Value, Value>, pointers: set<Value>)
    requires PreparedFor(m, inputs, outputs, io, oi, pointers)
    ensures |m.i.pure| == PureBefore(inputs, oi, m.allocas, |inputs|) && m.i.outputs == outputs && m.i.cellOf == io
    ensures |m.i.scalars| == LoadedBefore(inputs, outputs, io, oi, pointers, |inputs|)
  {
    hide Keeping, Bidirectional, PureSet, ScalarSet, PointerSet, Distinct;
    PureCounted(inputs, oi, m.allocas, |inputs|);
    LoadedCounted(inputs, outputs, io, oi, pointers, |inputs|);
    assert inputs[..|inputs|] == inputs;
  }

  lemma InputIsWired(g: Func, m: Made, inputs: seq<Value>, outputs: seq<Value>, io: map<Value, nat>, oi: map<Value, Value>, pointers: set<Value>, n: nat)
    requires IsMade(g, m) && PreparedFor(m, inputs, outputs, io, oi, pointers) && n < |inputs|
    requires forall v :: v in m.p.inputs <==> v in inputs
    requires m.p.root in g.blocks && m.p.exit in g.blocks
    ensures InputWired(inputs, outputs, io, oi, m.allocas, pointers, g, m.p, n)
  {
    hide Keeping, Bidirectional, IsMade, Distinct, RemapV, Stand;
    var v := inputs[n];
    CountsAgree(m, inputs, outputs, io, oi, pointers);
    BuiltParts(g, m);
    assert v in inputs;
    if Bidirectional(oi, v) {
      if outputs[io[v]] in pointers {
        var k := PlaceOf(inputs, PointerSet(inputs, outputs, io, oi, pointers), n);
        PointerWired(g, m, k);
      } else {
        LoadedCounted(inputs, outputs, io, oi, pointers, n);
        KeptAt(inputs, ScalarSet(inputs, outputs, io, oi, pointers), n);
        ScalarWired(g, m, LoadedBefore(inputs, outputs, io, oi, pointers, n));
      }
    } else if v !in m.allocas {
      PureCounted(inputs, oi, m.allocas, n);
      KeptAt(inputs, PureSet(inputs, oi, m.allocas), n);
      PureWired(g, m, PureBefore(inputs, oi, m.allocas, n));
    }
  }

  lemma PlaceOf(xs: seq<Value>, keep: set<Value>, n: nat) returns (k: nat)
    requires n < |xs| && xs[n] in keep
    ensures k < |Keeping(xs, keep)| && Keeping(xs, keep)[k] == xs[n]
  {
    hide Keeping;
    KeptAt(xs, keep, n);
    k := |Keeping(xs[..n], keep)|;
  }

  lemma SlotIsWired(g: Func, m: Made, inputs: seq<Value>, outputs: seq<Value>, io: map<Value, nat>, oi: map<Value, Value>, pointers: set<Value>, k: nat)
    requires IsMade(g, m) && PreparedFor(m, inputs, outputs, io, oi, pointers) && k < |m.allocas| && m.p.root in g.blocks
    ensures HasSlot(oi, m.allocas, m.inits, g, m.p, k)
  {
    hide Keeping, Bidirectional, IsMade, Distinct, SlotSubst, SlotsCode, Loads, InterfaceOf, FreshTargets;
    BuiltParts(g, m);
    var code := SlotsCode(m.inits, m.first, |m.allocas|);
    var q := SlotCodeIs(m.inits, m.first, |m.allocas|, k);
    var root := g.blocks[m.p.root].body;
    var at := |Loads(m.i)| + q;
    assert forall j :: 0 <= j < |code| ==> root[|Loads(m.i)| + j] == code[j];
    if !Bidirectional(oi, m.allocas[k]) {
      InterfaceSeparate(inputs, outputs, io, oi, m.allocas, pointers, m.i.params, m.i.firstLoad, m.i.firstStore);
      NotStanding(m, oi, inputs, k);
      SlotValue(m.s, m.allocas, m.first, |m.allocas|, k);
    }
    assert SlotWired(oi, m.allocas, m.inits, g, m.p, k, at);
  }

  lemma NotStanding(m: Made, oi: map<Value, Value>, inputs: seq<Value>, k: nat)
    requires Stand(m.i, m.s) && k < |m.allocas| && !Bidirectional(oi, m.allocas[k])
    requires forall v :: v in m.i.pure + m.i.scalars + m.i.pointers <==> v in inputs && (Bidirectional(oi, v) || v !in m.allocas)
    ensures m.allocas[k] !in m.s
  {
    hide Bidirectional;
    assert m.allocas[k] in m.allocas;
  }

  // Every input of what was built has its place, and nothing else is read from the cells or
  // written to them.
  lemma BuiltIsWired(g: Func, m: Made, inputs: seq<Value>, outputs: seq<Value>, io: map<Value, nat>, oi: map<Value, Value>, pointers: set<Value>)
    requires IsMade(g, m) && PreparedFor(m, inputs, outputs, io, oi, pointers) && forall v :: v in m.p.inputs <==> v in inputs
    ensures Wired(inputs, outputs, io, oi, m.allocas, m.inits, pointers, g, m.p)
  {
    hide IsMade, InputWired, HasSlot, LoadedBefore, SlotsCode, SlotSubst, Bidirectional, Distinct, Stand, InterfaceOf, FreshTargets;
    BuiltParts(g, m);
    CountsAgree(m, inputs, outputs, io, oi, pointers);
    forall n | 0 <= n < |inputs| ensures InputWired(inputs, outputs, io, oi, m.allocas, pointers, g, m.p, n) {
      InputIsWired(g, m, inputs, outputs, io, oi, pointers, n);
    }
    forall k | 0 <= k < |m.allocas| ensures HasSlot(oi, m.allocas, m.inits, g, m.p, k) {
      SlotIsWired(g, m, inputs, outputs, io, oi, pointers, k);
    }
    SlotsReadNoParameter(m.inits, m.first, |m.allocas|);
    assert g.blocks[m.p.root].body[|m.i.scalars|..] == SlotsCode(m.inits, m.first, |m.allocas|);
  }
}
