/** The clone under construction: where its blocks stand between the steps, and what stands
    for the inputs once they have been replaced. */
module CloneStages {
  import opened Collections
  import opened Ssa
  import opened Split
  import opened Rewrite
  import opened Partition
  import opened Clone
  import opened CloneSteps
  import opened CloneRuns
  import opened CloneCall
  import opened Sever
  import opened InputOutputMap
  import opened ArgUtils
  import opened ExtractorRegion

  // ---------- copying the blocks ----------

  ghost predicate Copied(f: Func, blocks: seq<Label>, labels: map<Label, Label>, ids: map<Id, Id>, clones: map<Label, Block>) {
    && labels.Keys == Elements(blocks) && ids.Keys == RegionIds(f, blocks) && clones.Keys == labels.Values
    && (forall l <- blocks :: l in f.blocks)
    && forall l <- blocks :: clones[labels[l]] == Duplicate(ids, f.blocks[l])
  }

  lemma CopiedNothing(f: Func)
    ensures Copied(f, [], map[], map[], map[])
  {
  }

  lemma NewNames(f: Func, nl: Label, ni: Id, all: seq<Label>, n: nat, ids: map<Id, Id>)
    requires Ready(f, nl, ni, all) && n < |all| && ids.Keys == RegionIds(f, all[..n])
    ensures all[n] in f.blocks && Distinct(Insts(f.blocks[all[n]])) && all[n] !in all[..n]
    ensures forall x <- Insts(f.blocks[all[n]]) :: x !in ids
    ensures RegionIds(f, all[..n + 1]) == ids.Keys + Elements(Insts(f.blocks[all[n]]))
  {
    hide Below, Insts;
    assert all[n] in all && all[..n + 1] == all[..n] + [all[n]];
    UniqueTo(f, all[..n], all[n]);
  }

  lemma UniqueTo(f: Func, blocks: seq<Label>, l: Label)
    requires UniqueIds(f) && l in f.blocks && l !in blocks
    ensures forall x <- Insts(f.blocks[l]) :: x !in RegionIds(f, blocks)
  {
    hide Insts;
  }

  lemma CopiedMore(f: Func, nl: Label, ni: Id, all: seq<Label>, n: nat, labels: map<Label, Label>, ids: map<Id, Id>,
                   clones: map<Label, Block>, c: Label, first: Id)
    requires Ready(f, nl, ni, all) && n < |all| && Copied(f, all[..n], labels, ids, clones) && c !in labels.Values
    requires all[n] in f.blocks
    ensures var xs := Insts(f.blocks[all[n]]);
            var ids' := NameSome(ids, xs, first, |xs|);
            Copied(f, all[..n + 1], labels[all[n] := c], ids', clones[c := Duplicate(ids', f.blocks[all[n]])])
  {
    hide Ready, Duplicate, Insts, NameSome, RegionIds;
    NewNames(f, nl, ni, all, n, ids);
    var l := all[n];
    var xs := Insts(f.blocks[l]);
    var ids' := NameSome(ids, xs, first, |xs|);
    NameSomeIs(ids, xs, first, |xs|);
    assert xs[..|xs|] == xs && all[..n + 1] == all[..n] + [l];
    var (labels', clones') := (labels[l := c], clones[c := Duplicate(ids', f.blocks[l])]);
    LabelsMore(labels, l, c);
    forall m | m in all[..n] ensures clones'[labels'[m]] == Duplicate(ids', f.blocks[m]) {
      assert labels[m] in labels.Values;
      OldNames(f, all[..n], m);
      DuplicateSame(ids, ids', f.blocks[m]);
    }
  }

  lemma LabelsMore(labels: map<Label, Label>, l: Label, c: Label)
    requires l !in labels
    ensures labels[l := c].Values == labels.Values + {c}
  {
    var m := labels[l := c];
    assert m[l] == c;
    forall x | x in labels.Values ensures x in m.Values { var k :| k in labels && labels[k] == x; assert m[k] == x; }
  }

  lemma OldNames(f: Func, blocks: seq<Label>, m: Label)
    requires m in blocks && m in f.blocks
    ensures forall i <- Insts(f.blocks[m]) :: i in RegionIds(f, blocks)
  {
    hide Insts;
  }

  // ---------- replacing, diverting, remapping ----------

  // The clones when the values of s have been replaced in them.
  ghost predicate Stage(f: Func, blocks: seq<Label>, labels: map<Label, Label>, ids: map<Id, Id>, clones: map<Label, Block>, s: Subst) {
    && labels.Keys == Elements(blocks) && clones.Keys == labels.Values
    && (forall l <- blocks :: l in f.blocks)
    && forall l <- blocks :: clones[labels[l]] == SubstBlock(s, Duplicate(ids, f.blocks[l]))
  }

  function EachSubst(s: Subst, clones: map<Label, Block>): map<Label, Block> { map c | c in clones :: SubstBlock(s, clones[c]) }

  function EachDiverted(region: seq<Label>, exit: Label, clones: map<Label, Block>): map<Label, Block> {
    map c | c in clones :: Divert(region, exit, clones[c])
  }

  function EachRemapped(labels: map<Label, Label>, ids: map<Id, Id>, clones: map<Label, Block>): map<Label, Block> {
    map c | c in clones :: Remap(labels, ids, clones[c])
  }

  lemma StageStart(f: Func, blocks: seq<Label>, labels: map<Label, Label>, ids: map<Id, Id>, clones: map<Label, Block>)
    requires Copied(f, blocks, labels, ids, clones)
    ensures Stage(f, blocks, labels, ids, clones, map[])
  {
    hide Duplicate, SubstBlock;
    forall l | l in blocks ensures clones[labels[l]] == SubstBlock(map[], Duplicate(ids, f.blocks[l])) {
      SubstBlockNothing(Duplicate(ids, f.blocks[l]));
    }
  }

  lemma StageMore(f: Func, blocks: seq<Label>, labels: map<Label, Label>, ids: map<Id, Id>, clones: map<Label, Block>, s: Subst, v: Value, r: Value)
    requires Stage(f, blocks, labels, ids, clones, s) && forall x <- s :: s[x] != v
    ensures Stage(f, blocks, labels, ids, EachSubst(map[v := r], clones), Extend(s, v, r))
  {
    hide Duplicate, SubstBlock, Extend;
    forall l | l in blocks ensures labels[l] in clones
      && EachSubst(map[v := r], clones)[labels[l]] == SubstBlock(Extend(s, v, r), Duplicate(ids, f.blocks[l]))
    {
      assert labels[l] in labels.Values;
      SubstBlockMore(s, v, r, Duplicate(ids, f.blocks[l]));
    }
  }

  // The blocks of the new function, from the clones when everything has been replaced.
  function Finished(p: Plan, clones: map<Label, Block>): map<Label, Block>
    requires p.header in p.labels && p.labels[p.header] in clones
  {
    var m := EachRemapped(p.labels, p.ids, EachDiverted(p.region, p.exit, clones));
    m[p.labels[p.header] := RerootPhis(p.labels.Values + {p.root, p.exit}, p.root, m[p.labels[p.header]])]
  }

  lemma StageFinished(f: Func, p: Plan, clones: map<Label, Block>, nl: Label)
    requires Stage(f, p.region, p.labels, p.ids, clones, p.inputs) && LabelsFresh(p, nl) && Injective(p.labels) && p.header in p.region
    requires forall l <- p.region, x <- f.blocks[l].phis, e <- x.inc :: e.from < nl
    ensures p.header in p.labels && p.labels[p.header] in clones && Finished(p, clones).Keys == p.labels.Values
    ensures forall l <- p.region :: l in p.labels && p.labels[l] in Finished(p, clones) && Finished(p, clones)[p.labels[l]] == CloneBlock(p, l, f.blocks[l])
  {
    hide Duplicate, SubstBlock, Divert, Remap, RerootPhis, CloneBlock;
    assert p.labels[p.header] in p.labels.Values;
    forall l | l in p.region
      ensures l in p.labels && p.labels[l] in Finished(p, clones) && Finished(p, clones)[p.labels[l]] == CloneBlock(p, l, f.blocks[l])
    {
      assert p.labels[l] in p.labels.Values;
      StepsMakeClone(p, l, f.blocks[l], nl);
    }
  }

  // ---------- what stands for the inputs ----------

  // The output whose cell input v shares.
  function OutFor(io: map<Value, nat>, outputs: seq<Value>, v: Value): Value {
    if v in io && io[v] < |outputs| then outputs[io[v]] else Const(0)
  }

  function PureSet(inputs: seq<Value>, oi: map<Value, Value>, allocas: seq<Value>): set<Value> {
    set v | v in inputs && !Bidirectional(oi, v) && v !in allocas
  }

  function ScalarSet(inputs: seq<Value>, outputs: seq<Value>, io: map<Value, nat>, oi: map<Value, Value>, pointers: set<Value>): set<Value> {
    set v | v in inputs && Bidirectional(oi, v) && OutFor(io, outputs, v) !in pointers
  }

  function PointerSet(inputs: seq<Value>, outputs: seq<Value>, io: map<Value, nat>, oi: map<Value, Value>, pointers: set<Value>): set<Value> {
    set v | v in inputs && Bidirectional(oi, v) && OutFor(io, outputs, v) in pointers
  }

  // The interface of the function made for these inputs and outputs.
  function InterfaceOf(inputs: seq<Value>, outputs: seq<Value>, io: map<Value, nat>, oi: map<Value, Value>, allocas: seq<Value>,
                       pointers: set<Value>, params: seq<Id>, firstLoad: Id, firstStore: Id): Interface
  {
    Interface(Keeping(inputs, PureSet(inputs, oi, allocas)), Keeping(inputs, ScalarSet(inputs, outputs, io, oi, pointers)),
              Keeping(inputs, PointerSet(inputs, outputs, io, oi, pointers)), outputs, io, params, firstLoad, firstStore)
  }

  // Of the interface, the first np pure inputs, ns scalars and nq pointers have been replaced.
  ghost predicate StandUpTo(i: Interface, np: nat, ns: nat, nq: nat, s: Subst) {
    && np <= |i.pure| <= |i.params| && ns <= |i.scalars| && nq <= |i.pointers|
    && s.Keys == (set v | v in i.pure[..np] + i.scalars[..ns] + i.pointers[..nq])
    && (forall k :: 0 <= k < np ==> SubstV(s, i.pure[k]) == Arg(i.params[k]))
    && (forall k :: 0 <= k < ns ==> SubstV(s, i.scalars[k]) == Inst(i.firstLoad + k))
    && (forall k :: 0 <= k < nq ==> SubstV(s, i.pointers[k]) == Arg(CellParam(i, i.pointers[k])))
  }

  // Each input is passed in one way only, and once.
  ghost predicate Separate(i: Interface) {
    && Distinct(i.pure) && Distinct(i.scalars) && Distinct(i.pointers)
    && (forall v <- i.pure :: v !in i.scalars && v !in i.pointers)
    && (forall v <- i.scalars :: v !in i.pointers)
  }

  lemma StandPure(i: Interface, np: nat, s: Subst)
    requires StandUpTo(i, np, 0, 0, s) && Separate(i) && np < |i.pure|
    ensures i.pure[np] !in s && StandUpTo(i, np + 1, 0, 0, s[i.pure[np] := Arg(i.params[np])])
  {
    assert i.pure[..np + 1] == i.pure[..np] + [i.pure[np]];
  }

  lemma KeysMore(a: seq<Value>, b: seq<Value>, c: seq<Value>, v: Value)
    ensures (set w | w in a + (b + [v]) + c) == (set w | w in a + b + c) + {v}
    ensures (set w | w in a + b + (c + [v])) == (set w | w in a + b + c) + {v}
  {
  }

  lemma SubstMore(s: Subst, v: Value, r: Value)
    ensures s[v := r].Keys == s.Keys + {v} && SubstV(s[v := r], v) == r
    ensures forall w :: w != v ==> SubstV(s[v := r], w) == SubstV(s, w)
  {
  }

  lemma NotYet(i: Interface, ns: nat, nq: nat, s: Subst, v: Value)
    requires StandUpTo(i, |i.pure|, ns, nq, s) && v !in i.pure && v !in i.scalars[..ns] && v !in i.pointers[..nq]
    ensures v !in s && (forall k :: 0 <= k < ns ==> i.scalars[k] != v) && forall k :: 0 <= k < nq ==> i.pointers[k] != v
  {
    hide SubstV;
    assert i.pure[..|i.pure|] == i.pure;
    forall k | 0 <= k < ns ensures i.scalars[k] != v { assert i.scalars[..ns][k] == i.scalars[k]; }
    forall k | 0 <= k < nq ensures i.pointers[k] != v { assert i.pointers[..nq][k] == i.pointers[k]; }
  }

  lemma StandScalar(i: Interface, ns: nat, nq: nat, s: Subst)
    requires StandUpTo(i, |i.pure|, ns, nq, s) && Separate(i) && ns < |i.scalars|
    ensures i.scalars[ns] !in s && StandUpTo(i, |i.pure|, ns + 1, nq, s[i.scalars[ns] := Inst(i.firstLoad + ns)])
  {
    hide CellParam, SubstV;
    var v := i.scalars[ns];
    assert v in i.scalars && v !in i.pure && v !in i.pointers[..nq] && v !in i.scalars[..ns];
    NotYet(i, ns, nq, s, v);
    assert i.scalars[..ns + 1] == i.scalars[..ns] + [v];
    KeysMore(i.pure[..|i.pure|], i.scalars[..ns], i.pointers[..nq], v);
    SubstMore(s, v, Inst(i.firstLoad + ns));
  }

  lemma StandPointer(i: Interface, ns: nat, nq: nat, s: Subst)
    requires StandUpTo(i, |i.pure|, ns, nq, s) && Separate(i) && nq < |i.pointers|
    ensures i.pointers[nq] !in s && StandUpTo(i, |i.pure|, ns, nq + 1, s[i.pointers[nq] := Arg(CellParam(i, i.pointers[nq]))])
  {
    hide CellParam, SubstV;
    var v := i.pointers[nq];
    assert v in i.pointers && v !in i.pure && v !in i.pointers[..nq] && v !in i.scalars[..ns];
    NotYet(i, ns, nq, s, v);
    assert i.pointers[..nq + 1] == i.pointers[..nq] + [v];
    KeysMore(i.pure[..|i.pure|], i.scalars[..ns], i.pointers[..nq], v);
    SubstMore(s, v, Arg(CellParam(i, v)));
  }

  lemma StandAll(i: Interface, s: Subst)
    requires StandUpTo(i, |i.pure|, |i.scalars|, |i.pointers|, s)
    ensures Stand(i, s)
  {
    assert i.pure[..|i.pure|] == i.pure && i.scalars[..|i.scalars|] == i.scalars && i.pointers[..|i.pointers|] == i.pointers;
  }

  // The inputs taken in order: position n of the inputs is the next scalar, the next pointer
  // or neither.
  lemma {:induction false} KeepingPrefix(xs: seq<Value>, keep: set<Value>, n: nat)
    requires n < |xs|
    ensures Keeping(xs[..n + 1], keep) == Keeping(xs[..n], keep) + if xs[n] in keep then [xs[n]] else []
    ensures |Keeping(xs[..n + 1], keep)| <= |Keeping(xs, keep)|
    ensures xs[n] in keep ==> Keeping(xs, keep)[|Keeping(xs[..n], keep)|] == xs[n]
  {
    assert xs[..n + 1][..n] == xs[..n];
    assert xs == xs[..n + 1] + xs[n + 1..];
    KeepingConcat(xs[..n + 1], xs[n + 1..], keep);
  }

  lemma InterfaceSeparate(inputs: seq<Value>, outputs: seq<Value>, io: map<Value, nat>, oi: map<Value, Value>, allocas: seq<Value>,
                          pointers: set<Value>, params: seq<Id>, firstLoad: Id, firstStore: Id)
    requires Distinct(inputs)
    ensures var i := InterfaceOf(inputs, outputs, io, oi, allocas, pointers, params, firstLoad, firstStore);
            && Separate(i)
            && (forall v :: v in i.pure + i.scalars + i.pointers <==> v in inputs && (Bidirectional(oi, v) || v !in allocas))
            && (forall v :: v in i.scalars + i.pointers <==> v in inputs && Bidirectional(oi, v))
            && forall v <- i.scalars :: OutFor(io, outputs, v) !in pointers
  {
    hide Keeping, Bidirectional, OutFor;
    KeepingHas(inputs, PureSet(inputs, oi, allocas));
    KeepingHas(inputs, ScalarSet(inputs, outputs, io, oi, pointers));
    KeepingHas(inputs, PointerSet(inputs, outputs, io, oi, pointers));
  }

  // What replaces the inputs is named after everything in use.
  ghost predicate FreshTargets(s: Subst, ni: Id) { forall v <- s :: !s[v].Const? && !ValueBelow(s[v], ni) }

  // ---------- stack slots ----------

  // The code for one slot: the slot, its initial value if there is one, and the reload.
  function SlotCode(init: Option<int>, first: Id): seq<Instr> {
    [Instr(first, Alloca, [])]
    + (if init.Some? then [Instr(first + 1, Store, [Inst(first), Const(init.value)])] else [])
    + [Instr(first + 2, Load, [Inst(first)])]
  }

  function InitAt(inits: seq<Option<int>>, k: nat): Option<int> { if k < |inits| then inits[k] else None }

  function SlotsCode(inits: seq<Option<int>>, first: Id, n: nat): seq<Instr> {
    if n == 0 then [] else SlotsCode(inits, first, n - 1) + SlotCode(InitAt(inits, n - 1), first + 3 * (n - 1))
  }

  // The first n slots have replaced whatever of their values was still in use.
  function SlotSubst(s: Subst, allocas: seq<Value>, first: Id, n: nat): Subst
    requires n <= |allocas|
  {
    if n == 0 then s else Extend(SlotSubst(s, allocas, first, n - 1), allocas[n - 1], Inst(first + 3 * (n - 1) + 2))
  }

  lemma {:induction false} SlotSubstIs(s: Subst, allocas: seq<Value>, first: Id, n: nat, ni: Id)
    requires n <= |allocas| && FreshTargets(s, ni) && ni <= first
    ensures FreshTargets(SlotSubst(s, allocas, first, n), ni)
    ensures SlotSubst(s, allocas, first, n).Keys == s.Keys + (set v | v in allocas[..n])
    ensures forall v <- s :: SlotSubst(s, allocas, first, n)[v] == s[v]
    ensures forall v <- SlotSubst(s, allocas, first, n) :: v !in s ==>
              exists k :: 0 <= k < n && SlotSubst(s, allocas, first, n)[v] == Inst(first + 3 * k + 2)
  {
    if n > 0 {
      SlotSubstIs(s, allocas, first, n - 1, ni);
      assert allocas[..n] == allocas[..n - 1] + [allocas[n - 1]];
      var (a, b) := (SlotSubst(s, allocas, first, n - 1), SlotSubst(s, allocas, first, n));
      forall v | v in b && v !in s ensures exists k :: 0 <= k < n && b[v] == Inst(first + 3 * k + 2) {
        if v in a {
          var k :| 0 <= k < n - 1 && a[v] == Inst(first + 3 * k + 2);
          assert 0 <= k < n && b[v] == Inst(first + 3 * k + 2);
        } else {
          assert b[v] == Inst(first + 3 * (n - 1) + 2);
        }
      }
    } else {
      assert (set v | v in allocas[..0]) == {};
    }
  }

  lemma ReplaceStep(f: Func, blocks: seq<Label>, labels: map<Label, Label>, ids: map<Id, Id>, clones: map<Label, Block>,
                    s: Subst, v: Value, r: Value, ni: Id)
    requires Stage(f, blocks, labels, ids, clones, s) && FreshTargets(s, ni) && ValueBelow(v, ni)
    requires !r.Const? && !ValueBelow(r, ni)
    ensures Stage(f, blocks, labels, ids, EachSubst(map[v := r], clones), Extend(s, v, r)) && FreshTargets(Extend(s, v, r), ni)
  {
    hide Stage, EachSubst;
    StageMore(f, blocks, labels, ids, clones, s, v, r);
  }
}
