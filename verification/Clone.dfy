/** The function the extractor makes from a region: a root block, a clone of every region
    block, and one exit block. */
module Clone {
  import opened Collections
  import opened Ssa
  import opened Rewrite
  import opened Partition

  // How the region's names translate: blocks, instructions, and the values it takes in.
  datatype Plan = Plan(region: seq<Label>, header: Label, labels: map<Label, Label>, ids: map<Id, Id>,
                       inputs: Subst, root: Label, exit: Label)

  function NewId(ids: map<Id, Id>, i: Id): Id { if i in ids then ids[i] else i }

  function RemapV(ids: map<Id, Id>, v: Value): Value { if v.Inst? then Inst(NewId(ids, v.id)) else v }

  // An operand of the region, in the clone: an input becomes what stands for it, the rest is remapped.
  function CloneV(p: Plan, v: Value): Value { RemapV(p.ids, SubstV(p.inputs, v)) }

  function CloneVs(p: Plan, vs: seq<Value>): (r: seq<Value>)
    ensures |r| == |vs|
  {
    seq(|vs|, k requires 0 <= k < |vs| => CloneV(p, vs[k]))
  }

  // In the header, whatever is not in the new function is replaced by the root.
  function CloneFrom(p: Plan, l: Label, from: Label): Label {
    if from in p.labels then p.labels[from] else if l == p.header then p.root else from
  }

  function CloneInc(p: Plan, l: Label, inc: seq<Incoming>): (r: seq<Incoming>)
    ensures |r| == |inc|
  {
    seq(|inc|, k requires 0 <= k < |inc| => Incoming(CloneFrom(p, l, inc[k].from), CloneV(p, inc[k].val)))
  }

  function ClonePhis(p: Plan, l: Label, phis: seq<Phi>): (r: seq<Phi>)
    ensures |r| == |phis|
  {
    seq(|phis|, k requires 0 <= k < |phis| => Phi(NewId(p.ids, phis[k].id), CloneInc(p, l, phis[k].inc)))
  }

  function CloneInstr(p: Plan, i: Instr): Instr { Instr(NewId(p.ids, i.id), i.code, CloneVs(p, i.ops)) }

  function CloneBody(p: Plan, body: seq<Instr>): (r: seq<Instr>)
    ensures |r| == |body|
  {
    seq(|body|, k requires 0 <= k < |body| => CloneInstr(p, body[k]))
  }

  // Branches out of the region all lead to the exit.
  function CloneDest(p: Plan, d: Label): Label { if d in p.region && d in p.labels then p.labels[d] else p.exit }

  function CloneDests(p: Plan, dests: seq<Label>): (r: seq<Label>)
    ensures |r| == |dests|
  {
    seq(|dests|, k requires 0 <= k < |dests| => CloneDest(p, dests[k]))
  }

  function CloneTerm(p: Plan, t: Term): Term { Term(NewId(p.ids, t.id), CloneVs(p, t.ops), CloneDests(p, t.dests)) }

  function CloneBlock(p: Plan, l: Label, b: Block): Block {
    Block(ClonePhis(p, l, b.phis), CloneBody(p, b.body), CloneTerm(p, b.term))
  }

  ghost predicate IsClone(f: Func, p: Plan, g: Func) {
    && p.header in p.region && p.labels.Keys == (set l | l in p.region)
    && (forall l <- p.region :: l in f.blocks)
    && g.entry == p.root
    && g.blocks.Keys == p.labels.Values + {p.root, p.exit}
    && g.blocks[p.root].phis == [] && g.blocks[p.root].term.ops == [] && p.header in p.labels
    && g.blocks[p.root].term.dests == [p.labels[p.header]]
    && g.blocks[p.exit].phis == [] && g.blocks[p.exit].term.dests == []
    && forall l <- p.region :: g.blocks[p.labels[l]] == CloneBlock(p, l, f.blocks[l])
  }

  // ---------- the region ----------

  ghost function RegionIds(f: Func, region: seq<Label>): set<Id> {
    set l, i | l in f.blocks && l in region && i in Insts(f.blocks[l]) :: i
  }

  // The operands of a block's instructions, phi operands included.
  function PhiUses(phis: seq<Phi>): seq<Value> {
    if phis == [] then [] else IncUses(phis[0].inc) + PhiUses(phis[1..])
  }

  function IncUses(inc: seq<Incoming>): seq<Value> { seq(|inc|, k requires 0 <= k < |inc| => inc[k].val) }

  function BodyUses(body: seq<Instr>): seq<Value> {
    if body == [] then [] else body[0].ops + BodyUses(body[1..])
  }

  function Uses(b: Block): seq<Value> { PhiUses(b.phis) + BodyUses(b.body) + b.term.ops }

  // Is v defined in the region?
  ghost predicate Defined(f: Func, region: seq<Label>, v: Value) { v.Inst? && v.id in RegionIds(f, region) }

  // The ids that get a value; a store has none.
  ghost function ValueIds(body: seq<Instr>): set<Id> { set i | i in body && !i.code.Store? :: i.id }

  // The ids of the region that are computed for sure before instruction k of block l, if
  // those in `av` are before the block: the dataflow certificate of SSA dominance.
  ghost function Available(f: Func, av: map<Label, set<Id>>, l: Label, k: nat): set<Id>
    requires l in f.blocks && l in av && k <= |f.blocks[l].body|
  {
    av[l] + Elements(PhiIds(f.blocks[l].phis)) + ValueIds(f.blocks[l].body[..k])
  }

  ghost predicate MayUse(f: Func, region: seq<Label>, v: Value, known: set<Id>) { Defined(f, region, v) ==> v.id in known }

  ghost predicate MayUseAll(f: Func, region: seq<Label>, vs: seq<Value>, known: set<Id>) {
    forall v <- vs :: MayUse(f, region, v, known)
  }

  ghost predicate StrictBlock(f: Func, region: seq<Label>, av: map<Label, set<Id>>, l: Label) {
    && l in f.blocks && l in av && av[l] <= RegionIds(f, region)
    && (forall k :: 0 <= k < |f.blocks[l].body| ==> MayUseAll(f, region, f.blocks[l].body[k].ops, Available(f, av, l, k)))
    && MayUseAll(f, region, f.blocks[l].term.ops, Available(f, av, l, |f.blocks[l].body|))
    && forall d <- f.blocks[l].term.dests :: d in region && d in f.blocks ==>
         d in av && av[d] <= Available(f, av, l, |f.blocks[l].body|)
         && forall x <- f.blocks[d].phis :: MayUse(f, region, Pick(x.inc, l), Available(f, av, l, |f.blocks[l].body|))
  }

  // Definitions in the region come before their uses in it, whichever way it is run; nothing
  // of it is known when it is entered.
  ghost predicate Strict(f: Func, region: seq<Label>, header: Label, av: map<Label, set<Id>>) {
    && header in f.blocks && header in av && av[header] == {}
    && (forall l <- region :: StrictBlock(f, region, av, l))
    && forall x <- f.blocks[header].phis, e <- x.inc :: e.from !in region ==> !Defined(f, region, e.val)
  }

  // ---------- every operand is a use ----------

  lemma {:induction false} BodyUse(body: seq<Instr>, k: nat, v: Value)
    requires k < |body| && v in body[k].ops
    ensures v in BodyUses(body)
  {
    if k > 0 { BodyUse(body[1..], k - 1, v); }
  }

  lemma {:induction false} PhiUse(phis: seq<Phi>, k: nat, v: Value)
    requires k < |phis| && v in IncUses(phis[k].inc)
    ensures v in PhiUses(phis)
  {
    if k > 0 { PhiUse(phis[1..], k - 1, v); }
  }

  lemma {:induction false} PickUse(inc: seq<Incoming>, from: Label)
    ensures Pick(inc, from) == Const(0) || Pick(inc, from) in IncUses(inc)
  {
    if inc != [] {
      PickUse(inc[1..], from);
      assert IncUses(inc) == [inc[0].val] + IncUses(inc[1..]);
    }
  }
}
