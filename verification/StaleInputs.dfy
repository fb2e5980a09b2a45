/** The inputs are computed before the header is severed and the returns are moved.  When that
    makes no difference, and when the new function is then left with names of the old one. */
module StaleInputs {
  import opened Collections
  import opened Ssa
  import opened Split
  import opened Partition
  import opened Sever
  import opened SeveredShape
  import SeverRuns
  import opened Clone
  import opened CloneRuns
  import opened CloneCall
  import opened CloneStages
  import opened InputsOutputs
  import opened InputOutputMap
  import opened ArgUtils
  import opened ExtractorRegion
  import opened CodeExtractors
  import opened Extraction
  import opened Closure

  // ---------- the condition, on the function as it is given ----------

  // Of a verified function: phis have entries for predecessors only, and terminators no value.
  ghost predicate Verified(f: Func) {
    && (forall l <- f.blocks, x <- f.blocks[l].phis, e <- x.inc :: e.from in f.blocks && l in f.blocks[e.from].term.dests)
    && forall l <- f.blocks, m <- f.blocks :: Inst(f.blocks[l].term.id) !in Uses(f.blocks[m])
  }

  // The operands of a block that stay in the region: not those of a return, nor, when they stay
  // behind, those of its phis.
  function KeptUses(b: Block, drop: bool): seq<Value> {
    (if drop then [] else PhiUses(b.phis)) + BodyUses(b.body) + if b.term.dests == [] then [] else b.term.ops
  }

  ghost predicate UsedWithin(f: Func, blocks: seq<Label>, header: Label, drop: bool, v: Value) {
    exists l <- blocks :: l in f.blocks && v in KeptUses(f.blocks[l], drop && l == header)
  }

  // The outputs that the exit stores.
  function Stored(inputs: seq<Value>, outputs: seq<Value>, io: map<Value, nat>, oi: map<Value, Value>, pointers: set<Value>): set<Value> {
    set v | v in ScalarSet(inputs, outputs, io, oi, pointers) :: OutFor(io, outputs, v)
  }

  // No phi but the header's takes a value from outside the region, and if the header has to be
  // severed, then no branch leads back to it and none of its phis is used in the rest of the
  // region or stored.
  ghost predicate Closeable(f: Func, blocks: seq<Label>, header: Label, stored: set<Value>) {
    && PhisWithin(f, blocks, header)
    && (NeedsSevering(f, blocks, header) ==>
          NoEdgeBack(f, blocks, header)
          && forall x <- PhisOf(f, header) :: Inst(x.id) !in stored && !UsedWithin(f, blocks, header, true, Inst(x.id)))
  }

  // ---------- what stays the same ----------

  // Block c is block b, but for a return that moved away and phis that stayed behind.
  ghost predicate BlockKept(b: Block, c: Block, drop: bool, ni: Id) {
    && c.body == b.body && PhiIds(c.phis) == (if drop then [] else PhiIds(b.phis))
    && PhiUses(c.phis) == (if drop then [] else PhiUses(b.phis))
    && c.term.ops == (if b.term.dests == [] then [] else b.term.ops) && (c.term.id == b.term.id || c.term.id >= ni)
  }

  // The region of g is the given blocks of f, with nb in the place of the header.
  ghost predicate RegionKept(f: Func, blocks: seq<Label>, header: Label, nb: Label, drop: bool, g: Func, region: seq<Label>, ni: Id) {
    && (forall l <- blocks :: l in f.blocks && Moved(l, header, nb) in region && Moved(l, header, nb) in g.blocks
                              && BlockKept(f.blocks[l], g.blocks[Moved(l, header, nb)], drop && l == header, ni))
    && forall l <- region :: Owner(l, header, nb) in blocks && Moved(Owner(l, header, nb), header, nb) == l
  }

  lemma UsesKept(b: Block, c: Block, drop: bool, ni: Id)
    requires BlockKept(b, c, drop, ni)
    ensures Uses(c) == KeptUses(b, drop)
  {
  }

  lemma RegionUsesKept(f: Func, blocks: seq<Label>, header: Label, nb: Label, drop: bool, g: Func, region: seq<Label>, ni: Id, v: Value)
    requires RegionKept(f, blocks, header, nb, drop, g, region, ni)
    ensures (exists l <- region :: l in g.blocks && v in Uses(g.blocks[l])) <==> UsedWithin(f, blocks, header, drop, v)
  {
    hide Uses, KeptUses, BlockKept;
    if l :| l in region && l in g.blocks && v in Uses(g.blocks[l]) {
      var o := Owner(l, header, nb);
      UsesKept(f.blocks[o], g.blocks[l], drop && o == header, ni);
    }
    if UsedWithin(f, blocks, header, drop, v) {
      var l :| l in blocks && l in f.blocks && v in KeptUses(f.blocks[l], drop && l == header);
      UsesKept(f.blocks[l], g.blocks[Moved(l, header, nb)], drop && l == header, ni);
    }
  }

  lemma KeptUseIsUse(b: Block, drop: bool, v: Value)
    requires v in KeptUses(b, drop)
    ensures v in Uses(b)
  {
  }

  lemma PhiNotBody(b: Block)
    requires Distinct(Insts(b))
    ensures forall x <- PhiIds(b.phis) :: x !in BodyIds(b.body)
  {
    var xs := Insts(b);
    forall i, j | 0 <= i < |b.phis| && 0 <= j < |b.body| ensures PhiIds(b.phis)[i] != BodyIds(b.body)[j] {
      assert xs[i] == PhiIds(b.phis)[i] && xs[|b.phis| + j] == BodyIds(b.body)[j];
    }
  }

  // The ids of a block that name values.
  lemma IdKept(b: Block, c: Block, drop: bool, ni: Id, x: Id)
    requires BlockKept(b, c, drop, ni) && x < ni && x != b.term.id && Distinct(Insts(b))
    ensures x in Insts(c) <==> x in Insts(b) && !(drop && x in PhiIds(b.phis))
  {
    PhiNotBody(b);
    assert Insts(c) == PhiIds(c.phis) + BodyIds(b.body) + [c.term.id];
  }

  lemma DefinedKept(f: Func, blocks: seq<Label>, header: Label, nb: Label, drop: bool, g: Func, region: seq<Label>, ni: Id, v: Value)
    requires RegionKept(f, blocks, header, nb, drop, g, region, ni) && UniqueIds(f) && header in f.blocks && header in blocks
    requires v.Inst? && v.id < ni && forall l <- f.blocks :: v.id != f.blocks[l].term.id
    ensures Defined(g, region, v) <==> Defined(f, blocks, v) && !(drop && v.id in PhiIds(f.blocks[header].phis))
  {
    hide Insts, BlockKept, PhiIds;
    BlockIds(f.blocks[header]);
    if Defined(g, region, v) {
      var l :| l in g.blocks && l in region && v.id in Insts(g.blocks[l]);
      var o := Owner(l, header, nb);
      IdKept(f.blocks[o], g.blocks[l], drop && o == header, ni, v.id);
    }
    if Defined(f, blocks, v) && !(drop && v.id in PhiIds(f.blocks[header].phis)) {
      var l :| l in f.blocks && l in blocks && v.id in Insts(f.blocks[l]);
      IdKept(f.blocks[l], g.blocks[Moved(l, header, nb)], drop && l == header, ni, v.id);
      assert Moved(l, header, nb) in region;
    }
  }

  // ---------- the exact condition, for a kept region ----------

  // A value that is used is not a terminator.
  lemma UsedIsValue(f: Func, m: Label, v: Value)
    requires Verified(f) && m in f.blocks && v in Uses(f.blocks[m])
    ensures v.Inst? ==> forall l <- f.blocks :: v.id != f.blocks[l].term.id
  {
    hide Uses;
  }

  lemma KnownUse(f: Func, nl: Label, ni: Id, blocks: seq<Label>, header: Label, nb: Label, drop: bool, g: Func, region: seq<Label>,
                 inputs: seq<Value>, outputs: seq<Value>, l: Label, v: Value)
    requires Ready(f, nl, ni, blocks) && RegionKept(f, blocks, header, nb, drop, g, region, ni) && header in blocks && header in f.blocks
    requires Current(f, blocks, inputs, outputs) && Verified(f) && l in blocks && v in Uses(f.blocks[l])
    ensures v.Const? || Defined(g, region, v) || v in inputs || (drop && v.Inst? && v.id in PhiIds(f.blocks[header].phis))
  {
    hide Uses, RegionKept, Verified, RegionIds, Below, Insts, Current;
    InputsCover(f, blocks, inputs, outputs);
    if v.Inst? && v !in inputs {
      UsedIsValue(f, l, v);
      UsesBelow(f, nl, ni, blocks, l, v);
      DefinedKept(f, blocks, header, nb, drop, g, region, ni, v);
    }
  }

  lemma PhiUnknown(f: Func, nl: Label, ni: Id, blocks: seq<Label>, header: Label, nb: Label, g: Func, region: seq<Label>,
                   inputs: seq<Value>, outputs: seq<Value>, k: nat)
    requires Ready(f, nl, ni, blocks) && RegionKept(f, blocks, header, nb, true, g, region, ni) && header in blocks && header in f.blocks
    requires Current(f, blocks, inputs, outputs) && k < |f.blocks[header].phis|
    ensures var v := Inst(f.blocks[header].phis[k].id);
            v !in inputs && ((forall l <- f.blocks :: v.id != f.blocks[l].term.id) ==> !Defined(g, region, v))
  {
    hide RegionKept, Below, Insts, UniqueIds, Defined, Current, RegionIds;
    var v := Inst(f.blocks[header].phis[k].id);
    ReadyParts(f, nl, ni, blocks, header);
    PhiDefined(f, blocks, header, k);
    InputsCover(f, blocks, inputs, outputs);
    if forall l <- f.blocks :: v.id != f.blocks[l].term.id {
      DefinedKept(f, blocks, header, nb, true, g, region, ni, v);
    }
  }

  lemma PhiDefined(f: Func, blocks: seq<Label>, header: Label, k: nat)
    requires header in blocks && header in f.blocks && k < |f.blocks[header].phis|
    ensures f.blocks[header].phis[k].id in PhiIds(f.blocks[header].phis) && f.blocks[header].phis[k].id in Insts(f.blocks[header])
    ensures Defined(f, blocks, Inst(f.blocks[header].phis[k].id))
  {
    var b := f.blocks[header];
    assert PhiIds(b.phis)[k] == b.phis[k].id && PhiIds(b.phis)[k] in PhiIds(b.phis);
    BlockIds(b);
    assert b.phis[k].id in RegionIds(f, blocks);
  }

  lemma PhiIsValue(f: Func, header: Label, k: nat)
    requires UniqueIds(f) && header in f.blocks && k < |f.blocks[header].phis|
    ensures forall l <- f.blocks :: f.blocks[header].phis[k].id != f.blocks[l].term.id
  {
    var b := f.blocks[header];
    var xs := Insts(b);
    assert xs[k] == b.phis[k].id && xs[|xs| - 1] == b.term.id;
    hide Insts;
    forall l | l in f.blocks ensures b.phis[k].id != f.blocks[l].term.id {
      BlockIds(f.blocks[l]);
    }
  }

  // What the region of g uses is known exactly when no phi left behind is used in it.
  lemma UsesKnownIff(f: Func, nl: Label, ni: Id, blocks: seq<Label>, header: Label, nb: Label, drop: bool, g: Func, p: Plan,
                     inputs: seq<Value>, outputs: seq<Value>)
    requires Ready(f, nl, ni, blocks) && RegionKept(f, blocks, header, nb, drop, g, p.region, ni) && header in blocks && header in f.blocks
    requires Current(f, blocks, inputs, outputs) && Verified(f) && (forall l <- p.region :: l in g.blocks)
    requires forall v :: v in p.inputs <==> v in inputs
    ensures UsesKnown(g, p) <==> (drop ==> forall x <- f.blocks[header].phis :: !UsedWithin(f, blocks, header, true, Inst(x.id)))
  {
    hide Uses, KeptUses, RegionKept, Verified, Defined, Below, Current, UniqueIds, Insts, UsedWithin;
    if drop {
      forall x | x in f.blocks[header].phis && UsedWithin(f, blocks, header, true, Inst(x.id)) ensures !UsesKnown(g, p) {
        var k :| 0 <= k < |f.blocks[header].phis| && f.blocks[header].phis[k] == x;
        PhiIsValue(f, header, k);
        PhiUnknown(f, nl, ni, blocks, header, nb, g, p.region, inputs, outputs, k);
        RegionUsesKept(f, blocks, header, nb, drop, g, p.region, ni, Inst(x.id));
      }
    }
    if drop ==> forall x <- f.blocks[header].phis :: !UsedWithin(f, blocks, header, true, Inst(x.id)) {
      forall l, v | l in p.region && v in Uses(g.blocks[l]) ensures v.Const? || Defined(g, p.region, v) || v in p.inputs {
        UseKnown(f, nl, ni, blocks, header, nb, drop, g, p.region, inputs, outputs, l, v);
      }
    }
  }

  lemma UseKnown(f: Func, nl: Label, ni: Id, blocks: seq<Label>, header: Label, nb: Label, drop: bool, g: Func, region: seq<Label>,
                 inputs: seq<Value>, outputs: seq<Value>, l: Label, v: Value)
    requires Ready(f, nl, ni, blocks) && RegionKept(f, blocks, header, nb, drop, g, region, ni) && header in blocks && header in f.blocks
    requires Current(f, blocks, inputs, outputs) && Verified(f) && l in region && l in g.blocks && v in Uses(g.blocks[l])
    requires drop ==> forall x <- f.blocks[header].phis :: !UsedWithin(f, blocks, header, true, Inst(x.id))
    ensures v.Const? || Defined(g, region, v) || v in inputs
  {
    hide Uses, KeptUses, RegionKept, Verified, Defined, Below, Current, UniqueIds, Insts;
    RegionUsesKept(f, blocks, header, nb, drop, g, region, ni, v);
    var o :| o in blocks && o in f.blocks && v in KeptUses(f.blocks[o], drop && o == header);
    KeptUseIsUse(f.blocks[o], drop && o == header, v);
    KnownUse(f, nl, ni, blocks, header, nb, drop, g, region, inputs, outputs, o, v);
    if drop {
      forall k | 0 <= k < |f.blocks[header].phis| ensures v != Inst(PhiIds(f.blocks[header].phis)[k]) {
        assert f.blocks[header].phis[k] in f.blocks[header].phis;
      }
    }
  }

  // What is stored is the region's own exactly when it is no phi left behind.
  lemma OutputsDefinedIff(f: Func, nl: Label, ni: Id, blocks: seq<Label>, header: Label, nb: Label, drop: bool, g: Func, p: Plan, i: Interface,
                          inputs: seq<Value>, outputs: seq<Value>, stored: set<Value>)
    requires Ready(f, nl, ni, blocks) && RegionKept(f, blocks, header, nb, drop, g, p.region, ni) && header in blocks && header in f.blocks
    requires Current(f, blocks, inputs, outputs) && Verified(f)
    requires (forall v <- i.scalars :: OutputOf(i, v) in stored) && (forall o <- stored :: o in outputs && exists v <- i.scalars :: OutputOf(i, v) == o)
    ensures OutputsDefined(g, p, i) <==> (drop ==> forall x <- f.blocks[header].phis :: Inst(x.id) !in stored)
    ensures forall o <- stored :: o.Inst? && ValueBelow(o, ni)
  {
    hide Uses, RegionKept, Verified, Defined, Below, UniqueIds, Insts, OutputOf;
    forall o | o in stored
      ensures o.Inst? && ValueBelow(o, ni)
      ensures Defined(g, p.region, o) <==> !(drop && o.id in PhiIds(f.blocks[header].phis))
    {
      StoredKept(f, nl, ni, blocks, header, nb, drop, g, p.region, inputs, outputs, o);
    }
    forall x | x in f.blocks[header].phis ensures x.id in PhiIds(f.blocks[header].phis) {
      var k :| 0 <= k < |f.blocks[header].phis| && f.blocks[header].phis[k] == x;
      assert PhiIds(f.blocks[header].phis)[k] == x.id;
    }
  }

  lemma StoredKept(f: Func, nl: Label, ni: Id, blocks: seq<Label>, header: Label, nb: Label, drop: bool, g: Func, region: seq<Label>,
                   inputs: seq<Value>, outputs: seq<Value>, o: Value)
    requires Ready(f, nl, ni, blocks) && RegionKept(f, blocks, header, nb, drop, g, region, ni) && header in blocks && header in f.blocks
    requires Current(f, blocks, inputs, outputs) && Verified(f) && o in outputs
    ensures o.Inst? && ValueBelow(o, ni)
    ensures Defined(g, region, o) <==> !(drop && o.id in PhiIds(f.blocks[header].phis))
  {
    hide Uses, RegionKept, Verified, Below, UniqueIds, Insts, RegionIds, OutputsOf, InputsOf;
    OutputsAre(f, blocks);
    DefinedBelow(f, nl, ni, blocks, o);
    var m :| m in f.blocks && m !in blocks && o in Uses(f.blocks[m]);
    UsedIsValue(f, m, o);
    DefinedKept(f, blocks, header, nb, drop, g, region, ni, o);
  }

  // ---------- what the extractor makes of the region ----------

  lemma MovedIsKept(b: Block, c: Block, ni: Id)
    requires c.phis == b.phis && c.body == b.body
    requires if b.term.dests == [] then c.term.ops == [] && c.term.id >= ni else c.term == b.term
    ensures BlockKept(b, c, false, ni)
  {
  }

  // A header that needs no severing: only returns move.
  lemma UnseveredIsKept(f: Func, g: Func, blocks: seq<Label>, header: Label, ni: Id)
    requires forall l <- blocks :: ReturnMoved(f, g, l, ni)
    ensures RegionKept(f, blocks, header, header, false, g, blocks, ni)
    ensures PhisWithin(g, blocks, header) <==> PhisWithin(f, blocks, header)
  {
    hide BlockKept;
    forall l | l in blocks ensures BlockKept(f.blocks[l], g.blocks[l], false, ni) { MovedIsKept(f.blocks[l], g.blocks[l], ni); }
  }

  lemma {:induction false} RenamedUses(phis: seq<Phi>, from: Label, to: Label)
    ensures PhiUses(RenamePhis(phis, from, to)) == PhiUses(phis) && PhiIds(RenamePhis(phis, from, to)) == PhiIds(phis)
  {
    if phis != [] {
      RenamedUses(phis[1..], from, to);
      var r := RenamePhis(phis, from, to);
      assert r[1..] == RenamePhis(phis[1..], from, to);
      assert IncUses(r[0].inc) == IncUses(phis[0].inc);
    }
  }

  // A header that is split off: its phis stay behind, and the others name the new block.
  lemma SplitIsKept(f: Func, nl: Label, ni: Id, blocks: seq<Label>, header: Label, g: Func, l: Label)
    requires Ready(f, nl, ni, blocks) && header in f.blocks && l in blocks
    requires ReturnMoved(SplitBlock(f, header, 0, nl, ni), g, Moved(l, header, nl), ni)
    ensures l in f.blocks && Moved(l, header, nl) in g.blocks
    ensures BlockKept(f.blocks[l], g.blocks[Moved(l, header, nl)], l == header, ni)
    ensures l != header ==>
              g.blocks[l].phis == if l in f.blocks[header].term.dests then RenamePhis(f.blocks[l].phis, header, nl) else f.blocks[l].phis
  {
    hide SplitBlock, UniqueIds, Below, PhiUses, PhiIds;
    SplitShape(f, header, nl, ni, l);
    RenamedUses(f.blocks[l].phis, header, nl);
    NoPhis();
  }

  lemma NoPhis()
    ensures PhiUses([]) == [] && PhiIds([]) == []
  {
  }

  lemma SplitRegionKept(f: Func, nl: Label, ni: Id, blocks: seq<Label>, header: Label, g: Func)
    requires Ready(f, nl, ni, blocks) && header in f.blocks && header in blocks
    requires forall l <- Remove(blocks, header) + [nl] :: ReturnMoved(SplitBlock(f, header, 0, nl, ni), g, l, ni)
    ensures RegionKept(f, blocks, header, nl, true, g, Remove(blocks, header) + [nl], ni)
  {
    hide SplitBlock, UniqueIds, Below, BlockKept, ReturnMoved;
    NewBlocks(f, nl, ni, blocks, header);
    var region := Remove(blocks, header) + [nl];
    forall l | l in blocks
      ensures l in f.blocks && Moved(l, header, nl) in region && Moved(l, header, nl) in g.blocks
              && BlockKept(f.blocks[l], g.blocks[Moved(l, header, nl)], l == header, ni)
    {
      assert Moved(l, header, nl) in region;
      SplitIsKept(f, nl, ni, blocks, header, g, l);
    }
    forall l | l in region ensures Owner(l, header, nl) in blocks && Moved(Owner(l, header, nl), header, nl) == l {
      ReadyParts(f, nl, ni, blocks, l);
    }
  }

  // Entries of phis before and after the split lie in the region or not alike.
  lemma EntriesAlike(f: Func, nl: Label, ni: Id, blocks: seq<Label>, header: Label, g: Func, l: Label)
    requires Ready(f, nl, ni, blocks) && header in f.blocks && header in blocks && Verified(f) && l in blocks && l != header
    requires ReturnMoved(SplitBlock(f, header, 0, nl, ni), g, l, ni)
    ensures l in f.blocks && l in g.blocks
    ensures (forall x <- g.blocks[l].phis, e <- x.inc :: e.from in Remove(blocks, header) + [nl])
            <==> (forall x <- f.blocks[l].phis, e <- x.inc :: e.from in blocks)
  {
    hide SplitBlock, UniqueIds, Below, BlockKept, ReturnMoved, Uses;
    SplitIsKept(f, nl, ni, blocks, header, g, l);
    NewBlocks(f, nl, ni, blocks, header);
    var (ps, qs, region) := (f.blocks[l].phis, g.blocks[l].phis, Remove(blocks, header) + [nl]);
    assert |qs| == |ps|;
    forall k, j | 0 <= k < |ps| && 0 <= j < |ps[k].inc|
      ensures |qs[k].inc| == |ps[k].inc| && (qs[k].inc[j].from in region <==> ps[k].inc[j].from in blocks)
    {
      assert ps[k] in ps && ps[k].inc[j] in ps[k].inc;
      assert ps[k].inc[j].from in f.blocks && l in f.blocks[ps[k].inc[j].from].term.dests;
    }
    EntriesByIndex(ps, qs, blocks, region);
  }

  lemma EntriesByIndex(ps: seq<Phi>, qs: seq<Phi>, a: seq<Label>, b: seq<Label>)
    requires |qs| == |ps| && forall k :: 0 <= k < |ps| ==> |qs[k].inc| == |ps[k].inc|
    requires forall k, j :: 0 <= k < |ps| && 0 <= j < |ps[k].inc| ==> (qs[k].inc[j].from in b <==> ps[k].inc[j].from in a)
    ensures (forall x <- qs, e <- x.inc :: e.from in b) <==> (forall x <- ps, e <- x.inc :: e.from in a)
  {
    if forall x <- qs, e <- x.inc :: e.from in b {
      forall x, e | x in ps && e in x.inc ensures e.from in a {
        var k :| 0 <= k < |ps| && ps[k] == x;
        var j :| 0 <= j < |x.inc| && x.inc[j] == e;
        assert qs[k] in qs && qs[k].inc[j] in qs[k].inc;
      }
    }
    if forall x <- ps, e <- x.inc :: e.from in a {
      forall x, e | x in qs && e in x.inc ensures e.from in b {
        var k :| 0 <= k < |qs| && qs[k] == x;
        var j :| 0 <= j < |x.inc| && x.inc[j] == e;
        assert ps[k] in ps && ps[k].inc[j] in ps[k].inc;
      }
    }
  }

  lemma SplitWithin(f: Func, nl: Label, ni: Id, blocks: seq<Label>, header: Label, g: Func)
    requires Ready(f, nl, ni, blocks) && header in f.blocks && header in blocks && Verified(f)
    requires forall l <- Remove(blocks, header) + [nl] :: ReturnMoved(SplitBlock(f, header, 0, nl, ni), g, l, ni)
    ensures PhisWithin(g, Remove(blocks, header) + [nl], nl) <==> PhisWithin(f, blocks, header)
  {
    hide SplitBlock, UniqueIds, Below, Verified;
    NewBlocks(f, nl, ni, blocks, header);
    var region := Remove(blocks, header) + [nl];
    forall l | l in blocks && l != header
      ensures l in f.blocks && l in g.blocks
      ensures (forall x <- g.blocks[l].phis, e <- x.inc :: e.from in region) <==> (forall x <- f.blocks[l].phis, e <- x.inc :: e.from in blocks)
    {
      assert l in region;
      EntriesAlike(f, nl, ni, blocks, header, g, l);
    }
    forall l | l in region ensures l in g.blocks && (l == nl || (l in blocks && l != header)) {}
  }

  // ---------- a severed header ----------

  // The ids of a severed region do not include those of the old header's phis.
  lemma OldPhiGone(f: Func, region: set<Label>, header: Label, nb: Label, br: Id, g: Func, k: nat, m: Label)
    requires IsSevered(f, region, header, nb, br, g) && header in f.blocks && k < |f.blocks[header].phis|
    requires m in g.blocks && m != header
    ensures f.blocks[header].phis[k].id !in Insts(g.blocks[m]) && f.blocks[header].phis[k].id < br
  {
    hide IsSevered, Insts, Distinct, NewIds;
    SeverRuns.Labels(f, region, header, nb, br, g);
    InstsOld(f, region, header, nb, br, g);
    assert PhiIds(f.blocks[header].phis)[k] == f.blocks[header].phis[k].id;
    assert f.blocks[header].phis[k].id in Insts(g.blocks[header]);
    SeveredApart(f, region, header, nb, br, g, header, m);
    IdOfPhi(f, region, header, nb, br, g, header, k);
  }

  lemma MovedDefines(f: Func, g: Func, l: Label, ni: Id, x: Id)
    requires ReturnMoved(f, g, l, ni) && x < ni && x in Insts(g.blocks[l])
    ensures x in Insts(f.blocks[l])
  {
    assert Insts(g.blocks[l]) == PhiIds(f.blocks[l].phis) + BodyIds(f.blocks[l].body) + [g.blocks[l].term.id];
  }

  // The new header still names the first phi of the old one, which is outside.
  lemma SeveredUsesOld(f: Func, blocks: seq<Label>, header: Label, nb: Label, ni: Id, severed: Func, g: Func, region: seq<Label>)
    requires IsSevered(f, Elements(blocks), header, nb, ni, severed)
    requires region == Remove(blocks, header) + [nb] && forall l <- region :: ReturnMoved(severed, g, l, ni)
    ensures header in f.blocks && f.blocks[header].phis != [] && nb in g.blocks && nb in region
    ensures var v := Inst(f.blocks[header].phis[0].id); v in Uses(g.blocks[nb]) && !Defined(g, region, v)
  {
    hide IsSevered, Insts, PhiNames, SplitInc, Inside;
    SeverRuns.Labels(f, Elements(blocks), header, nb, ni, severed);
    NewPhiCount(f, Elements(blocks), header, nb, ni, severed);
    var n := |PhisOf(f, header)|;
    assert PhisOf(f, header) == f.blocks[header].phis;
    ShapeNewHeader(f, Elements(blocks), header, nb, ni, severed, 0);
    assert nb in region && n - 1 - 0 == n - 1;
    var phis := g.blocks[nb].phis;
    assert phis == PhisOf(severed, nb);
    assert phis[n - 1].inc[0] == Incoming(header, Inst(f.blocks[header].phis[0].id));
    PhiUsesHas(phis, n - 1, 0);
    NotDefinedAfter(f, blocks, header, nb, ni, severed, g, region);
  }

  lemma NotDefinedAfter(f: Func, blocks: seq<Label>, header: Label, nb: Label, ni: Id, severed: Func, g: Func, region: seq<Label>)
    requires IsSevered(f, Elements(blocks), header, nb, ni, severed) && header in f.blocks && f.blocks[header].phis != [] && header != nb
    requires region == Remove(blocks, header) + [nb] && forall l <- region :: ReturnMoved(severed, g, l, ni)
    ensures !Defined(g, region, Inst(f.blocks[header].phis[0].id))
  {
    hide IsSevered, Insts;
    var x := f.blocks[header].phis[0].id;
    forall l | l in g.blocks && l in region ensures x !in Insts(g.blocks[l]) {
      OldPhiGone(f, Elements(blocks), header, nb, ni, severed, 0, l);
      if x in Insts(g.blocks[l]) { MovedDefines(severed, g, l, ni, x); }
    }
  }

  // ---------- prepared, then cloned ----------

  // What is known when the extractor has prepared for one region of f and cloned it as it then was.
  ghost predicate PreparedThenCloned(f: Func, nl: Label, ni: Id, blocks: seq<Label>, severed: Func, g: Func, m: Made,
                                     inputs: seq<Value>, outputs: seq<Value>, io: map<Value, nat>, oi: map<Value, Value>, pointers: set<Value>)
  {
    && Ready(f, nl, ni, blocks) && blocks != [] && GoodHeader(f, blocks, blocks[0]) && Current(f, blocks, inputs, outputs)
    && Reshaped(f, nl, ni, blocks, severed, m.f, m.p.region, m.p.header) && IsMade(g, m) && m.ni >= ni
    && m.i == InterfaceOf(inputs, outputs, io, oi, m.allocas, pointers, m.i.params, m.i.firstLoad, m.i.firstStore)
    && (forall v <- m.allocas :: v in inputs)
    && forall v <- inputs :: Bidirectional(oi, v) ==> v in io && io[v] < |outputs|
  }

  lemma StoredAre(inputs: seq<Value>, outputs: seq<Value>, io: map<Value, nat>, oi: map<Value, Value>, allocas: seq<Value>,
                  pointers: set<Value>, i: Interface)
    requires i == InterfaceOf(inputs, outputs, io, oi, allocas, pointers, i.params, i.firstLoad, i.firstStore) && Distinct(inputs)
    requires forall v <- inputs :: Bidirectional(oi, v) ==> v in io && io[v] < |outputs|
    ensures forall v <- i.scalars :: OutputOf(i, v) in Stored(inputs, outputs, io, oi, pointers)
    ensures forall o <- Stored(inputs, outputs, io, oi, pointers) :: o in outputs && exists v <- i.scalars :: OutputOf(i, v) == o
  {
    hide Bidirectional, Keeping, Distinct;
    KeepingHas(inputs, ScalarSet(inputs, outputs, io, oi, pointers));
  }

  // The new function is closed exactly when it could be seen beforehand to be closeable.
  lemma ClosedIffCloseable(f: Func, nl: Label, ni: Id, blocks: seq<Label>, severed: Func, g: Func, m: Made, inputs: seq<Value>,
                           outputs: seq<Value>, io: map<Value, nat>, oi: map<Value, Value>, pointers: set<Value>)
    requires Verified(f) && PreparedThenCloned(f, nl, ni, blocks, severed, g, m, inputs, outputs, io, oi, pointers)
    ensures Closed(g) <==> Closeable(f, blocks, blocks[0], Stored(inputs, outputs, io, oi, pointers))
  {
    hide Verified, Closed, Ready, GoodHeader, Current, ReturnMoved, Built, InterfaceOf, Bidirectional, PhisWithin, UsesKnown, OutputsDefined, Stored,
         NeedsSevering, NoEdgeBack, SeveredAs, Remove, UsedWithin, OutputOf, ValueBelow;
    var (header, stored) := (blocks[0], Stored(inputs, outputs, io, oi, pointers));
    CurrentDistinct(f, blocks, inputs, outputs);
    StoredAre(inputs, outputs, io, oi, m.allocas, pointers, m.i);
    MadeReplaces(g, m, inputs, outputs, io, oi, pointers);
    HeaderFacts(f, nl, ni, blocks, header);
    if !NeedsSevering(f, blocks, header) {
      UnseveredIsKept(f, m.f, blocks, header, ni);
      ClosedIffKept(f, nl, ni, blocks, header, header, false, g, m, inputs, outputs, stored);
    } else if NoEdgeBack(f, blocks, header) {
      SplitOne(f, blocks, header, nl, ni, severed);
      SplitRegionKept(f, nl, ni, blocks, header, m.f);
      SplitWithin(f, nl, ni, blocks, header, m.f);
      ClosedIffKept(f, nl, ni, blocks, header, nl, true, g, m, inputs, outputs, stored);
      PhisOfIs(f, header);
    } else {
      NotClosedSevered(f, nl, ni, blocks, severed, g, m, inputs, outputs);
    }
  }

  lemma SplitOne(f: Func, blocks: seq<Label>, header: Label, nb: Label, br: Id, g: Func)
    requires SeveredAs(f, blocks, header, nb, br, g) && NoEdgeBack(f, blocks, header)
    ensures header in f.blocks && g == SplitBlock(f, header, 0, nb, br)
  {
  }

  lemma PhisOfIs(f: Func, header: Label)
    requires header in f.blocks
    ensures PhisOf(f, header) == f.blocks[header].phis
  {
  }

  lemma MadeReplaces(g: Func, m: Made, inputs: seq<Value>, outputs: seq<Value>, io: map<Value, nat>, oi: map<Value, Value>, pointers: set<Value>)
    requires IsMade(g, m) && Distinct(inputs) && forall v <- m.allocas :: v in inputs
    requires m.i == InterfaceOf(inputs, outputs, io, oi, m.allocas, pointers, m.i.params, m.i.firstLoad, m.i.firstStore)
    ensures forall v :: v in m.p.inputs <==> v in inputs
  {
    hide InterfaceOf, Distinct, FreshTargets, Stand, SlotSubst, IsClone, FreshPlan, InterfaceOk, Loads, Stores, SlotsCode, Ready;
    AllReplaced(m.i, m.s, inputs, outputs, io, oi, m.allocas, pointers, m.first, m.ni);
  }

  lemma ClosedIffKept(f: Func, nl: Label, ni: Id, blocks: seq<Label>, header: Label, nb: Label, drop: bool, g: Func, m: Made,
                      inputs: seq<Value>, outputs: seq<Value>, stored: set<Value>)
    requires Ready(f, nl, ni, blocks) && header in blocks && header in f.blocks && Current(f, blocks, inputs, outputs) && Verified(f)
    requires IsMade(g, m) && m.ni >= ni && RegionKept(f, blocks, header, nb, drop, m.f, m.p.region, ni)
    requires forall v :: v in m.p.inputs <==> v in inputs
    requires (forall v <- m.i.scalars :: OutputOf(m.i, v) in stored)
    requires (forall o <- stored :: o in outputs && exists v <- m.i.scalars :: OutputOf(m.i, v) == o)
    ensures Closed(g) <==>
              && PhisWithin(m.f, m.p.region, m.p.header)
              && (drop ==> forall x <- f.blocks[header].phis :: !UsedWithin(f, blocks, header, true, Inst(x.id)))
              && (drop ==> forall x <- f.blocks[header].phis :: Inst(x.id) !in stored)
  {
    hide Ready, Current, Verified, Built, RegionKept, Closed, PhisWithin, UsesKnown, OutputsDefined, UsedWithin, OutputOf;
    KnownBlocks(m.f, m.nl, m.ni, m.p.region);
    UsesKnownIff(f, nl, ni, blocks, header, nb, drop, m.f, m.p, inputs, outputs);
    OutputsDefinedIff(f, nl, ni, blocks, header, nb, drop, m.f, m.p, m.i, inputs, outputs, stored);
    ClosedIff(m.f, m.nl, m.ni, g, m.p, m.i, m.s, m.allocas, m.inits, m.first);
  }

  lemma NotClosedSevered(f: Func, nl: Label, ni: Id, blocks: seq<Label>, severed: Func, g: Func, m: Made, inputs: seq<Value>, outputs: seq<Value>)
    requires Ready(f, nl, ni, blocks) && blocks != [] && blocks[0] in f.blocks && Current(f, blocks, inputs, outputs)
    requires NeedsSevering(f, blocks, blocks[0]) && !NoEdgeBack(f, blocks, blocks[0])
    requires Reshaped(f, nl, ni, blocks, severed, m.f, m.p.region, m.p.header) && IsMade(g, m)
    requires forall v :: v in m.p.inputs <==> v in inputs
    ensures !Closed(g)
  {
    hide Ready, Current, Built, Closed, NeedsSevering, NoEdgeBack, ReturnMoved, IsSevered, Uses, Defined, Remove;
    assert IsSevered(f, Elements(blocks), blocks[0], nl, ni, severed);
    SeveredUsesOld(f, blocks, blocks[0], nl, ni, severed, m.f, m.p.region);
    PhiDefined(f, blocks, blocks[0], 0);
    InputsCover(f, blocks, inputs, outputs);
    if Closed(g) {
      ClosedKnowsUses(m.f, m.nl, m.ni, g, m.p, m.i, m.s, m.allocas, m.inits, m.first);
    }
  }
}
