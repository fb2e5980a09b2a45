/** The new function is closed: it mentions nothing of the function it was cloned from. */
module Closure {
  import opened Collections
  import opened Ssa
  import opened Split
  import opened Rewrite
  import opened Partition
  import opened Sever
  import opened Clone
  import opened CloneRuns
  import opened CloneCall
  import opened CloneStages
  import opened ExtractorRegion
  import opened CodeExtractors
  import opened Extraction

  ghost predicate DefinedIn(g: Func, i: Id) { exists l <- g.blocks :: i in Insts(g.blocks[l]) }

  ghost predicate Local(g: Func, v: Value) { v.Const? || (v.Arg? && v.arg in g.params) || (v.Inst? && DefinedIn(g, v.id)) }

  // Every operand is a constant, a parameter or something the function computes; every
  // successor and every incoming block is one of its blocks.
  ghost predicate Closed(g: Func) {
    && g.entry in g.blocks
    && (forall l <- g.blocks, v <- Uses(g.blocks[l]) :: Local(g, v))
    && (forall l <- g.blocks, x <- g.blocks[l].phis, e <- x.inc :: e.from in g.blocks)
    && forall l <- g.blocks, d <- g.blocks[l].term.dests :: d in g.blocks
  }

  // No phi of a block other than the header takes a value from outside the region.  Blocks without
  // phis may be entered from anywhere.
  ghost predicate PhisWithin(f: Func, region: seq<Label>, header: Label) {
    forall l <- region :: l in f.blocks && (l != header ==> forall x <- f.blocks[l].phis, e <- x.inc :: e.from in region)
  }

  // ---------- the operands of a clone ----------

  lemma {:induction false} PhiUsesFrom(phis: seq<Phi>, v: Value)
    ensures v in PhiUses(phis) ==> exists k :: 0 <= k < |phis| && v in IncUses(phis[k].inc)
  {
    if v in PhiUses(phis) && v !in IncUses(phis[0].inc) {
      PhiUsesFrom(phis[1..], v);
      var k :| 0 <= k < |phis[1..]| && v in IncUses(phis[1..][k].inc);
      assert phis[k + 1] == phis[1..][k];
    }
  }

  lemma {:induction false} BodyUsesFrom(body: seq<Instr>, v: Value)
    ensures v in BodyUses(body) ==> exists k :: 0 <= k < |body| && v in body[k].ops
  {
    if v in BodyUses(body) && v !in body[0].ops {
      BodyUsesFrom(body[1..], v);
      var k :| 0 <= k < |body[1..]| && v in body[1..][k].ops;
      assert body[k + 1] == body[1..][k];
    }
  }

  lemma ClonedOperand(p: Plan, vs: seq<Value>, u: Value)
    requires u in CloneVs(p, vs)
    ensures exists v <- vs :: u == CloneV(p, v)
  {
    var k :| 0 <= k < |vs| && CloneVs(p, vs)[k] == u;
    assert vs[k] in vs;
  }

  lemma CloneUses(p: Plan, l: Label, b: Block, u: Value)
    requires u in Uses(CloneBlock(p, l, b))
    ensures exists v <- Uses(b) :: u == CloneV(p, v)
  {
    hide CloneV;
    var c := CloneBlock(p, l, b);
    if u in PhiUses(c.phis) {
      PhiUsesFrom(c.phis, u);
      var k :| 0 <= k < |c.phis| && u in IncUses(c.phis[k].inc);
      var j :| 0 <= j < |IncUses(c.phis[k].inc)| && IncUses(c.phis[k].inc)[j] == u;
      var v := b.phis[k].inc[j].val;
      assert IncUses(b.phis[k].inc)[j] == v;
      PhiUse(b.phis, k, v);
    } else if u in BodyUses(c.body) {
      BodyUsesFrom(c.body, u);
      var k :| 0 <= k < |c.body| && u in c.body[k].ops;
      ClonedOperand(p, b.body[k].ops, u);
      var v :| v in b.body[k].ops && u == CloneV(p, v);
      BodyUse(b.body, k, v);
    } else {
      ClonedOperand(p, b.term.ops, u);
    }
  }

  lemma CloneInsts(p: Plan, l: Label, b: Block)
    ensures |Insts(CloneBlock(p, l, b))| == |Insts(b)|
    ensures forall k :: 0 <= k < |Insts(b)| ==> Insts(CloneBlock(p, l, b))[k] == NewId(p.ids, Insts(b)[k])
  {
  }

  // ---------- everything is local ----------

  // The facts the closure rests on, gathered.
  ghost predicate Sealed(f: Func, nl: Label, ni: Id, g: Func, p: Plan, i: Interface, s: Subst, allocas: seq<Value>,
                         inits: seq<Option<int>>, first: Id)
  {
    && Built(f, nl, ni, g, p, i, s, allocas, inits, first) && Below(f, nl, ni) && PhisWithin(f, p.region, p.header)
    && UsesKnown(f, p) && OutputsDefined(f, p, i)
  }

  // Whatever the region uses is a constant, its own or an input.
  ghost predicate UsesKnown(f: Func, p: Plan) {
    forall l <- p.region, v <- (if l in f.blocks then Uses(f.blocks[l]) else []) :: v.Const? || Defined(f, p.region, v) || v in p.inputs
  }

  // Whatever the exit stores is the region's own.
  ghost predicate OutputsDefined(f: Func, p: Plan, i: Interface) { forall v <- i.scalars :: Defined(f, p.region, OutputOf(i, v)) }

  lemma BlocksOf(f: Func, p: Plan, g: Func, nl: Label, ni: Id)
    requires IsClone(f, p, g) && FreshPlan(f, p, nl, ni)
    ensures forall l <- p.region :: l in p.labels && l in f.blocks && p.labels[l] in g.blocks && g.blocks[p.labels[l]] == CloneBlock(p, l, f.blocks[l])
    ensures forall c <- g.blocks :: c == p.root || c == p.exit || exists l <- p.region :: p.labels[l] == c
    ensures p.root in g.blocks && p.exit in g.blocks && g.entry == p.root
    ensures forall l :: l in p.labels <==> l in p.region
    ensures p.ids.Keys == RegionIds(f, p.region)
  {
    hide CloneBlock, Below, RegionIds, Injective;
    forall l | l in p.region ensures p.labels[l] in g.blocks { assert p.labels[l] in p.labels.Values; }
  }

  lemma RegionDefined(f: Func, nl: Label, ni: Id, g: Func, p: Plan, x: Id)
    requires IsClone(f, p, g) && FreshPlan(f, p, nl, ni) && x in p.ids
    ensures DefinedIn(g, p.ids[x])
  {
    hide CloneBlock, Below, Injective, IsClone, FreshPlan, Insts;
    BlocksOf(f, p, g, nl, ni);
    var l :| l in f.blocks && l in p.region && x in Insts(f.blocks[l]);
    CloneInsts(p, l, f.blocks[l]);
    var k :| 0 <= k < |Insts(f.blocks[l])| && Insts(f.blocks[l])[k] == x;
    var c := p.labels[l];
    assert Insts(g.blocks[c])[k] == p.ids[x] && Insts(g.blocks[c])[k] in Insts(g.blocks[c]);
  }

  lemma RootDefines(g: Func, l: Label, k: nat)
    requires l in g.blocks && k < |g.blocks[l].body|
    ensures DefinedIn(g, g.blocks[l].body[k].id)
  {
    hide Insts;
    BlockIds(g.blocks[l]);
  }

  lemma {:induction false} SlotHas(inits: seq<Option<int>>, first: Id, n: nat, j: nat)
    requires j < n
    ensures exists k :: 0 <= k < |SlotsCode(inits, first, n)| && SlotsCode(inits, first, n)[k].id == first + 3 * j + 2
  {
    var (a, c, all) := (SlotsCode(inits, first, n - 1), SlotCode(InitAt(inits, n - 1), first + 3 * (n - 1)), SlotsCode(inits, first, n));
    assert all == a + c;
    if j < n - 1 {
      SlotHas(inits, first, n - 1, j);
      var k :| 0 <= k < |a| && a[k].id == first + 3 * j + 2;
      assert all[k] == a[k];
    } else {
      var m := |c| - 1;
      assert c[m].id == first + 3 * j + 2;
      assert all[|a| + m] == c[m];
    }
  }

  // What a slot's code mentions: constants, and the slot.
  lemma {:induction false} SlotOperands(inits: seq<Option<int>>, first: Id, n: nat, k: nat, v: Value)
    requires k < |SlotsCode(inits, first, n)| && v in SlotsCode(inits, first, n)[k].ops
    ensures v.Const? || (v.Inst? && exists m :: 0 <= m < |SlotsCode(inits, first, n)| && SlotsCode(inits, first, n)[m].id == v.id)
  {
    var (a, c) := (SlotsCode(inits, first, n - 1), SlotCode(InitAt(inits, n - 1), first + 3 * (n - 1)));
    if k < |a| {
      SlotOperands(inits, first, n - 1, k, v);
      if v.Inst? {
        var m :| 0 <= m < |a| && a[m].id == v.id;
        assert (a + c)[m].id == v.id;
      }
    } else {
      assert c[0].id == first + 3 * (n - 1) && (a + c)[|a|] == c[0];
      assert (a + c)[k] == c[k - |a|];
    }
  }

  lemma TargetLocal(f: Func, nl: Label, ni: Id, g: Func, p: Plan, i: Interface, s: Subst, allocas: seq<Value>,
                    inits: seq<Option<int>>, first: Id, v: Value)
    requires Built(f, nl, ni, g, p, i, s, allocas, inits, first) && v in p.inputs
    ensures Local(g, p.inputs[v]) && (p.inputs[v].Inst? ==> p.inputs[v].id >= ni)
  {
    hide IsClone, FreshPlan, Stand, InterfaceOk, Loads, Stores, SlotsCode, DefinedIn, FreshTargets, SlotSubst;
    SlotSubstIs(s, allocas, first, |allocas|, ni);
    if v in s {
      TargetsAre(i, s);
      TargetFresh(s, ni, v);
      if s[v].Inst? {
        var k := s[v].id - i.firstLoad;
        LoadId(i, k);
        RootDefines(g, p.root, k);
      }
    } else {
      var j :| 0 <= j < |allocas| && p.inputs[v] == Inst(first + 3 * j + 2);
      SlotHas(inits, first, |allocas|, j);
      var k :| 0 <= k < |SlotsCode(inits, first, |allocas|)| && SlotsCode(inits, first, |allocas|)[k].id == first + 3 * j + 2;
      RootDefines(g, p.root, |Loads(i)| + k);
    }
  }

  lemma TargetFresh(s: Subst, ni: Id, v: Value)
    requires FreshTargets(s, ni) && v in s
    ensures s[v].Inst? ==> s[v].id >= ni
  {
  }

  lemma LoadId(i: Interface, k: nat)
    requires k < |i.scalars|
    ensures Loads(i)[k].id == i.firstLoad + k && Loads(i)[k].ops == [Arg(CellParam(i, i.scalars[k]))]
  {
  }

  lemma CellIsParam(i: Interface, v: Value)
    requires InterfaceOk(i) && v in i.scalars
    ensures CellParam(i, v) in i.params
  {
    assert v in i.scalars + i.pointers;
  }

  // An operand of the region, in the clone.
  lemma OperandLocal(f: Func, nl: Label, ni: Id, g: Func, p: Plan, i: Interface, s: Subst, allocas: seq<Value>,
                     inits: seq<Option<int>>, first: Id, v: Value)
    requires Sealed(f, nl, ni, g, p, i, s, allocas, inits, first) && (v.Const? || Defined(f, p.region, v) || v in p.inputs)
    ensures Local(g, CloneV(p, v))
  {
    hide IsClone, FreshPlan, Stand, InterfaceOk, Loads, Stores, SlotsCode, DefinedIn, FreshTargets, SlotSubst, PhisWithin, Below, Insts, Uses, Local,
         RegionIds;
    BlocksOf(f, p, g, nl, ni);
    KeysBelow(f, p, nl, ni);
    if v in p.inputs {
      TargetLocal(f, nl, ni, g, p, i, s, allocas, inits, first, v);
    } else if v.Inst? {
      RegionDefined(f, nl, ni, g, p, v.id);
      LocalInst(g, p.ids[v.id]);
    } else {
      LocalConst(g, v);
    }
  }

  lemma LocalInst(g: Func, x: Id)
    requires DefinedIn(g, x)
    ensures Local(g, Inst(x))
  {
  }

  lemma LocalConst(g: Func, v: Value)
    requires v.Const?
    ensures Local(g, v)
  {
  }

  lemma KeysBelow(f: Func, p: Plan, nl: Label, ni: Id)
    requires FreshPlan(f, p, nl, ni)
    ensures forall x <- p.ids :: x < ni
  {
    hide Insts, BlockBelow, Injective;
    forall x | x in p.ids ensures x < ni {
      var l :| l in f.blocks && l in p.region && x in Insts(f.blocks[l]);
      InstsBelow(f.blocks[l], nl, ni);
    }
  }

  lemma RootLocal(f: Func, nl: Label, ni: Id, g: Func, p: Plan, i: Interface, s: Subst, allocas: seq<Value>,
                  inits: seq<Option<int>>, first: Id, v: Value)
    requires Sealed(f, nl, ni, g, p, i, s, allocas, inits, first) && p.root in g.blocks && v in Uses(g.blocks[p.root])
    ensures Local(g, v)
  {
    hide FreshPlan, Stand, InterfaceOk, Loads, Stores, SlotsCode, DefinedIn, FreshTargets, SlotSubst, PhisWithin, Below, Insts, CloneBlock,
         CellParam, BodyUses;
    var b := g.blocks[p.root];
    assert PhiUses([]) == [];
    BodyUsesFrom(b.body, v);
    var k :| 0 <= k < |b.body| && v in b.body[k].ops;
    if k < |i.scalars| {
      LoadId(i, k);
      CellIsParam(i, i.scalars[k]);
    } else {
      var j := k - |i.scalars|;
      SlotOperands(inits, first, |allocas|, j, v);
      if v.Inst? {
        var m :| 0 <= m < |SlotsCode(inits, first, |allocas|)| && SlotsCode(inits, first, |allocas|)[m].id == v.id;
        RootDefines(g, p.root, |i.scalars| + m);
      }
    }
  }

  lemma ExitLocal(f: Func, nl: Label, ni: Id, g: Func, p: Plan, i: Interface, s: Subst, allocas: seq<Value>,
                  inits: seq<Option<int>>, first: Id, v: Value)
    requires Sealed(f, nl, ni, g, p, i, s, allocas, inits, first) && p.exit in g.blocks && v in BodyUses(g.blocks[p.exit].body)
    ensures Local(g, v)
  {
    hide FreshPlan, Stand, InterfaceOk, Loads, SlotsCode, DefinedIn, FreshTargets, SlotSubst, PhisWithin, Below, Insts, CloneBlock,
         CellParam, BodyUses, IsClone, OutputOf, RegionIds;
    var b := g.blocks[p.exit];
    BodyUsesFrom(b.body, v);
    var k :| 0 <= k < |b.body| && v in b.body[k].ops;
    CellIsParam(i, i.scalars[k]);
    BlocksOf(f, p, g, nl, ni);
    var o := OutputOf(i, i.scalars[k]);
    assert Defined(f, p.region, o);
    RegionDefined(f, nl, ni, g, p, o.id);
  }

  lemma ExitTerm(f: Func, p: Plan, g: Func)
    requires IsClone(f, p, g)
    ensures p.exit in g.blocks && g.blocks[p.exit].phis == [] && g.blocks[p.exit].term.dests == []
    ensures p.root in g.blocks && g.blocks[p.root].phis == [] && p.header in p.labels && g.blocks[p.root].term.dests == [p.labels[p.header]]
    ensures p.labels[p.header] in g.blocks
  {
    assert p.labels[p.header] in p.labels.Values;
  }

  lemma OperandsLocal(f: Func, nl: Label, ni: Id, g: Func, p: Plan, i: Interface, s: Subst, allocas: seq<Value>,
                      inits: seq<Option<int>>, first: Id, c: Label, v: Value)
    requires Sealed(f, nl, ni, g, p, i, s, allocas, inits, first) && c in g.blocks && v in Uses(g.blocks[c])
    ensures Local(g, v)
  {
    hide FreshPlan, Stand, InterfaceOk, Loads, Stores, SlotsCode, DefinedIn, FreshTargets, SlotSubst, PhisWithin, Below, Insts, CloneBlock,
         IsClone, Local, CloneV, Defined, PhiUses, BodyUses;
    BlocksOf(f, p, g, nl, ni);
    ExitTerm(f, p, g);
    if c == p.root {
      RootLocal(f, nl, ni, g, p, i, s, allocas, inits, first, v);
    } else if c == p.exit {
      assert PhiUses([]) == [] by { NoPhiUses(); }
      ExitLocal(f, nl, ni, g, p, i, s, allocas, inits, first, v);
    } else {
      var l :| l in p.region && p.labels[l] == c;
      CloneUses(p, l, f.blocks[l], v);
      var u :| u in Uses(f.blocks[l]) && v == CloneV(p, u);
      OperandLocal(f, nl, ni, g, p, i, s, allocas, inits, first, u);
    }
  }

  lemma NoPhiUses()
    ensures PhiUses([]) == []
  {
  }

  lemma EdgesLocal(f: Func, nl: Label, ni: Id, g: Func, p: Plan, c: Label)
    requires IsClone(f, p, g) && FreshPlan(f, p, nl, ni) && PhisWithin(f, p.region, p.header) && c in g.blocks
    ensures forall x <- g.blocks[c].phis, e <- x.inc :: e.from in g.blocks
    ensures forall d <- g.blocks[c].term.dests :: d in g.blocks
  {
    hide FreshPlan, PhisWithin, IsClone;
    BlocksOf(f, p, g, nl, ni);
    ExitTerm(f, p, g);
    if c != p.root && c != p.exit {
      var l :| l in p.region && p.labels[l] == c;
      forall x, e | x in g.blocks[c].phis && e in x.inc ensures e.from in g.blocks {
        var k :| 0 <= k < |f.blocks[l].phis| && ClonePhis(p, l, f.blocks[l].phis)[k] == x;
        FromLocal(f, p, l, k, e);
      }
    }
  }

  lemma FromLocal(f: Func, p: Plan, l: Label, k: nat, e: Incoming)
    requires PhisWithin(f, p.region, p.header) && l in p.region && l in f.blocks && k < |f.blocks[l].phis|
    requires (forall m :: m in p.labels <==> m in p.region) && e in CloneInc(p, l, f.blocks[l].phis[k].inc)
    ensures e.from == p.root || exists m <- p.region :: m in p.labels && e.from == p.labels[m]
  {
    var inc := f.blocks[l].phis[k].inc;
    var j :| 0 <= j < |inc| && CloneInc(p, l, inc)[j] == e;
    assert f.blocks[l].phis[k] in f.blocks[l].phis && inc[j] in inc;
  }

  lemma SealedIsClosed(f: Func, nl: Label, ni: Id, g: Func, p: Plan, i: Interface, s: Subst, allocas: seq<Value>,
                       inits: seq<Option<int>>, first: Id)
    requires Sealed(f, nl, ni, g, p, i, s, allocas, inits, first)
    ensures Closed(g)
  {
    hide Uses, Local, Sealed, IsClone, FreshPlan, PhisWithin;
    SealedParts(f, nl, ni, g, p, i, s, allocas, inits, first);
    BlocksOf(f, p, g, nl, ni);
    forall c, v | c in g.blocks && v in Uses(g.blocks[c]) ensures Local(g, v) {
      OperandsLocal(f, nl, ni, g, p, i, s, allocas, inits, first, c, v);
    }
    forall c | c in g.blocks
      ensures (forall x <- g.blocks[c].phis, e <- x.inc :: e.from in g.blocks) && forall d <- g.blocks[c].term.dests :: d in g.blocks
    {
      EdgesLocal(f, nl, ni, g, p, c);
    }
  }

  lemma SealedParts(f: Func, nl: Label, ni: Id, g: Func, p: Plan, i: Interface, s: Subst, allocas: seq<Value>,
                    inits: seq<Option<int>>, first: Id)
    requires Sealed(f, nl, ni, g, p, i, s, allocas, inits, first)
    ensures IsClone(f, p, g) && FreshPlan(f, p, nl, ni) && PhisWithin(f, p.region, p.header)
  {
    hide Below, IsClone, FreshPlan, PhisWithin;
  }

  // ---------- nothing else is closed ----------

  lemma {:induction false} SlotIds(inits: seq<Option<int>>, first: Id, n: nat)
    ensures forall k :: 0 <= k < |SlotsCode(inits, first, n)| ==> SlotsCode(inits, first, n)[k].id >= first
  {
    if n > 0 { SlotIds(inits, first, n - 1); }
  }

  lemma BlockDefines(b: Block, x: Id)
    requires b.phis == [] && x in Insts(b)
    ensures x == b.term.id || exists k :: 0 <= k < |b.body| && b.body[k].id == x
  {
    var k :| 0 <= k < |Insts(b)| && Insts(b)[k] == x;
    if k < |b.body| { assert b.body[k].id == x; }
  }

  // Everything the new function defines has a new name.
  lemma DefinitionsNew(f: Func, nl: Label, ni: Id, g: Func, p: Plan, i: Interface, s: Subst, allocas: seq<Value>,
                       inits: seq<Option<int>>, first: Id, x: Id)
    requires Built(f, nl, ni, g, p, i, s, allocas, inits, first) && DefinedIn(g, x)
    ensures x >= ni
  {
    hide IsClone, FreshPlan, Stand, InterfaceOk, FreshTargets, SlotSubst, Insts, SlotsCode, Loads, Stores;
    BlocksOf(f, p, g, nl, ni);
    ExitTerm(f, p, g);
    var c :| c in g.blocks && x in Insts(g.blocks[c]);
    if c == p.root || c == p.exit {
      BlockDefines(g.blocks[c], x);
      SlotIds(inits, first, |allocas|);
      if c == p.root { LoadIds(i); } else { StoreIds(i, p.ids); }
    } else {
      var l :| l in p.region && p.labels[l] == c;
      CloneDefines(f, nl, ni, g, p, l, x);
    }
  }

  lemma LoadIds(i: Interface)
    ensures forall k :: 0 <= k < |Loads(i)| ==> Loads(i)[k].id >= i.firstLoad
  {
  }

  lemma StoreIds(i: Interface, ids: map<Id, Id>)
    ensures forall k :: 0 <= k < |Stores(i, ids)| ==> Stores(i, ids)[k].id >= i.firstStore
  {
  }

  lemma CloneDefines(f: Func, nl: Label, ni: Id, g: Func, p: Plan, l: Label, x: Id)
    requires FreshPlan(f, p, nl, ni) && l in p.region && l in f.blocks && x in Insts(CloneBlock(p, l, f.blocks[l]))
    ensures x >= ni
  {
    hide Below, Insts, CloneBlock;
    CloneInsts(p, l, f.blocks[l]);
    OldNames(f, p.region, l);
    var k :| 0 <= k < |Insts(f.blocks[l])| && NewId(p.ids, Insts(f.blocks[l])[k]) == x;
    assert Insts(f.blocks[l])[k] in Insts(f.blocks[l]);
  }

  // So a value of the old function is local to the new one only when it is a constant.
  lemma OldNotLocal(f: Func, nl: Label, ni: Id, g: Func, p: Plan, i: Interface, s: Subst, allocas: seq<Value>,
                    inits: seq<Option<int>>, first: Id, v: Value)
    requires Built(f, nl, ni, g, p, i, s, allocas, inits, first) && ValueBelow(v, ni)
    ensures Local(g, v) ==> v.Const?
  {
    hide IsClone, FreshPlan, Stand, InterfaceOk, FreshTargets, SlotSubst, SlotsCode, Loads, Stores, DefinedIn;
    if v.Inst? && DefinedIn(g, v.id) {
      DefinitionsNew(f, nl, ni, g, p, i, s, allocas, inits, first, v.id);
    }
  }

  lemma {:induction false} PhiUsesHas(phis: seq<Phi>, k: nat, j: nat)
    requires k < |phis| && j < |phis[k].inc|
    ensures phis[k].inc[j].val in PhiUses(phis)
  {
    assert IncUses(phis[k].inc)[j] in IncUses(phis[k].inc);
    PhiUse(phis, k, phis[k].inc[j].val);
  }

  // Every use of the region shows in the clone.
  lemma UseCloned(p: Plan, l: Label, b: Block, v: Value)
    requires v in Uses(b)
    ensures CloneV(p, v) in Uses(CloneBlock(p, l, b))
  {
    hide CloneV;
    var c := CloneBlock(p, l, b);
    if v in PhiUses(b.phis) {
      PhiUsesFrom(b.phis, v);
      var k :| 0 <= k < |b.phis| && v in IncUses(b.phis[k].inc);
      var j :| 0 <= j < |IncUses(b.phis[k].inc)| && IncUses(b.phis[k].inc)[j] == v;
      assert c.phis[k].inc[j].val == CloneV(p, v);
      PhiUsesHas(c.phis, k, j);
    } else if v in BodyUses(b.body) {
      BodyUsesFrom(b.body, v);
      var k :| 0 <= k < |b.body| && v in b.body[k].ops;
      OperandCloned(p, b.body[k].ops, v);
      BodyUse(c.body, k, CloneV(p, v));
    } else {
      OperandCloned(p, b.term.ops, v);
    }
  }

  lemma OperandCloned(p: Plan, vs: seq<Value>, v: Value)
    requires v in vs
    ensures CloneV(p, v) in CloneVs(p, vs)
  {
    var k :| 0 <= k < |vs| && vs[k] == v;
    assert CloneVs(p, vs)[k] == CloneV(p, v);
  }

  lemma StrangerStays(f: Func, p: Plan, v: Value)
    requires p.ids.Keys == RegionIds(f, p.region) && !Defined(f, p.region, v) && v !in p.inputs
    ensures CloneV(p, v) == v
  {
    hide RegionIds;
  }

  lemma ClosedKnowsUses(f: Func, nl: Label, ni: Id, g: Func, p: Plan, i: Interface, s: Subst, allocas: seq<Value>,
                        inits: seq<Option<int>>, first: Id)
    requires Ready(f, nl, ni, p.region) && Built(f, nl, ni, g, p, i, s, allocas, inits, first) && Closed(g)
    ensures UsesKnown(f, p)
  {
    hide Ready, IsClone, FreshPlan, Stand, InterfaceOk, FreshTargets, SlotSubst, SlotsCode, Loads, Stores, Uses, Local, CloneBlock, Defined;
    BlocksOf(f, p, g, nl, ni);
    forall l, v | l in p.region && l in f.blocks && v in Uses(f.blocks[l]) && !Defined(f, p.region, v) && v !in p.inputs ensures v.Const? {
      UseCloned(p, l, f.blocks[l], v);
      StrangerStays(f, p, v);
      UsesBelow(f, nl, ni, p.region, l, v);
      OldNotLocal(f, nl, ni, g, p, i, s, allocas, inits, first, v);
    }
  }

  lemma ClosedDefinesOutputs(f: Func, nl: Label, ni: Id, g: Func, p: Plan, i: Interface, s: Subst, allocas: seq<Value>,
                             inits: seq<Option<int>>, first: Id)
    requires Built(f, nl, ni, g, p, i, s, allocas, inits, first) && Closed(g)
    requires forall v <- i.scalars :: OutputOf(i, v).Inst? && ValueBelow(OutputOf(i, v), ni)
    ensures OutputsDefined(f, p, i)
  {
    hide IsClone, FreshPlan, Stand, InterfaceOk, FreshTargets, SlotSubst, SlotsCode, Loads, Stores, Local, CloneBlock, RegionIds, OutputOf;
    BlocksOf(f, p, g, nl, ni);
    forall v | v in i.scalars ensures Defined(f, p.region, OutputOf(i, v)) {
      var o := OutputOf(i, v);
      StoredUse(i, p.ids, v);
      var k :| 0 <= k < |Stores(i, p.ids)| && RemapV(p.ids, o) in Stores(i, p.ids)[k].ops;
      BodyUse(Stores(i, p.ids), k, RemapV(p.ids, o));
      if !Defined(f, p.region, o) {
        OldNotLocal(f, nl, ni, g, p, i, s, allocas, inits, first, o);
      }
    }
  }

  lemma StoredUse(i: Interface, ids: map<Id, Id>, v: Value)
    requires v in i.scalars
    ensures exists k :: 0 <= k < |Stores(i, ids)| && RemapV(ids, OutputOf(i, v)) in Stores(i, ids)[k].ops
  {
    var k :| 0 <= k < |i.scalars| && i.scalars[k] == v;
    assert Stores(i, ids)[k].ops[1] == RemapV(ids, OutputOf(i, v));
  }

  lemma ClosedIsWithin(f: Func, nl: Label, ni: Id, g: Func, p: Plan)
    requires IsClone(f, p, g) && FreshPlan(f, p, nl, ni) && Ready(f, nl, ni, p.region) && Closed(g)
    ensures PhisWithin(f, p.region, p.header)
  {
    hide Ready, IsClone, FreshPlan, Uses, ClonePhis, Local;
    BlocksOf(f, p, g, nl, ni);
    FromsBelow(f, nl, ni, p.region);
    LabelsNew(f, p, g, nl, ni);
    forall l, x, e | l in p.region && l != p.header && x in f.blocks[l].phis && e in x.inc ensures e.from in p.region {
      var k :| 0 <= k < |f.blocks[l].phis| && f.blocks[l].phis[k] == x;
      FromCloned(p, l, f.blocks[l].phis, k, e);
      assert g.blocks[p.labels[l]].phis == ClonePhis(p, l, f.blocks[l].phis);
    }
  }

  // An entry from outside shows in the clone of a block that is not the header.
  lemma FromCloned(p: Plan, l: Label, phis: seq<Phi>, k: nat, e: Incoming)
    requires k < |phis| && e in phis[k].inc && l != p.header
    ensures e.from !in p.labels ==> exists y <- ClonePhis(p, l, phis), d <- y.inc :: d.from == e.from
  {
    hide CloneV;
    var j :| 0 <= j < |phis[k].inc| && phis[k].inc[j] == e;
    var y := ClonePhis(p, l, phis)[k];
    assert y in ClonePhis(p, l, phis) && y.inc[j] in y.inc;
  }

  lemma LabelsNew(f: Func, p: Plan, g: Func, nl: Label, ni: Id)
    requires IsClone(f, p, g) && FreshPlan(f, p, nl, ni)
    ensures forall c <- g.blocks :: c >= nl
  {
    hide Below, CloneBlock, Injective;
  }

  // The new function is closed exactly when no phi but the header's takes a value from outside
  // the region, the region uses nothing but its own, its inputs and constants, and every output
  // to be stored is its own.
  lemma ClosedIff(f: Func, nl: Label, ni: Id, g: Func, p: Plan, i: Interface, s: Subst, allocas: seq<Value>,
                  inits: seq<Option<int>>, first: Id)
    requires Ready(f, nl, ni, p.region) && Built(f, nl, ni, g, p, i, s, allocas, inits, first)
    requires forall v <- i.scalars :: OutputOf(i, v).Inst? && ValueBelow(OutputOf(i, v), ni)
    ensures Closed(g) <==> PhisWithin(f, p.region, p.header) && UsesKnown(f, p) && OutputsDefined(f, p, i)
  {
    hide IsClone, FreshPlan, Stand, InterfaceOk, FreshTargets, SlotSubst, SlotsCode, Loads, Stores, Closed, PhisWithin, UsesKnown, OutputsDefined,
         Below, UniqueIds, Distinct, OutputOf, ValueBelow;
    if Closed(g) {
      ClosedKnowsUses(f, nl, ni, g, p, i, s, allocas, inits, first);
      ClosedDefinesOutputs(f, nl, ni, g, p, i, s, allocas, inits, first);
      ClosedIsWithin(f, nl, ni, g, p);
    }
    if PhisWithin(f, p.region, p.header) && UsesKnown(f, p) && OutputsDefined(f, p, i) {
      SealedIsClosed(f, nl, ni, g, p, i, s, allocas, inits, first);
    }
  }

  // When it is built from the inputs and outputs of its region, stack slots or not, it is closed
  // exactly when no phi but the header's takes a value from outside the region.
  lemma BuiltIsClosed(f: Func, nl: Label, ni: Id, g: Func, p: Plan, i: Interface, s: Subst, allocas: seq<Value>,
                      inits: seq<Option<int>>, first: Id, inputs: seq<Value>, outputs: seq<Value>, io: map<Value, nat>,
                      oi: map<Value, Value>, pointers: set<Value>)
    requires Ready(f, nl, ni, p.region) && Built(f, nl, ni, g, p, i, s, allocas, inits, first)
    requires i == InterfaceOf(inputs, outputs, io, oi, allocas, pointers, i.params, i.firstLoad, i.firstStore)
    requires Current(f, p.region, inputs, outputs) && (forall v <- allocas :: v in inputs)
    ensures Closed(g) <==> PhisWithin(f, p.region, p.header)
  {
    hide Below, Closed, PhisWithin, Current, InterfaceOf, IsClone, FreshPlan, Uses, Defined, UniqueIds, Distinct, FreshTargets, SlotSubst, Stand,
         Loads, Stores, SlotsCode, ValueBelow;
    InputsCover(f, p.region, inputs, outputs);
    CurrentDistinct(f, p.region, inputs, outputs);
    AllReplaced(i, s, inputs, outputs, io, oi, allocas, pointers, first, ni);
    InterfaceParts(inputs, outputs, io, oi, allocas, pointers, i.params, i.firstLoad, i.firstStore);
    forall v | v in i.scalars ensures Defined(f, p.region, OutputOf(i, v)) && OutputOf(i, v).Inst? && ValueBelow(OutputOf(i, v), ni) {
      assert v in i.scalars + i.pointers;
      DefinedBelow(f, nl, ni, p.region, OutputOf(i, v));
    }
    ClosedIff(f, nl, ni, g, p, i, s, allocas, inits, first);
  }

  lemma DefinedBelow(f: Func, nl: Label, ni: Id, blocks: seq<Label>, v: Value)
    requires Ready(f, nl, ni, blocks) && Defined(f, blocks, v)
    ensures v.Inst? && ValueBelow(v, ni)
  {
    hide Below, UniqueIds, Insts;
    var l :| l in f.blocks && l in blocks && v.id in Insts(f.blocks[l]);
    ReadyParts(f, nl, ni, blocks, l);
  }
}
