/** What the extractor relies on once a function has been split or severed: its names are
    still in order, and the new header is entered from outside at one place only. */
module SeveredShape {
  import opened Collections
  import opened Ssa
  import opened Split
  import opened Rewrite
  import opened Partition
  import opened Sever
  import SeverRuns
  import CloneRuns

  // ---------- names after a split ----------

  lemma InstsOfSplit(f: Func, bb: Label, k: nat, nb: Label, br: Id, l: Label)
    requires bb in f.blocks && k <= |f.blocks[bb].body| && Below(f, nb, br) && (l in f.blocks || l == nb)
    ensures var g := SplitBlock(f, bb, k, nb, br);
            l in g.blocks && Insts(g.blocks[l]) ==
              if l == bb then PhiIds(f.blocks[bb].phis) + BodyIds(f.blocks[bb].body[..k]) + [br]
              else if l == nb then BodyIds(f.blocks[bb].body[k..]) + [f.blocks[bb].term.id]
              else Insts(f.blocks[l])
  {
    hide Below;
    FreshLabel(f, nb, br, bb);
    var g := SplitBlock(f, bb, k, nb, br);
    assert |PhiIds(g.blocks[l].phis)| == if l == nb then 0 else |f.blocks[l].phis|;
    if l != nb { assert PhiIds(g.blocks[l].phis) == PhiIds(f.blocks[l].phis); }
  }

  // Splitting an instruction list in two, with one new instruction at the end of the first part.
  lemma PartsOf(f: Func, bb: Label, k: nat, br: Id)
    requires bb in f.blocks && k <= |f.blocks[bb].body| && Distinct(Insts(f.blocks[bb])) && br !in Insts(f.blocks[bb])
    ensures var (a, b) := (PhiIds(f.blocks[bb].phis) + BodyIds(f.blocks[bb].body[..k]) + [br],
                           BodyIds(f.blocks[bb].body[k..]) + [f.blocks[bb].term.id]);
            && Distinct(a) && Distinct(b) && (forall x <- a :: x !in b)
            && (forall x <- a :: x == br || x in Insts(f.blocks[bb])) && (forall x <- b :: x in Insts(f.blocks[bb]))
  {
    var xs := Insts(f.blocks[bb]);
    var p := |f.blocks[bb].phis| + k;
    var (a, b) := (PhiIds(f.blocks[bb].phis) + BodyIds(f.blocks[bb].body[..k]) + [br],
                   BodyIds(f.blocks[bb].body[k..]) + [f.blocks[bb].term.id]);
    assert a == xs[..p] + [br] && b == xs[p..];
    forall i, j | 0 <= i < j < |a| ensures a[i] != a[j] { assert xs[i] in xs; }
    forall i, j | 0 <= i < |a| && 0 <= j < |b| ensures a[i] != b[j] { assert b[j] == xs[p + j] && xs[p + j] in xs; }
  }

  lemma BelowInsts(f: Func, nb: Label, br: Id, l: Label)
    requires Below(f, nb, br) && l in f.blocks
    ensures forall x <- Insts(f.blocks[l]) :: x < br
  {
    CloneRuns.InstsBelow(f.blocks[l], nb, br);
  }

  lemma SplitUnique(f: Func, bb: Label, k: nat, nb: Label, br: Id)
    requires bb in f.blocks && k <= |f.blocks[bb].body| && Below(f, nb, br) && UniqueIds(f)
    ensures UniqueIds(SplitBlock(f, bb, k, nb, br))
  {
    hide Below, Insts, SplitBlock;
    FreshLabel(f, nb, br, bb);
    var g := SplitBlock(f, bb, k, nb, br);
    SplitKeys(f, bb, k, nb, br);
    BelowInsts(f, nb, br, bb);
    PartsOf(f, bb, k, br);
    forall l | l in g.blocks ensures Distinct(Insts(g.blocks[l])) { InstsOfSplit(f, bb, k, nb, br, l); }
    forall l, m, i | l in g.blocks && m in g.blocks && l != m && i in Insts(g.blocks[l]) ensures i !in Insts(g.blocks[m]) {
      InstsOfSplit(f, bb, k, nb, br, l);
      InstsOfSplit(f, bb, k, nb, br, m);
      if m in f.blocks { BelowInsts(f, nb, br, m); }
      if l in f.blocks { BelowInsts(f, nb, br, l); }
    }
  }

  lemma SplitKeys(f: Func, bb: Label, k: nat, nb: Label, br: Id)
    requires bb in f.blocks && k <= |f.blocks[bb].body|
    ensures SplitBlock(f, bb, k, nb, br).blocks.Keys == f.blocks.Keys + {nb}
    ensures SplitBlock(f, bb, k, nb, br).entry == f.entry
  {
  }

  // ---------- names after the severing ----------

  // The ids of the new phis, which stand in reverse order.
  function NewIds(br: Id, n: nat): (r: seq<Id>)
    ensures |r| == n
  {
    seq(n, k requires 0 <= k < n => br + 1 + (n - 1 - k))
  }

  lemma InstsElsewhere(f: Func, region: set<Label>, header: Label, nb: Label, br: Id, g: Func, l: Label)
    requires IsSevered(f, region, header, nb, br, g) && l in f.blocks && l != header
    ensures l in g.blocks && Insts(g.blocks[l]) == Insts(f.blocks[l])
  {
    hide IsSevered;
    ShapeCode(f, region, header, nb, br, g, l);
    ShapePhis(f, region, header, nb, br, g, l);
    assert PhiIds(g.blocks[l].phis) == PhiIds(f.blocks[l].phis);
    assert BodyIds(g.blocks[l].body) == BodyIds(f.blocks[l].body);
  }

  lemma InstsOld(f: Func, region: set<Label>, header: Label, nb: Label, br: Id, g: Func)
    requires IsSevered(f, region, header, nb, br, g)
    ensures header in f.blocks && header in g.blocks && Insts(g.blocks[header]) == PhiIds(f.blocks[header].phis) + [br]
  {
    hide IsSevered;
    SeverRuns.Labels(f, region, header, nb, br, g);
    ShapeOldHeader(f, region, header, nb, br, g);
    assert PhiIds(g.blocks[header].phis) == PhiIds(f.blocks[header].phis);
    assert BodyIds([]) == [];
  }

  lemma InstsNew(f: Func, region: set<Label>, header: Label, nb: Label, br: Id, g: Func)
    requires IsSevered(f, region, header, nb, br, g)
    ensures header in f.blocks && nb in g.blocks
    ensures Insts(g.blocks[nb]) == NewIds(br, |f.blocks[header].phis|) + (BodyIds(f.blocks[header].body) + [f.blocks[header].term.id])
  {
    hide IsSevered;
    SeverRuns.Labels(f, region, header, nb, br, g);
    ShapeCode(f, region, header, nb, br, g, header);
    var n := |f.blocks[header].phis|;
    assert PhisOf(f, header) == f.blocks[header].phis && PhisOf(g, nb) == g.blocks[nb].phis;
    NewPhiCount(f, region, header, nb, br, g);
    forall k | 0 <= k < n ensures PhiIds(g.blocks[nb].phis)[k] == NewIds(br, n)[k] {
      ShapeNewHeader(f, region, header, nb, br, g, n - 1 - k);
      assert n - 1 - (n - 1 - k) == k;
    }
    assert PhiIds(g.blocks[nb].phis) == NewIds(br, n);
    assert BodyIds(g.blocks[nb].body) == BodyIds(f.blocks[header].body);
  }

  lemma NewPhiCount(f: Func, region: set<Label>, header: Label, nb: Label, br: Id, g: Func)
    requires IsSevered(f, region, header, nb, br, g)
    ensures |PhisOf(g, nb)| == |PhisOf(f, header)| > 0
  {
    hide Severed, Below, UniqueIds, PhisComplete;
    assert PhisOf(f, header) == f.blocks[header].phis;
    ShapeNewHeader(f, region, header, nb, br, g, 0);
  }

  lemma DistinctConcat(a: seq<Id>, b: seq<Id>)
    requires Distinct(a) && Distinct(b) && forall x <- a :: x !in b
    ensures Distinct(a + b)
  {
    forall i, j | 0 <= i < j < |a + b| ensures (a + b)[i] != (a + b)[j] {
      if i < |a| <= j { assert a[i] in a && b[j - |a|] in b; }
    }
  }

  // The header's instructions are dealt out to the old and the new header.
  lemma SeveredParts(f: Func, header: Label, br: Id)
    requires header in f.blocks && Distinct(Insts(f.blocks[header])) && forall x <- Insts(f.blocks[header]) :: x < br
    ensures var h := f.blocks[header];
            var (a, b) := (PhiIds(h.phis) + [br], NewIds(br, |h.phis|) + (BodyIds(h.body) + [h.term.id]));
            && Distinct(a) && Distinct(b) && (forall x <- a :: x !in b)
            && (forall x <- a :: x >= br || x in Insts(h)) && (forall x <- b :: x >= br || x in Insts(h))
  {
    PartsOf(f, header, 0, br);
    var h := f.blocks[header];
    assert h.body[..0] == [] && BodyIds([]) == [] && h.body[0..] == h.body && PhiIds(h.phis) + [] + [br] == PhiIds(h.phis) + [br];
    assert forall x <- NewIds(br, |h.phis|) :: x > br;
    DistinctConcat(NewIds(br, |h.phis|), BodyIds(h.body) + [h.term.id]);
  }

  function Owner(m: Label, header: Label, nb: Label): Label { if m == nb then header else m }

  // Where the ids of block m come from.
  lemma SeveredOwner(f: Func, region: set<Label>, header: Label, nb: Label, br: Id, g: Func, m: Label)
    requires IsSevered(f, region, header, nb, br, g) && m in g.blocks
    ensures Owner(m, header, nb) in f.blocks && Distinct(Insts(g.blocks[m]))
    ensures forall x <- Insts(g.blocks[m]) :: x in Insts(f.blocks[Owner(m, header, nb)]) || (x >= br && (m == header || m == nb))
  {
    hide IsSevered, Insts, NewIds, UniqueIds, PhiIds, BodyIds;
    SeveredNames(f, region, header, nb, br, g);
    UniqueBlock(f, Owner(m, header, nb));
    UniqueBlock(f, header);
    SeverRuns.SeveredKeys(f, region, header, nb, br, g);
    SeveredParts(f, header, br);
    if m == header {
      InstsOld(f, region, header, nb, br, g);
    } else if m == nb {
      InstsNew(f, region, header, nb, br, g);
    } else {
      InstsElsewhere(f, region, header, nb, br, g, m);
    }
  }

  lemma UniqueBlock(f: Func, l: Label)
    requires UniqueIds(f)
    ensures l in f.blocks ==> Distinct(Insts(f.blocks[l]))
  {
  }

  lemma SeveredApart(f: Func, region: set<Label>, header: Label, nb: Label, br: Id, g: Func, l: Label, m: Label)
    requires IsSevered(f, region, header, nb, br, g) && l in g.blocks && m in g.blocks && l != m
    ensures forall x <- Insts(g.blocks[l]) :: x !in Insts(g.blocks[m])
  {
    hide IsSevered, Insts, NewIds, Distinct, PhiIds, BodyIds;
    SeveredNames(f, region, header, nb, br, g);
    if (l == header && m == nb) || (l == nb && m == header) {
      InstsOld(f, region, header, nb, br, g);
      InstsNew(f, region, header, nb, br, g);
      SeveredParts(f, header, br);
    } else {
      SeveredOwner(f, region, header, nb, br, g, l);
      SeveredOwner(f, region, header, nb, br, g, m);
      assert Owner(l, header, nb) != Owner(m, header, nb);
    }
  }

  lemma SeveredUnique(f: Func, region: set<Label>, header: Label, nb: Label, br: Id, g: Func)
    requires IsSevered(f, region, header, nb, br, g)
    ensures UniqueIds(g)
  {
    hide IsSevered, Insts, Distinct;
    forall l | l in g.blocks ensures Distinct(Insts(g.blocks[l])) { SeveredOwner(f, region, header, nb, br, g, l); }
    forall l, m | l in g.blocks && m in g.blocks && l != m
      ensures forall x <- Insts(g.blocks[l]) :: x !in Insts(g.blocks[m])
    {
      SeveredApart(f, region, header, nb, br, g, l, m);
    }
  }

  lemma SeveredNames(f: Func, region: set<Label>, header: Label, nb: Label, br: Id, g: Func)
    requires IsSevered(f, region, header, nb, br, g)
    ensures UniqueIds(f) && header in f.blocks
    ensures forall l <- f.blocks, x <- Insts(f.blocks[l]) :: x < br
  {
    hide Severed, UniqueIds, PhisComplete, Insts;
    forall l | l in f.blocks ensures forall x <- Insts(f.blocks[l]) :: x < br { BelowInsts(f, nb, br, l); }
  }

  lemma NamedBelow(f: Func, header: Label, br: Id, v: Value)
    requires header in f.blocks && ValueBelow(v, br) && Distinct(PhiIds(f.blocks[header].phis))
    ensures ValueBelow(SubstV(PhiNames(f, header, br), v), br + 1 + |f.blocks[header].phis|)
  {
    var (phis, n) := (f.blocks[header].phis, |f.blocks[header].phis|);
    RenamingAt(phis, br + 1, n);
    var s := PhiNames(f, header, br);
    if v in s {
      var j :| 0 <= j < n && v == Inst(phis[j].id);
      assert s[v] == Inst(br + 1 + j);
    }
  }

  lemma {:induction false} SortedFrom(inc: seq<Incoming>, region: set<Label>)
    ensures forall e <- Outside(inc, region) :: e in inc && e.from !in region
    ensures forall e <- Inside(inc, region) :: e in inc && e.from in region
  {
    if inc != [] { SortedFrom(inc[1..], region); }
  }

  ghost predicate IncBelow(inc: seq<Incoming>, labels: Label, ids: Id) { forall e <- inc :: e.from < labels && ValueBelow(e.val, ids) }

  lemma IncNamed(f: Func, header: Label, br: Id, nb: Label, inc: seq<Incoming>)
    requires header in f.blocks && IncBelow(inc, nb, br) && Distinct(PhiIds(f.blocks[header].phis))
    ensures IncBelow(SubstInc(PhiNames(f, header, br), inc), nb, br + 1 + |f.blocks[header].phis|)
  {
    hide PhiNames, ValueBelow;
    var inc' := SubstInc(PhiNames(f, header, br), inc);
    forall e | e in inc' ensures e.from < nb && ValueBelow(e.val, br + 1 + |f.blocks[header].phis|) {
      var k :| 0 <= k < |inc'| && inc'[k] == e;
      assert inc[k] in inc;
      NamedBelow(f, header, br, inc[k].val);
    }
  }

  lemma SplitIncBelow(f: Func, header: Label, nb: Label, br: Id, to: Label, k: nat)
    requires Below(f, nb, br) && header in f.blocks && to in f.blocks && k < |f.blocks[to].phis|
    ensures IncBelow(SplitInc(f, header, nb, to, f.blocks[to].phis[k].inc), nb + 1, br)
  {
    var inc := f.blocks[to].phis[k].inc;
    assert f.blocks[to].phis[k] in f.blocks[to].phis && PhiBelow(f.blocks[to].phis[k], nb, br);
    var inc' := SplitInc(f, header, nb, to, inc);
    forall e | e in inc' ensures e.from < nb + 1 && ValueBelow(e.val, br) {
      var j :| 0 <= j < |inc'| && inc'[j] == e;
      assert inc[j] in inc;
    }
  }

  // The pieces of a severed function, below the next names.
  lemma CodeBelow(f: Func, region: set<Label>, header: Label, nb: Label, br: Id, g: Func, l: Label)
    requires IsSevered(f, region, header, nb, br, g) && l in f.blocks
    ensures header in f.blocks
    ensures var (m, n) := (Moved(l, header, nb), |f.blocks[header].phis|);
            m in g.blocks && (forall i <- g.blocks[m].body :: InstrBelow(i, br + 1 + n)) && TermBelow(g.blocks[m].term, nb + 1, br + 1 + n)
  {
    hide IsSevered, PhiNames, ValueBelow, Insts, Below, NewDests, UniqueIds;
    SeverRuns.Labels(f, region, header, nb, br, g);
    SeveredNames(f, region, header, nb, br, g);
    UniqueBlock(f, header);
    ShapeCode(f, region, header, nb, br, g, l);
    CloneRuns.BlockIds(f.blocks[header]);
    var (m, n) := (Moved(l, header, nb), |f.blocks[header].phis|);
    var body := g.blocks[m].body;
    forall i | i in body ensures InstrBelow(i, br + 1 + n) {
      var k :| 0 <= k < |body| && body[k] == i;
      SeverRuns.BelowInstr(f, region, header, nb, br, g, l, k);
      OpsNamed(f, header, br, f.blocks[l].body[k].ops);
    }
    SeverRuns.BelowInstr(f, region, header, nb, br, g, l, 0);
    OpsNamed(f, header, br, f.blocks[l].term.ops);
    DestsBelow(f, region, header, nb, br, g, l);
  }

  lemma OpsNamed(f: Func, header: Label, br: Id, vs: seq<Value>)
    requires header in f.blocks && ValuesBelow(vs, br) && Distinct(PhiIds(f.blocks[header].phis))
    ensures ValuesBelow(SubstVs(PhiNames(f, header, br), vs), br + 1 + |f.blocks[header].phis|)
  {
    hide PhiNames, ValueBelow;
    var vs' := SubstVs(PhiNames(f, header, br), vs);
    forall v | v in vs' ensures ValueBelow(v, br + 1 + |f.blocks[header].phis|) {
      var k :| 0 <= k < |vs'| && vs'[k] == v;
      NamedBelow(f, header, br, vs[k]);
    }
  }

  lemma DestsBelow(f: Func, region: set<Label>, header: Label, nb: Label, br: Id, g: Func, l: Label)
    requires IsSevered(f, region, header, nb, br, g) && l in f.blocks
    ensures header in f.blocks && f.blocks[header].phis != [] && forall d <- NewDests(f, region, header, nb, l) :: d < nb + 1
  {
    hide Severed, Below, UniqueIds, PhisComplete, Bypassing;
    SeverRuns.SeveredKeys(f, region, header, nb, br, g);
    var (ds, es) := (f.blocks[l].term.dests, NewDests(f, region, header, nb, l));
    forall d | d in es ensures d < nb + 1 {
      var k :| 0 <= k < |es| && es[k] == d;
      assert ds[k] in ds;
    }
  }

  lemma PhisBelow(f: Func, region: set<Label>, header: Label, nb: Label, br: Id, g: Func, m: Label)
    requires IsSevered(f, region, header, nb, br, g) && m in g.blocks
    ensures header in f.blocks && forall x <- PhisOf(g, m) :: PhiBelow(x, nb + 1, br + 1 + |f.blocks[header].phis|)
  {
    hide IsSevered, Insts, SplitInc, ValueBelow;
    SeverRuns.Labels(f, region, header, nb, br, g);
    SeveredNames(f, region, header, nb, br, g);
    SeveredOwner(f, region, header, nb, br, g, m);
    NewPhiCount(f, region, header, nb, br, g);
    var n := |f.blocks[header].phis|;
    assert n == |PhisOf(f, header)|;
    forall x | x in PhisOf(g, m) ensures PhiBelow(x, nb + 1, br + 1 + n) {
      var k :| 0 <= k < |PhisOf(g, m)| && PhisOf(g, m)[k] == x;
      if m == nb {
        NewPhiBelow(f, region, header, nb, br, g, n - 1 - k);
        assert n - 1 - (n - 1 - k) == k;
      } else {
        OtherPhiBelow(f, region, header, nb, br, g, m, k);
      }
    }
  }

  lemma IdOfPhi(f: Func, region: set<Label>, header: Label, nb: Label, br: Id, g: Func, l: Label, k: nat)
    requires IsSevered(f, region, header, nb, br, g) && l in f.blocks && k < |f.blocks[l].phis|
    ensures f.blocks[l].phis[k].id < br && Below(f, nb, br) && header in f.blocks && Distinct(PhiIds(f.blocks[header].phis))
  {
    hide Severed, UniqueIds, Insts;
    SeveredNames(f, region, header, nb, br, g);
    UniqueBlock(f, header);
    CloneRuns.BlockIds(f.blocks[l]);
    CloneRuns.BlockIds(f.blocks[header]);
    assert PhiIds(f.blocks[l].phis)[k] in PhiIds(f.blocks[l].phis);
  }

  lemma OtherPhiBelow(f: Func, region: set<Label>, header: Label, nb: Label, br: Id, g: Func, m: Label, k: nat)
    requires IsSevered(f, region, header, nb, br, g) && m in f.blocks && k < |PhisOf(g, m)|
    ensures header in f.blocks && PhiBelow(PhisOf(g, m)[k], nb + 1, br + 1 + |f.blocks[header].phis|)
  {
    hide IsSevered, ValueBelow, SplitInc, PhiNames, Outside, Below;
    SeverRuns.Labels(f, region, header, nb, br, g);
    if m == header {
      ShapeOldHeader(f, region, header, nb, br, g);
      IdOfPhi(f, region, header, nb, br, g, header, k);
      SplitIncBelow(f, header, nb, br, header, k);
      SortedFrom(SplitPhi(f, header, nb, k).inc, NewRegion(region, header, nb));
      IncNamed(f, header, br, nb + 1, Outside(SplitPhi(f, header, nb, k).inc, NewRegion(region, header, nb)));
    } else {
      ShapePhis(f, region, header, nb, br, g, m);
      IdOfPhi(f, region, header, nb, br, g, m, k);
      SplitIncBelow(f, header, nb, br, m, k);
      IncNamed(f, header, br, nb + 1, SplitInc(f, header, nb, m, PhisOf(f, m)[k].inc));
    }
  }

  lemma NewPhiBelow(f: Func, region: set<Label>, header: Label, nb: Label, br: Id, g: Func, j: nat)
    requires IsSevered(f, region, header, nb, br, g) && j < |PhisOf(f, header)|
    ensures header in f.blocks && |PhisOf(g, nb)| == |PhisOf(f, header)|
    ensures PhiBelow(PhisOf(g, nb)[|PhisOf(f, header)| - 1 - j], nb + 1, br + 1 + |f.blocks[header].phis|)
  {
    hide IsSevered, SplitInc, PhiNames, Inside, Below;
    SeverRuns.Labels(f, region, header, nb, br, g);
    ShapeNewHeader(f, region, header, nb, br, g, j);
    IdOfPhi(f, region, header, nb, br, g, header, j);
    SplitIncBelow(f, header, nb, br, header, j);
    var inc := Inside(SplitPhi(f, header, nb, j).inc, NewRegion(region, header, nb));
    SortedFrom(SplitPhi(f, header, nb, j).inc, NewRegion(region, header, nb));
    IncNamed(f, header, br, nb + 1, inc);
    NewPhiParts(f, header, nb, br, j, NewRegion(region, header, nb));
  }

  lemma NewPhiParts(f: Func, header: Label, nb: Label, br: Id, j: nat, region: set<Label>)
    requires header in f.blocks && header < nb && j < |PhisOf(f, header)| && PhisOf(f, header)[j].id < br
    requires IncBelow(SubstInc(PhiNames(f, header, br), Inside(SplitPhi(f, header, nb, j).inc, region)), nb + 1, br + 1 + |f.blocks[header].phis|)
    ensures PhiBelow(NewPhi(SplitPhi(f, header, nb, j), PhiNames(f, header, br), region, br + 1 + j, header), nb + 1, br + 1 + |f.blocks[header].phis|)
  {
    hide PhiNames, Inside, SplitInc;
  }

  lemma SeveredBelow(f: Func, region: set<Label>, header: Label, nb: Label, br: Id, g: Func)
    requires IsSevered(f, region, header, nb, br, g)
    ensures header in f.blocks && Below(g, nb + 1, br + 1 + |f.blocks[header].phis|)
  {
    hide IsSevered, PhiBelow, InstrBelow, TermBelow;
    SeverRuns.Labels(f, region, header, nb, br, g);
    SeverRuns.SeveredKeys(f, region, header, nb, br, g);
    BelowLabels(f, region, header, nb, br, g);
    var n := |f.blocks[header].phis|;
    forall m | m in g.blocks ensures m < nb + 1 && BlockBelow(g.blocks[m], nb + 1, br + 1 + n) {
      PhisBelow(f, region, header, nb, br, g, m);
      assert PhisOf(g, m) == g.blocks[m].phis;
      if m == header {
        ShapeOldHeader(f, region, header, nb, br, g);
        BridgeBelow(nb, br, n);
      } else {
        CodeBelow(f, region, header, nb, br, g, Owner(m, header, nb));
      }
    }
  }

  lemma BridgeBelow(nb: Label, br: Id, n: nat)
    ensures TermBelow(Term(br, [], [nb]), nb + 1, br + 1 + n)
  {
  }

  lemma BelowLabels(f: Func, region: set<Label>, header: Label, nb: Label, br: Id, g: Func)
    requires IsSevered(f, region, header, nb, br, g)
    ensures f.entry < nb && forall l <- f.blocks :: l < nb
  {
    hide Severed, UniqueIds, PhisComplete, BlockBelow;
  }

  // ---------- the two headers ----------

  // The new header is entered from outside the region by way of the old one only, and the
  // region itself no longer branches to the old one.
  lemma EntryOfSevered(f: Func, region: set<Label>, header: Label, nb: Label, br: Id, g: Func, m: Label)
    requires IsSevered(f, region, header, nb, br, g) && m in g.blocks
    ensures m !in NewRegion(region, header, nb) && nb in g.blocks[m].term.dests ==> m == header
    ensures m in NewRegion(region, header, nb) ==> header !in g.blocks[m].term.dests
    ensures header in g.blocks && g.blocks[header].term.dests == [nb]
  {
    hide IsSevered, NewDests, Bypassing;
    SeverRuns.Labels(f, region, header, nb, br, g);
    SeverRuns.SeveredKeys(f, region, header, nb, br, g);
    ShapeOldHeader(f, region, header, nb, br, g);
    if m != header {
      var l := Owner(m, header, nb);
      ShapeCode(f, region, header, nb, br, g, l);
      assert Moved(l, header, nb) == m;
      if l !in region {
        SeverRuns.NotInFroms(f, region, header, nb, br, g, l);
      } else if header in f.blocks[l].term.dests {
        SeverRuns.InFroms(f, region, header, nb, br, g, l);
      }
      DestsOf(f, region, header, nb, l);
    }
  }

  lemma DestsOf(f: Func, region: set<Label>, header: Label, nb: Label, l: Label)
    requires header in f.blocks && f.blocks[header].phis != [] && l in f.blocks && header != nb
    ensures NewDests(f, region, header, nb, l) ==
            if Moved(l, header, nb) in Bypassing(f, region, header, nb) then ReplaceDest(f.blocks[l].term.dests, header, nb)
            else f.blocks[l].term.dests
  {
  }

  // Severing is idempotent: each new phi has one entry from outside, so there is nothing left
  // to sever.
  lemma SeveredOnce(f: Func, region: set<Label>, header: Label, nb: Label, br: Id, g: Func, j: nat)
    requires IsSevered(f, region, header, nb, br, g) && j < |PhisOf(g, nb)|
    ensures |Outside(PhisOf(g, nb)[j].inc, NewRegion(region, header, nb))| == 1
  {
    hide IsSevered, SplitInc, PhiNames;
    NewPhiCount(f, region, header, nb, br, g);
    var i := |PhisOf(f, header)| - 1 - j;
    ShapeNewHeader(f, region, header, nb, br, g, i);
    assert |PhisOf(f, header)| - 1 - i == j;
    SeverRuns.Labels(f, region, header, nb, br, g);
    OneOutside(SplitPhi(f, header, nb, i), PhiNames(f, header, br), NewRegion(region, header, nb), br + 1 + i, header);
  }

  lemma {:induction false} AllInside(inc: seq<Incoming>, region: set<Label>)
    requires forall e <- inc :: e.from in region
    ensures Outside(inc, region) == []
  {
    if inc != [] { AllInside(inc[1..], region); }
  }

  lemma OneOutside(p: Phi, s: Subst, region: set<Label>, id: Id, header: Label)
    requires header !in region
    ensures |Outside(NewPhi(p, s, region, id, header).inc, region)| == 1
  {
    var tail := SubstInc(s, Inside(p.inc, region));
    SortedFrom(p.inc, region);
    forall e | e in tail ensures e.from in region {
      var k :| 0 <= k < |tail| && tail[k] == e;
      assert Inside(p.inc, region)[k] in Inside(p.inc, region);
    }
    AllInside(tail, region);
    var inc := NewPhi(p, s, region, id, header).inc;
    assert inc[1..] == tail;
  }
}
