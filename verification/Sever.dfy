/** Severing the phis of a region header that is entered from several places outside: what
    the function becomes, and why every run of it stays the same. */
module Sever {
  import opened Collections
  import opened Ssa
  import opened Split
  import opened Rewrite
  import opened Partition

  // ---------- the severed function ----------

  function Outside(inc: seq<Incoming>, region: set<Label>): seq<Incoming> {
    if inc == [] then []
    else (if inc[0].from in region then [] else [inc[0]]) + Outside(inc[1..], region)
  }

  function Inside(inc: seq<Incoming>, region: set<Label>): seq<Incoming> {
    if inc == [] then []
    else (if inc[0].from in region then [inc[0]] else []) + Inside(inc[1..], region)
  }

  function Froms(inc: seq<Incoming>): set<Label> { set e | e in inc :: e.from }

  function ReplaceDest(dests: seq<Label>, from: Label, to: Label): (r: seq<Label>)
    ensures |r| == |dests|
    ensures forall k :: 0 <= k < |dests| ==> r[k] == if dests[k] == from then to else dests[k]
  {
    seq(|dests|, k requires 0 <= k < |dests| => if dests[k] == from then to else dests[k])
  }

  // The terminators of the blocks in `which` branch to `to` instead of `from`.
  function Redirect(f: Func, which: set<Label>, from: Label, to: Label): Func {
    Func(f.entry, f.params,
         map l | l in f.blocks ::
           if l in which
           then f.blocks[l].(term := f.blocks[l].term.(dests := ReplaceDest(f.blocks[l].term.dests, from, to)))
           else f.blocks[l])
  }

  // The first n phis are replaced by the new ones, which are named from `first` on.
  function Renaming(phis: seq<Phi>, first: Id, n: nat): Subst
    requires n <= |phis|
  {
    if n == 0 then map[]
    else Renaming(phis, first, n - 1)[Inst(phis[n - 1].id) := Inst(first + (n - 1))]
  }

  // The old header keeps what comes from outside; the phis not reached yet keep everything.
  function OldPhis(phis: seq<Phi>, s: Subst, region: set<Label>, n: nat): (r: seq<Phi>)
    requires n <= |phis|
    ensures |r| == |phis|
  {
    seq(|phis|, j requires 0 <= j < |phis| =>
      if j < n then OldPhi(phis[j], s, region) else SubstPhi(s, phis[j]))
  }

  function OldPhi(p: Phi, s: Subst, region: set<Label>): Phi { Phi(p.id, SubstInc(s, Outside(p.inc, region))) }

  function NewPhi(p: Phi, s: Subst, region: set<Label>, id: Id, header: Label): Phi {
    Phi(id, [Incoming(header, Inst(p.id))] + SubstInc(s, Inside(p.inc, region)))
  }

  // New phis go to the front of the new header, so they stand in reverse order.
  function NewPhis(phis: seq<Phi>, s: Subst, region: set<Label>, first: Id, n: nat, header: Label): (r: seq<Phi>)
    requires n <= |phis|
    ensures |r| == n
  {
    seq(n, k requires 0 <= k < n => NewPhi(phis[n - 1 - k], s, region, first + (n - 1 - k), header))
  }

  // f after the first n phis of the old header have been dealt with.
  function Severing(f: Func, header: Label, nb: Label, region: set<Label>, first: Id, n: nat): Func
    requires header in f.blocks && nb in f.blocks && n <= |f.blocks[header].phis|
  {
    var phis := f.blocks[header].phis;
    var s := Renaming(phis, first, n);
    Func(f.entry, f.params,
         map l | l in f.blocks ::
           if l == header then Block(OldPhis(phis, s, region, n), SubstBody(s, f.blocks[l].body), SubstTerm(s, f.blocks[l].term))
           else if l == nb then Block(NewPhis(phis, s, region, first, n, header), SubstBody(s, f.blocks[l].body), SubstTerm(s, f.blocks[l].term))
           else SubstBlock(s, f.blocks[l]))
  }

  function NewRegion(region: set<Label>, header: Label, nb: Label): set<Label> { region - {header} + {nb} }

  // The split, with the branches from inside the region led past the old header.
  function Bypassed(f: Func, region: set<Label>, header: Label, nb: Label, br: Id): Func
    requires header in f.blocks && f.blocks[header].phis != [] && nb != header
  {
    var g := SplitBlock(f, header, 0, nb, br);
    Redirect(g, Froms(g.blocks[header].phis[0].inc) * NewRegion(region, header, nb), header, nb)
  }

  function Severed(f: Func, region: set<Label>, header: Label, nb: Label, br: Id): Func
    requires header in f.blocks && f.blocks[header].phis != [] && nb != header
  {
    var g := Bypassed(f, region, header, nb, br);
    assert header in g.blocks && nb in g.blocks;
    Severing(g, header, nb, NewRegion(region, header, nb), br + 1, |g.blocks[header].phis|)
  }

  // ---------- what a verified function gives ----------

  // Each id is defined at one place.
  ghost predicate UniqueIds(f: Func) {
    && (forall l <- f.blocks :: Distinct(Insts(f.blocks[l])))
    && forall l <- f.blocks, m <- f.blocks :: l != m ==>
         forall i <- Insts(f.blocks[l]) :: i !in Insts(f.blocks[m])
  }

  // The phis of block l have an entry for every predecessor.
  ghost predicate PhisComplete(f: Func, l: Label)
    requires l in f.blocks
  {
    forall p <- f.blocks[l].phis, m <- f.blocks :: l in f.blocks[m].term.dests ==> m in Froms(p.inc)
  }

  ghost predicate Severable(f: Func, region: set<Label>, header: Label, nb: Label, br: Id) {
    && Below(f, nb, br) && UniqueIds(f)
    && region <= f.blocks.Keys && header in region && f.entry in f.blocks && f.entry != header
    && f.blocks[header].phis != [] && PhisComplete(f, header)
  }

  // ---------- the shape of the severed function ----------

  lemma {:induction false} RenamingAt(phis: seq<Phi>, first: Id, n: nat)
    requires n <= |phis| && Distinct(PhiIds(phis))
    ensures forall j :: 0 <= j < n ==>
              Inst(phis[j].id) in Renaming(phis, first, n) && Renaming(phis, first, n)[Inst(phis[j].id)] == Inst(first + j)
    ensures forall v <- Renaming(phis, first, n) :: exists j :: 0 <= j < n && v == Inst(phis[j].id)
  {
    if n > 0 {
      RenamingAt(phis, first, n - 1);
      forall j | 0 <= j < n - 1 ensures phis[j].id != phis[n - 1].id {
        assert PhiIds(phis)[j] != PhiIds(phis)[n - 1];
      }
    }
  }

  lemma {:induction false} RenamingById(phis: seq<Phi>, other: seq<Phi>, first: Id, n: nat)
    requires n <= |phis| == |other| && PhiIds(phis) == PhiIds(other)
    ensures Renaming(phis, first, n) == Renaming(other, first, n)
  {
    if n > 0 {
      RenamingById(phis, other, first, n - 1);
      assert PhiIds(phis)[n - 1] == PhiIds(other)[n - 1];
    }
  }

  // Where a block's instructions are after the split.
  function Moved(l: Label, header: Label, nb: Label): Label { if l == header then nb else l }

  function SplitInc(f: Func, header: Label, nb: Label, to: Label, inc: seq<Incoming>): seq<Incoming>
    requires header in f.blocks
  {
    if to in f.blocks[header].term.dests then RenameInc(inc, header, nb) else inc
  }

  ghost function PhiNames(f: Func, header: Label, br: Id): Subst
    requires header in f.blocks
  {
    Renaming(f.blocks[header].phis, br + 1, |f.blocks[header].phis|)
  }

  ghost function Bypassing(f: Func, region: set<Label>, header: Label, nb: Label): set<Label>
    requires header in f.blocks && f.blocks[header].phis != []
  {
    Froms(SplitInc(f, header, nb, header, f.blocks[header].phis[0].inc)) * NewRegion(region, header, nb)
  }

  ghost function NewDests(f: Func, region: set<Label>, header: Label, nb: Label, l: Label): seq<Label>
    requires header in f.blocks && f.blocks[header].phis != [] && l in f.blocks
  {
    var dests := f.blocks[l].term.dests;
    if Moved(l, header, nb) in Bypassing(f, region, header, nb) then ReplaceDest(dests, header, nb) else dests
  }

  // Layer one: the split.
  lemma SplitShape(f: Func, header: Label, nb: Label, br: Id, l: Label)
    requires Below(f, nb, br) && header in f.blocks && l in f.blocks
    ensures var g := SplitBlock(f, header, 0, nb, br);
            && l in g.blocks && nb in g.blocks
            && g.blocks[l].phis == (if l in f.blocks[header].term.dests then RenamePhis(f.blocks[l].phis, header, nb) else f.blocks[l].phis)
            && g.blocks[l].body == (if l == header then [] else f.blocks[l].body)
            && g.blocks[l].term == (if l == header then Term(br, [], [nb]) else f.blocks[l].term)
            && g.blocks[nb] == Block([], f.blocks[header].body, f.blocks[header].term)
  {
    assert nb !in f.blocks[header].term.dests by {
      assert BlockBelow(f.blocks[header], nb, br);
    }
  }

  // Layer two: the branches from inside the region.
  lemma BypassedShape(f: Func, region: set<Label>, header: Label, nb: Label, br: Id, l: Label)
    requires Below(f, nb, br) && header in f.blocks && f.blocks[header].phis != [] && header != nb
    requires l in f.blocks || l == nb
    ensures var g := SplitBlock(f, header, 0, nb, br);
            var h := Bypassed(f, region, header, nb, br);
            && l in g.blocks && l in h.blocks
            && h.blocks[l].phis == g.blocks[l].phis && h.blocks[l].body == g.blocks[l].body
            && h.blocks[l].term == (if l in Bypassing(f, region, header, nb)
                                    then g.blocks[l].term.(dests := ReplaceDest(g.blocks[l].term.dests, header, nb))
                                    else g.blocks[l].term)
  {
    hide SplitBlock, Below;
    SplitShape(f, header, nb, br, header);
    if l in f.blocks { SplitShape(f, header, nb, br, l); }
  }

  lemma PhisOfOld(f: Func, region: set<Label>, header: Label, nb: Label, br: Id)
    requires Below(f, nb, br) && header in f.blocks && f.blocks[header].phis != [] && header != nb
    ensures var h := Bypassed(f, region, header, nb, br);
            var n := |f.blocks[header].phis|;
            && header in h.blocks && |h.blocks[header].phis| == n
            && Renaming(h.blocks[header].phis, br + 1, n) == PhiNames(f, header, br)
            && forall k :: 0 <= k < n ==>
                 h.blocks[header].phis[k] ==
                   Phi(f.blocks[header].phis[k].id, SplitInc(f, header, nb, header, f.blocks[header].phis[k].inc))
  {
    hide SplitBlock, Below, Renaming, Bypassed;
    SplitShape(f, header, nb, br, header);
    BypassedShape(f, region, header, nb, br, header);
    var phis := Bypassed(f, region, header, nb, br).blocks[header].phis;
    assert PhiIds(phis) == PhiIds(f.blocks[header].phis);
    RenamingById(phis, f.blocks[header].phis, br + 1, |phis|);
  }

  // Layer three: the phis, and the operands everywhere.
  ghost predicate IsSevered(f: Func, region: set<Label>, header: Label, nb: Label, br: Id, g: Func) {
    Severable(f, region, header, nb, br) && g == Severed(f, region, header, nb, br)
  }

  function PhisOf(f: Func, l: Label): seq<Phi> { if l in f.blocks then f.blocks[l].phis else [] }

  lemma ShapeCode(f: Func, region: set<Label>, header: Label, nb: Label, br: Id, g: Func, l: Label)
    requires IsSevered(f, region, header, nb, br, g) && l in f.blocks
    ensures var m := Moved(l, header, nb);
            && m in g.blocks
            && g.blocks[m].body == SubstBody(PhiNames(f, header, br), f.blocks[l].body)
            && g.blocks[m].term.id == f.blocks[l].term.id
            && g.blocks[m].term.ops == SubstVs(PhiNames(f, header, br), f.blocks[l].term.ops)
            && g.blocks[m].term.dests == NewDests(f, region, header, nb, l)
  {
    hide SplitBlock, Below, UniqueIds, PhisComplete, Bypassed, PhiNames, Bypassing, SubstBody, SubstVs, SubstPhis, OldPhis, NewPhis;
    FreshLabel(f, nb, br, header);
    PhisOfOld(f, region, header, nb, br);
    SplitShape(f, header, nb, br, l);
    BypassedShape(f, region, header, nb, br, Moved(l, header, nb));
  }

  lemma FreshLabel(f: Func, nb: Label, br: Id, l: Label)
    requires Below(f, nb, br)
    ensures l in f.blocks ==> l < nb
    ensures nb !in f.blocks
  {
  }

  lemma ShapePhis(f: Func, region: set<Label>, header: Label, nb: Label, br: Id, g: Func, l: Label)
    requires IsSevered(f, region, header, nb, br, g) && l in f.blocks && l != header
    ensures l in g.blocks && |PhisOf(g, l)| == |PhisOf(f, l)|
    ensures forall k :: 0 <= k < |PhisOf(f, l)| ==>
              PhisOf(g, l)[k] == Phi(PhisOf(f, l)[k].id, SubstInc(PhiNames(f, header, br), SplitInc(f, header, nb, l, PhisOf(f, l)[k].inc)))
  {
    hide SplitBlock, Below, UniqueIds, PhisComplete, Bypassed, PhiNames, Bypassing, SubstBody, SubstVs, OldPhis, NewPhis;
    FreshLabel(f, nb, br, header);
    FreshLabel(f, nb, br, l);
    PhisOfOld(f, region, header, nb, br);
    SplitShape(f, header, nb, br, l);
    BypassedShape(f, region, header, nb, br, l);
  }

  lemma ShapeOldHeader(f: Func, region: set<Label>, header: Label, nb: Label, br: Id, g: Func)
    requires IsSevered(f, region, header, nb, br, g)
    ensures header in g.blocks && g.blocks[header].body == [] && g.blocks[header].term == Term(br, [], [nb])
    ensures |PhisOf(g, header)| == |PhisOf(f, header)|
    ensures forall j :: 0 <= j < |PhisOf(f, header)| ==>
              PhisOf(g, header)[j] == OldPhi(SplitPhi(f, header, nb, j), PhiNames(f, header, br), NewRegion(region, header, nb))
  {
    hide SplitBlock, Below, UniqueIds, PhisComplete, Bypassed, PhiNames, SubstPhis, NewPhis, Bypassing, OldPhi;
    FreshLabel(f, nb, br, header);
    PhisOfOld(f, region, header, nb, br);
    SplitShape(f, header, nb, br, header);
    BypassedShape(f, region, header, nb, br, header);
    assert SubstVs(PhiNames(f, header, br), []) == [];
    assert SubstBody(PhiNames(f, header, br), []) == [];
    NotBypassing(f, region, header, nb);
  }

  // Phi j of the header, after the split.
  function SplitPhi(f: Func, header: Label, nb: Label, j: nat): Phi
    requires header in f.blocks && j < |PhisOf(f, header)|
  {
    Phi(f.blocks[header].phis[j].id, SplitInc(f, header, nb, header, f.blocks[header].phis[j].inc))
  }

  lemma NotBypassing(f: Func, region: set<Label>, header: Label, nb: Label)
    requires header in f.blocks && f.blocks[header].phis != [] && header != nb
    ensures header !in Bypassing(f, region, header, nb)
  {
  }

  lemma ShapeNewHeader(f: Func, region: set<Label>, header: Label, nb: Label, br: Id, g: Func, j: nat)
    requires IsSevered(f, region, header, nb, br, g) && j < |PhisOf(f, header)|
    ensures nb in g.blocks && |PhisOf(g, nb)| == |PhisOf(f, header)|
    ensures PhisOf(g, nb)[|PhisOf(f, header)| - 1 - j] ==
              NewPhi(SplitPhi(f, header, nb, j), PhiNames(f, header, br), NewRegion(region, header, nb), br + 1 + j, header)
  {
    hide *;
    NewHeaderPhis(f, region, header, nb, br, g);
    NewHeaderPhi(f, region, header, nb, br, g, j);
  }

  // The phis of the old header once its branches are led past it.
  function BypassedPhis(f: Func, region: set<Label>, header: Label, nb: Label, br: Id): seq<Phi> {
    if header in f.blocks && f.blocks[header].phis != [] && nb != header then PhisOf(Bypassed(f, region, header, nb, br), header) else []
  }

  lemma NewHeaderPhis(f: Func, region: set<Label>, header: Label, nb: Label, br: Id, g: Func)
    requires IsSevered(f, region, header, nb, br, g)
    ensures nb in g.blocks && |BypassedPhis(f, region, header, nb, br)| == |PhisOf(f, header)| == |PhisOf(g, nb)|
    ensures PhisOf(g, nb) == NewPhis(BypassedPhis(f, region, header, nb, br), PhiNames(f, header, br), NewRegion(region, header, nb), br + 1,
                                     |PhisOf(f, header)|, header)
  {
    hide SplitBlock, Below, UniqueIds, PhisComplete, Bypassed, PhiNames, SubstPhis, OldPhis, Bypassing, NewPhis;
    FreshLabel(f, nb, br, header);
    PhisOfOld(f, region, header, nb, br);
    BypassedShape(f, region, header, nb, br, header);
    BypassedShape(f, region, header, nb, br, nb);
  }

  lemma NewHeaderPhi(f: Func, region: set<Label>, header: Label, nb: Label, br: Id, g: Func, j: nat)
    requires IsSevered(f, region, header, nb, br, g) && j < |PhisOf(f, header)|
    requires |BypassedPhis(f, region, header, nb, br)| == |PhisOf(f, header)| == |PhisOf(g, nb)|
    requires PhisOf(g, nb) == NewPhis(BypassedPhis(f, region, header, nb, br), PhiNames(f, header, br), NewRegion(region, header, nb), br + 1,
                                      |PhisOf(f, header)|, header)
    ensures PhisOf(g, nb)[|PhisOf(f, header)| - 1 - j] ==
              NewPhi(SplitPhi(f, header, nb, j), PhiNames(f, header, br), NewRegion(region, header, nb), br + 1 + j, header)
  {
    hide SplitBlock, Below, UniqueIds, PhisComplete, Bypassed, PhiNames, Severed, NewPhi;
    FreshLabel(f, nb, br, header);
    PhisOfOld(f, region, header, nb, br);
    var n := |PhisOf(f, header)|;
    assert n - 1 - (n - 1 - j) == j;
  }
}
