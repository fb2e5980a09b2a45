/** The region the extractor works on, and what splitting and severing do to it. */
module ExtractorRegion {
  import opened Collections
  import opened Ssa
  import opened Split
  import opened Rewrite
  import opened Partition
  import opened Sever
  import opened SeveredShape
  import CloneRuns
  import SeverRuns

  // The function is in order, every name in use is below the next ones, and the region
  // consists of blocks of it.
  ghost predicate Ready(f: Func, nl: Label, ni: Id, blocks: seq<Label>) {
    Below(f, nl, ni) && UniqueIds(f) && f.entry in f.blocks && Distinct(blocks) && forall l <- blocks :: l in f.blocks
  }

  // Has the header more than one entry from outside the region?
  predicate NeedsSevering(f: Func, blocks: seq<Label>, header: Label) {
    header == f.entry
    || (PhisOf(f, header) != [] && |Outside(PhisOf(f, header)[0].inc, Elements(blocks))| > 1)
  }

  // What a verified function gives at the header of a region.
  ghost predicate GoodHeader(f: Func, blocks: seq<Label>, header: Label) {
    && header in blocks && header in f.blocks && PhisComplete(f, header)
    && (header == f.entry ==> f.blocks[header].phis == [])
  }

  lemma ReadyParts(f: Func, nl: Label, ni: Id, blocks: seq<Label>, l: Label)
    requires Ready(f, nl, ni, blocks)
    ensures Below(f, nl, ni) && UniqueIds(f) && f.entry < nl
    ensures l in blocks ==> l in f.blocks
    ensures l in f.blocks ==> l < nl && Distinct(Insts(f.blocks[l])) && forall x <- Insts(f.blocks[l]) :: x < ni
    ensures Distinct(blocks) && Elements(blocks) <= f.blocks.Keys
  {
    hide Insts, BlockBelow;
    if l in f.blocks { BelowInsts(f, nl, ni, l); }
  }

  lemma ReadySplit(f: Func, nl: Label, ni: Id, blocks: seq<Label>, bb: Label, k: nat, tail: seq<Label>)
    requires Ready(f, nl, ni, blocks) && bb in f.blocks && k <= |f.blocks[bb].body|
    requires Distinct(tail) && forall l <- tail :: l in blocks || l == nl
    ensures Ready(SplitBlock(f, bb, k, nl, ni), nl + 1, ni + 1, tail)
  {
    hide Below, UniqueIds, SplitBlock;
    SplitBelow(f, bb, k, nl, ni);
    SplitUnique(f, bb, k, nl, ni);
    SplitKeys(f, bb, k, nl, ni);
  }

  lemma NewBlocks(f: Func, nl: Label, ni: Id, blocks: seq<Label>, header: Label)
    requires Ready(f, nl, ni, blocks) && header in blocks
    ensures var tail := Remove(blocks, header) + [nl];
            && Distinct(tail) && (forall l <- tail :: l in blocks || l == nl) && header !in tail && nl in tail
            && Elements(tail) == NewRegion(Elements(blocks), header, nl) && nl !in f.blocks && header < nl
  {
    hide Below, UniqueIds;
    ReadyParts(f, nl, ni, blocks, header);
    FreshLabel(f, nl, ni, nl);
  }

  lemma ReadySevered(f: Func, nl: Label, ni: Id, blocks: seq<Label>, header: Label, g: Func)
    requires Ready(f, nl, ni, blocks) && IsSevered(f, Elements(blocks), header, nl, ni, g)
    ensures header in f.blocks && header in blocks
    ensures Ready(g, nl + 1, ni + 1 + |f.blocks[header].phis|, Remove(blocks, header) + [nl])
  {
    hide Below, UniqueIds, IsSevered;
    SeverRuns.Labels(f, Elements(blocks), header, nl, ni, g);
    NewBlocks(f, nl, ni, blocks, header);
    SeveredBelow(f, Elements(blocks), header, nl, ni, g);
    SeveredUnique(f, Elements(blocks), header, nl, ni, g);
    SeverRuns.SeveredKeys(f, Elements(blocks), header, nl, ni, g);
  }

  lemma CanSever(f: Func, nl: Label, ni: Id, blocks: seq<Label>, header: Label)
    requires Ready(f, nl, ni, blocks) && GoodHeader(f, blocks, header) && header != f.entry && f.blocks[header].phis != []
    ensures Severable(f, Elements(blocks), header, nl, ni)
  {
    hide Below, UniqueIds;
  }

  // ---------- the intermediate function ----------

  // Split, with the branches from inside led past the old header, before any phi is dealt with.
  lemma SeveringNone(f: Func, region: set<Label>, header: Label, nb: Label, br: Id)
    requires Severable(f, region, header, nb, br)
    ensures header != nb
    ensures var h := Bypassed(f, region, header, nb, br);
            && header in h.blocks && nb in h.blocks && |h.blocks[header].phis| == |f.blocks[header].phis|
            && Severing(h, header, nb, NewRegion(region, header, nb), br + 1, 0) == h
            && Distinct(PhiIds(h.blocks[header].phis)) && forall i <- PhiIds(h.blocks[header].phis) :: i < br + 1
  {
    hide Below, UniqueIds, PhisComplete, SplitBlock, Bypassed, Redirect;
    BypassedHeaders(f, region, header, nb, br);
    var h := Bypassed(f, region, header, nb, br);
    SeveringZero(h, header, nb, NewRegion(region, header, nb), br + 1);
  }

  lemma BypassedHeaders(f: Func, region: set<Label>, header: Label, nb: Label, br: Id)
    requires Severable(f, region, header, nb, br)
    ensures header != nb
    ensures var h := Bypassed(f, region, header, nb, br);
            && header in h.blocks && nb in h.blocks && h.blocks[nb].phis == []
            && |h.blocks[header].phis| == |f.blocks[header].phis|
            && Distinct(PhiIds(h.blocks[header].phis)) && forall i <- PhiIds(h.blocks[header].phis) :: i < br + 1
  {
    hide PhisComplete, SplitBlock, Bypassed, Redirect, UniqueIds, Insts, Below;
    FreshLabel(f, nb, br, header);
    PhisOfOld(f, region, header, nb, br);
    SplitShape(f, header, nb, br, header);
    BypassedShape(f, region, header, nb, br, nb);
    UniqueBlock(f, header);
    BelowInsts(f, nb, br, header);
    CloneRuns.BlockIds(f.blocks[header]);
    var h := Bypassed(f, region, header, nb, br);
    assert PhiIds(h.blocks[header].phis) == PhiIds(f.blocks[header].phis);
  }

  lemma SeveringZero(h: Func, header: Label, nb: Label, region: set<Label>, first: Id)
    requires header in h.blocks && nb in h.blocks && header != nb && h.blocks[nb].phis == []
    ensures Severing(h, header, nb, region, first, 0) == h
  {
    hide SubstBody, SubstVs, SubstPhis;
    var g := Severing(h, header, nb, region, first, 0);
    assert g.blocks.Keys == h.blocks.Keys;
    forall l | l in h.blocks ensures g.blocks[l] == h.blocks[l] {
      SubstBlockNothing(h.blocks[l]);
      OldPhisZero(h.blocks[l].phis, region);
    }
  }

  lemma OldPhisZero(phis: seq<Phi>, region: set<Label>)
    ensures OldPhis(phis, map[], region, 0) == SubstPhis(map[], phis)
  {
  }

  // ---------- the entry of what was split off ----------

  lemma SplitEntry(f: Func, header: Label, nb: Label, br: Id, m: Label)
    requires Below(f, nb, br) && header in f.blocks
    ensures var g := SplitBlock(f, header, 0, nb, br);
            && nb in g.blocks && header in g.blocks && g.blocks[nb].phis == [] && g.blocks[header].term.dests == [nb]
            && (m in g.blocks && nb in g.blocks[m].term.dests ==> m == header)
  {
    FreshLabel(f, nb, br, header);
    SplitShape(f, header, nb, br, header);
    if m in f.blocks {
      SplitShape(f, header, nb, br, m);
      DestsFresh(f, nb, br, m);
    } else if m == nb {
      DestsFresh(f, nb, br, header);
    }
  }

  lemma DestsFresh(f: Func, nb: Label, br: Id, l: Label)
    requires Below(f, nb, br) && l in f.blocks
    ensures nb !in f.blocks[l].term.dests
  {
    assert BlockBelow(f.blocks[l], nb, br);
  }

  // The header is severed when it is the function's entry, or when two entries of its first phi
  // come from outside the region.
  lemma NeedsSeveringIff(f: Func, blocks: seq<Label>, header: Label)
    requires header in f.blocks
    ensures NeedsSevering(f, blocks, header) <==>
              || header == f.entry
              || (f.blocks[header].phis != [] && TwoFromOutside(f.blocks[header].phis[0].inc, blocks))
  {
    if f.blocks[header].phis != [] { OutsideTwo(f.blocks[header].phis[0].inc, blocks); }
  }

  ghost predicate TwoFromOutside(inc: seq<Incoming>, blocks: seq<Label>) {
    exists i, j :: 0 <= i < j < |inc| && inc[i].from !in blocks && inc[j].from !in blocks
  }

  lemma {:induction false} OutsideOne(inc: seq<Incoming>, blocks: seq<Label>)
    ensures |Outside(inc, Elements(blocks))| > 0 <==> exists i :: 0 <= i < |inc| && inc[i].from !in blocks
  {
    if inc != [] {
      OutsideOne(inc[1..], blocks);
      if i :| 0 <= i < |inc| && inc[i].from !in blocks {
        if i > 0 { assert inc[1..][i - 1].from !in blocks; }
      }
      if i :| 0 <= i < |inc[1..]| && inc[1..][i].from !in blocks { assert inc[i + 1].from !in blocks; }
    }
  }

  lemma {:induction false} OutsideTwo(inc: seq<Incoming>, blocks: seq<Label>)
    ensures |Outside(inc, Elements(blocks))| > 1 <==> TwoFromOutside(inc, blocks)
  {
    if inc != [] {
      OutsideTwo(inc[1..], blocks);
      OutsideOne(inc[1..], blocks);
      if TwoFromOutside(inc, blocks) {
        var i, j :| 0 <= i < j < |inc| && inc[i].from !in blocks && inc[j].from !in blocks;
        assert inc[1..][j - 1].from !in blocks;
        if i > 0 { assert inc[1..][i - 1].from !in blocks && TwoFromOutside(inc[1..], blocks); }
      }
      if inc[0].from !in blocks {
        if i :| 0 <= i < |inc[1..]| && inc[1..][i].from !in blocks { assert inc[i + 1].from !in blocks && TwoFromOutside(inc, blocks); }
      }
      if TwoFromOutside(inc[1..], blocks) {
        var i, j :| 0 <= i < j < |inc[1..]| && inc[1..][i].from !in blocks && inc[1..][j].from !in blocks;
        assert inc[i + 1].from !in blocks && inc[j + 1].from !in blocks;
      }
    }
  }
}
