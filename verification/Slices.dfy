/** Where the blocks come from once several loops have been separated in turn: each is a slice
    of an original block, and it begins and ends only where some loop asks for a cut. */
module Slices {
  import opened Collections
  import opened Ssa
  import opened Partition
  import opened Pieces
  import opened BlockSeparator

  // The function and its loops as given, and the iterator info there is for each loop.
  datatype Given = Given(f: Func, loops: seq<seq<Label>>, infos: seq<Option<IteratorInfo>>)

  // A part of the body of a block; the last one has the block's terminator.
  datatype Slice = Slice(blk: Label, lo: nat, hi: nat, last: bool)

  // Some loop with info has the block, and a cut in front of position k of its body.
  ghost predicate Asked(v: Given, blk: Label, k: nat) {
    blk in v.f.blocks && exists j :: 0 <= j < |v.loops| && AskedBy(v, blk, k, j)
  }

  ghost predicate AskedBy(v: Given, blk: Label, k: nat, j: nat)
    requires blk in v.f.blocks && j < |v.loops|
  {
    j < |v.infos| && v.infos[j].Some? && blk in v.loops[j] && k in BodyCuts(v.f.blocks[blk], v.infos[j].value)
  }

  // Block p holds the slice o; only the first slice of a block has its phis.
  ghost predicate HoldsSlice(v: Given, l: Label, p: Block, o: Slice) {
    && o.blk in v.f.blocks && o.lo <= o.hi <= |v.f.blocks[o.blk].body| && p.body == v.f.blocks[o.blk].body[o.lo..o.hi]
    && PhiIds(p.phis) == (if l in v.f.blocks then PhiIds(v.f.blocks[o.blk].phis) else [])
    && (l in v.f.blocks ==> o.blk == l && o.lo == 0)
    && if o.last then o.hi == |v.f.blocks[o.blk].body| && p.term == v.f.blocks[o.blk].term else IsUnconditional(p.term)
  }

  ghost predicate SliceAsked(v: Given, l: Label, o: Slice) {
    (l !in v.f.blocks ==> Asked(v, o.blk, o.lo)) && (!o.last ==> Asked(v, o.blk, o.hi))
  }

  // A block is in the loops its origin was in.
  ghost predicate InItsLoops(v: Given, loops: seq<seq<Label>>, l: Label, o: Slice) {
    forall j :: 0 <= j < |loops| && j < |v.loops| ==> (l in loops[j] <==> o.blk in v.loops[j])
  }

  ghost predicate Sliced(v: Given, f: Func, loops: seq<seq<Label>>, slices: map<Label, Slice>) {
    && v.f.blocks.Keys <= f.blocks.Keys && |loops| == |v.loops| && slices.Keys == f.blocks.Keys
    && forall l <- f.blocks :: l in slices && HoldsSlice(v, l, f.blocks[l], slices[l]) && SliceAsked(v, l, slices[l]) && InItsLoops(v, loops, l, slices[l])
  }

  // ---------- cuts of a slice are cuts of the block ----------

  lemma IsBodyCut(b: Block, info: IteratorInfo, k: nat)
    ensures k in BodyCuts(b, info) <==> |b.phis| + k < |Insts(b)| && IsCut(b, info, |b.phis| + k)
  {
    hide IsCut, Insts;
    CutsSorted(b, info, |Insts(b)|);
    var (cs, ks) := (AllCuts(b, info), BodyCuts(b, info));
    hide AllCuts;
    if k in ks {
      var i :| 0 <= i < |ks| && ks[i] == k;
      assert cs[i] == |b.phis| + k;
    }
    if |b.phis| + k < |Insts(b)| && IsCut(b, info, |b.phis| + k) {
      var i :| 0 <= i < |cs| && cs[i] == |b.phis| + k;
      assert ks[i] == k;
    }
  }

  lemma ModeOfInst(b: Block, info: IteratorInfo)
    ensures |Insts(b)| == |b.phis| + |b.body| + 1
    ensures forall m :: 0 <= m < |b.phis| ==> ModeAt(b, info, m) == GetMode(PhiIds(b.phis)[m], info)
    ensures forall m :: 0 <= m < |b.body| ==> ModeAt(b, info, |b.phis| + m) == GetMode(b.body[m].id, info)
    ensures ModeAt(b, info, |b.phis| + |b.body|) == GetMode(b.term.id, info)
  {
  }

  lemma MixedAlike(b: Block, b0: Block, info: IteratorInfo)
    requires PhiIds(b.phis) == PhiIds(b0.phis)
    ensures |b.phis| == |b0.phis| && (MixedPhis(b, info) <==> MixedPhis(b0, info))
  {
    ModeOfInst(b, info);
    ModeOfInst(b0, info);
    assert |PhiIds(b.phis)| == |b.phis| && |PhiIds(b0.phis)| == |b0.phis|;
    hide ModeAt, Insts;
  }

  lemma NotMixedWithout(b: Block, info: IteratorInfo)
    requires PhiIds(b.phis) == []
    ensures b.phis == [] && !MixedPhis(b, info)
  {
    assert |PhiIds(b.phis)| == |b.phis|;
  }

  // The mode changes in the block where it changes in the slice.
  lemma ChangeOfSlice(b0: Block, b: Block, info: IteratorInfo, lo: nat, hi: nat, first: bool, last: bool, k: nat)
    requires lo <= hi <= |b0.body| && b.body == b0.body[lo..hi] && PhiIds(b.phis) == (if first then PhiIds(b0.phis) else [])
    requires (first ==> lo == 0) && if last then hi == |b0.body| && b.term == b0.term else IsUnconditional(b.term)
    requires k <= |b.body| && 0 < |b.phis| + k < |Insts(b)| && Changes(b, info, |b.phis| + k)
    ensures 0 < |b0.phis| + lo + k < |Insts(b0)| && Changes(b0, info, |b0.phis| + lo + k)
  {
    hide ModeAt, Insts;
    SliceModes(b0, b, info, lo, hi, last, k);
    if k > 0 {
      SliceModes(b0, b, info, lo, hi, last, k - 1);
      assert |b.phis| + (k - 1) == |b.phis| + k - 1 && |b0.phis| + lo + (k - 1) == |b0.phis| + lo + k - 1;
    } else {
      PhiModes(b0, b, info, |b.phis| - 1);
      assert |b0.phis| + lo + k - 1 == |b.phis| - 1;
    }
  }

  lemma PhiModes(b0: Block, b: Block, info: IteratorInfo, m: nat)
    requires PhiIds(b.phis) == PhiIds(b0.phis) && m < |b.phis|
    ensures |b.phis| == |b0.phis| && m < |Insts(b)| && m < |Insts(b0)| && ModeAt(b, info, m) == ModeAt(b0, info, m)
  {
    assert |PhiIds(b.phis)| == |b.phis| && |PhiIds(b0.phis)| == |b0.phis|;
    assert Insts(b)[m] == PhiIds(b.phis)[m] && Insts(b0)[m] == PhiIds(b0.phis)[m];
  }

  // Instruction m after the phis, unless it is a branch that was inserted.
  lemma SliceModes(b0: Block, b: Block, info: IteratorInfo, lo: nat, hi: nat, last: bool, m: nat)
    requires lo <= hi <= |b0.body| && b.body == b0.body[lo..hi] && m <= |b.body|
    requires if last then hi == |b0.body| && b.term == b0.term else IsUnconditional(b.term)
    ensures |b.phis| + m < |Insts(b)| && |b0.phis| + lo + m < |Insts(b0)|
    ensures !Wild(b, |b.phis| + m) ==>
              ModeAt(b, info, |b.phis| + m) == ModeAt(b0, info, |b0.phis| + lo + m) && !Wild(b0, |b0.phis| + lo + m)
    ensures m < |b.body| ==> ModeAt(b, info, |b.phis| + m) == ModeAt(b0, info, |b0.phis| + lo + m)
  {
    InstAt(b, m);
    InstAt(b0, lo + m);
    assert |b0.phis| + (lo + m) == |b0.phis| + lo + m;
    hide Insts;
    if m < |b.body| { assert b.body[m] == b0.body[lo + m]; }
  }

  lemma InstAt(b: Block, m: nat)
    requires m <= |b.body|
    ensures |Insts(b)| == |b.phis| + |b.body| + 1 && Insts(b)[|b.phis| + m] == if m < |b.body| then b.body[m].id else b.term.id
  {
  }

  lemma CutOfSlice(b0: Block, b: Block, info: IteratorInfo, lo: nat, hi: nat, first: bool, last: bool, k: nat)
    requires lo <= hi <= |b0.body| && b.body == b0.body[lo..hi] && PhiIds(b.phis) == (if first then PhiIds(b0.phis) else [])
    requires (first ==> lo == 0) && if last then hi == |b0.body| && b.term == b0.term else IsUnconditional(b.term)
    requires k in BodyCuts(b, info)
    ensures lo + k in BodyCuts(b0, info)
  {
    hide Insts, Changes, BodyCuts, MixedPhis;
    IsBodyCut(b, info, k);
    IsBodyCut(b0, info, lo + k);
    ModeOfInst(b, info);
    ModeOfInst(b0, info);
    if first { MixedAlike(b, b0, info); } else { NotMixedWithout(b, info); }
    if !(MixedPhis(b, info) && k == 0) {
      ChangeOfSlice(b0, b, info, lo, hi, first, last, k);
    }
  }

  // ---------- splitting one block ----------

  ghost function PieceSlice(o: Slice, b: Block, ks: seq<nat>, j: nat): Slice
    requires j <= |ks|
  {
    Slice(o.blk, o.lo + PieceStart(ks, j), o.lo + PieceEnd(b, ks, j), j == |ks| && o.last)
  }

  ghost function SplitSlices(slices: map<Label, Slice>, b: Block, bb: Label, nb: Label, ks: seq<nat>): map<Label, Slice>
    requires bb in slices
  {
    map l | l in slices.Keys + Names(nb, |ks|) ::
      if l == bb then PieceSlice(slices[bb], b, ks, 0)
      else if nb <= l < nb + |ks| then PieceSlice(slices[bb], b, ks, nb + |ks| - l)
      else slices[l]
  }

  lemma PieceHoldsSlice(v: Given, bb: Label, b: Block, o: Slice, l: Label, p: Block, nb: Label, ks: seq<nat>, j: nat)
    requires HoldsSlice(v, bb, b, o) && Ascending(ks, |b.body|) && j <= |ks| && IsPiece(b, p, bb, nb, ks, j)
    requires if j == 0 then l == bb else l !in v.f.blocks
    ensures HoldsSlice(v, l, p, PieceSlice(o, b, ks, j))
  {
    var (body, s) := (v.f.blocks[o.blk].body, PieceSlice(o, b, ks, j));
    assert 0 < j < |ks| ==> ks[j - 1] < ks[j];
    SliceOfSlice(body, o.lo, o.hi, PieceStart(ks, j), PieceEnd(b, ks, j));
    assert p.body == body[s.lo..s.hi];
  }

  lemma SliceOfSlice(body: seq<Instr>, lo: nat, hi: nat, a: nat, b: nat)
    requires lo <= hi <= |body| && a <= b <= hi - lo
    ensures body[lo..hi][a..b] == body[lo + a..lo + b]
  {
    var (x, y) := (body[lo..hi][a..b], body[lo + a..lo + b]);
    forall k | 0 <= k < b - a ensures x[k] == y[k] {
      assert x[k] == body[lo..hi][a + k] == body[lo + (a + k)];
    }
    assert x == y;
  }

  lemma PieceAsked(v: Given, bb: Label, b: Block, o: Slice, l: Label, info: IteratorInfo, cur: nat, j: nat)
    requires HoldsSlice(v, bb, b, o) && SliceAsked(v, bb, o)
    requires cur < |v.loops| && cur < |v.infos| && v.infos[cur] == Some(info) && o.blk in v.loops[cur]
    requires var ks := BodyCuts(b, info); j <= |ks| && if j == 0 then l == bb else l !in v.f.blocks
    ensures SliceAsked(v, l, PieceSlice(o, b, BodyCuts(b, info), j))
  {
    hide BodyCuts, HoldsSlice, Asked;
    var ks := BodyCuts(b, info);
    SliceEnds(v, bb, b, o);
    if j > 0 { CutIsAsked(v, bb, b, o, info, cur, ks[j - 1]); }
    if j < |ks| { CutIsAsked(v, bb, b, o, info, cur, ks[j]); }
  }

  lemma SliceEnds(v: Given, l: Label, p: Block, o: Slice)
    requires HoldsSlice(v, l, p, o)
    ensures o.lo + |p.body| == o.hi
  {
  }

  lemma CutIsAsked(v: Given, bb: Label, b: Block, o: Slice, info: IteratorInfo, cur: nat, k: nat)
    requires HoldsSlice(v, bb, b, o) && k in BodyCuts(b, info)
    requires cur < |v.loops| && cur < |v.infos| && v.infos[cur] == Some(info) && o.blk in v.loops[cur]
    ensures Asked(v, o.blk, o.lo + k)
  {
    hide BodyCuts, PhiIds;
    CutOfSlice(v.f.blocks[o.blk], b, info, o.lo, o.hi, bb in v.f.blocks, o.last, k);
    assert AskedBy(v, o.blk, o.lo + k, cur);
  }

  lemma SliceKept(v: Given, l: Label, p: Block, q: Block, o: Slice)
    requires HoldsSlice(v, l, p, o) && SameInsts(q, p)
    ensures HoldsSlice(v, l, q, o)
  {
  }

  lemma SplitSliceAt(v: Given, f: Func, loops: seq<seq<Label>>, slices: map<Label, Slice>, bb: Label, info: IteratorInfo, cur: nat,
                     nb: Label, br: Id, l: Label)
    requires Sliced(v, f, loops, slices) && bb in f.blocks && bb < nb && forall m <- f.blocks :: m < nb
    requires cur < |loops| && cur < |v.infos| && v.infos[cur] == Some(info) && bb in loops[cur]
    requires l in f.blocks || l in Names(nb, |BodyCuts(f.blocks[bb], info)|)
    ensures var ks := BodyCuts(f.blocks[bb], info);
            var (g, more) := (SplitMany(f, bb, ks, nb, br), SplitSlices(slices, f.blocks[bb], bb, nb, ks));
            && l in g.blocks && l in more && HoldsSlice(v, l, g.blocks[l], more[l]) && SliceAsked(v, l, more[l])
            && more[l].blk == (if l in f.blocks then slices[l].blk else slices[bb].blk)
  {
    hide SplitMany, BodyCuts, HoldsSlice, SliceAsked, Insts;
    var b := f.blocks[bb];
    var ks := BodyCuts(b, info);
    SplitManyFrame(f, bb, ks, nb, br);
    if l == bb || l in Names(nb, |ks|) {
      var j := if l == bb then 0 else nb + |ks| - l;
      assert l == PieceLabel(bb, nb, |ks|, j);
      SplitManyPieces(f, bb, ks, nb, br, j);
      PieceHoldsSlice(v, bb, b, slices[bb], l, SplitMany(f, bb, ks, nb, br).blocks[l], nb, ks, j);
      assert InItsLoops(v, loops, bb, slices[bb]);
      PieceAsked(v, bb, b, slices[bb], l, info, cur, j);
    } else {
      SliceKept(v, l, f.blocks[l], SplitMany(f, bb, ks, nb, br).blocks[l], slices[l]);
    }
  }

  lemma SplitStaysSliced(v: Given, f: Func, loops: seq<seq<Label>>, slices: map<Label, Slice>, bb: Label, info: IteratorInfo, cur: nat,
                         nb: Label, br: Id)
    requires Sliced(v, f, loops, slices) && bb in f.blocks && bb < nb && forall m <- f.blocks :: m < nb
    requires cur < |loops| && cur < |v.infos| && v.infos[cur] == Some(info) && bb in loops[cur]
    requires forall j :: 0 <= j < |loops| ==> forall m <- loops[j] :: m in f.blocks
    ensures var ks := BodyCuts(f.blocks[bb], info);
            Sliced(v, SplitMany(f, bb, ks, nb, br), JoinMany(loops, bb, nb, |ks|), SplitSlices(slices, f.blocks[bb], bb, nb, ks))
  {
    hide SplitMany, BodyCuts, HoldsSlice, SliceAsked, JoinMany, SplitSlices;
    var ks := BodyCuts(f.blocks[bb], info);
    var (g, gs, more) := (SplitMany(f, bb, ks, nb, br), JoinMany(loops, bb, nb, |ks|), SplitSlices(slices, f.blocks[bb], bb, nb, ks));
    SplitManyFrame(f, bb, ks, nb, br);
    SplitSliceKeys(slices, f.blocks[bb], bb, nb, ks);
    forall l | l in g.blocks
      ensures l in more && HoldsSlice(v, l, g.blocks[l], more[l]) && SliceAsked(v, l, more[l]) && InItsLoops(v, gs, l, more[l])
    {
      SplitSliceAt(v, f, loops, slices, bb, info, cur, nb, br, l);
      forall j | 0 <= j < |gs| ensures l in gs[j] <==> more[l].blk in v.loops[j] {
        JoinManyHas(loops, bb, nb, |ks|, j, l);
        assert InItsLoops(v, loops, bb, slices[bb]);
        assert l in f.blocks ==> InItsLoops(v, loops, l, slices[l]);
      }
    }
  }

  lemma SliceOfEach(v: Given, f: Func, loops: seq<seq<Label>>, slices: map<Label, Slice>)
    requires Sliced(v, f, loops, slices)
    ensures slices.Keys == f.blocks.Keys
  {
  }

  lemma SplitSliceKeys(slices: map<Label, Slice>, b: Block, bb: Label, nb: Label, ks: seq<nat>)
    requires bb in slices
    ensures SplitSlices(slices, b, bb, nb, ks).Keys == slices.Keys + Names(nb, |ks|)
  {
  }

  // ---------- what it means ----------

  // To begin with, every block is the whole of itself.
  ghost function Wholes(f: Func): map<Label, Slice> { map l | l in f.blocks :: Slice(l, 0, |f.blocks[l].body|, true) }

  lemma SlicedAtFirst(v: Given)
    ensures Sliced(v, v.f, v.loops, Wholes(v.f))
  {
    forall l | l in v.f.blocks ensures HoldsSlice(v, l, v.f.blocks[l], Wholes(v.f)[l]) {
      var b := v.f.blocks[l];
      assert b.body[0..|b.body|] == b.body;
    }
  }

  // A block for which no loop asks for a cut stays whole.
  lemma StaysWhole(v: Given, f: Func, loops: seq<seq<Label>>, slices: map<Label, Slice>, l: Label)
    requires Sliced(v, f, loops, slices) && l in v.f.blocks && forall k :: !Asked(v, l, k)
    ensures l in f.blocks && SameInsts(f.blocks[l], v.f.blocks[l]) && forall m <- f.blocks :: m !in v.f.blocks ==> slices[m].blk != l
  {
    hide Asked;
    var (b, o) := (v.f.blocks[l], slices[l]);
    assert o.last && o.lo == 0;
    assert b.body[0..|b.body|] == b.body;
  }

  // Without info for any loop, no block is added.
  lemma NothingAsked(v: Given, f: Func, loops: seq<seq<Label>>, slices: map<Label, Slice>)
    requires Sliced(v, f, loops, slices) && forall j :: 0 <= j < |v.infos| ==> v.infos[j].None?
    ensures f.blocks.Keys == v.f.blocks.Keys
  {
    forall l | l in f.blocks ensures l in v.f.blocks {
      assert !Asked(v, slices[l].blk, slices[l].lo);
    }
  }

  // Every boundary is needed: any way of cutting a block that leaves pieces of one mode under the
  // info of each of its loops has it, when under none of them the phis are of both modes.
  lemma BoundaryIsForced(v: Given, f: Func, loops: seq<seq<Label>>, slices: map<Label, Slice>, l: Label, cuts: set<nat>)
    requires Sliced(v, f, loops, slices) && l in f.blocks && slices[l].blk in v.f.blocks
    requires forall j :: 0 <= j < |v.infos| && j < |v.loops| && v.infos[j].Some? && slices[l].blk in v.loops[j] ==>
               !MixedPhis(v.f.blocks[slices[l].blk], v.infos[j].value) && SingleModePieces(v.f.blocks[slices[l].blk], v.infos[j].value, 0, cuts)
    ensures l !in v.f.blocks ==> |v.f.blocks[slices[l].blk].phis| + slices[l].lo in cuts
    ensures !slices[l].last ==> |v.f.blocks[slices[l].blk].phis| + slices[l].hi in cuts
  {
    hide HoldsSlice, InItsLoops, MixedPhis, SingleModePieces, BodyCuts;
    var b := v.f.blocks[slices[l].blk];
    forall k: nat | Asked(v, slices[l].blk, k) ensures |b.phis| + k in cuts {
      var j :| 0 <= j < |v.loops| && AskedBy(v, slices[l].blk, k, j);
      CutInCuts(b, v.infos[j].value, k, cuts);
    }
  }

  lemma CutInCuts(b: Block, info: IteratorInfo, k: nat, cuts: set<nat>)
    requires k in BodyCuts(b, info) && !MixedPhis(b, info) && SingleModePieces(b, info, 0, cuts)
    ensures |b.phis| + k in cuts
  {
    hide MixedPhis, SingleModePieces, AllCuts;
    var ks := BodyCuts(b, info);
    var i :| 0 <= i < |ks| && ks[i] == k;
    assert AllCuts(b, info)[i] == |b.phis| + k;
    CutIsForced(b, info, cuts, |b.phis| + k);
  }
}
