/** The block separator: it scans every block of a loop for mode changes and splits the
    blocks there, loop after loop. */
module BlockSeparator {
  import opened Ssa
  import opened Partition
  import opened Pieces

  // ---------- points and loops ----------

  function PointAt(b: Block, info: IteratorInfo, i: nat): Point
    requires i < |Insts(b)|
  {
    Point(Insts(b)[i], CutMode(b, info, i))
  }

  function PointsUpTo(b: Block, info: IteratorInfo, n: nat): seq<Point>
    requires n <= |Insts(b)|
  {
    if n == 0 then []
    else PointsUpTo(b, info, n - 1) + if IsCut(b, info, n - 1) then [PointAt(b, info, n - 1)] else []
  }

  function PointsOf(b: Block, info: IteratorInfo): seq<Point> { PointsUpTo(b, info, |Insts(b)|) }

  lemma {:induction false} PointsAreCuts(b: Block, info: IteratorInfo, n: nat)
    requires n <= |Insts(b)|
    ensures |PointsUpTo(b, info, n)| == |Cuts(b, info, n)|
    ensures forall k :: 0 <= k < |Cuts(b, info, n)| ==>
              Cuts(b, info, n)[k] < |Insts(b)| && PointsUpTo(b, info, n)[k] == PointAt(b, info, Cuts(b, info, n)[k])
  {
    if n > 0 { PointsAreCuts(b, info, n - 1); }
  }

  // A new block belongs to every loop that the block it was split from belongs to.
  function Join(loops: seq<seq<Label>>, bb: Label, nb: Label): (r: seq<seq<Label>>)
    ensures |r| == |loops|
  {
    seq(|loops|, j requires 0 <= j < |loops| => if bb in loops[j] then loops[j] + [nb] else loops[j])
  }

  function JoinMany(loops: seq<seq<Label>>, bb: Label, nb: Label, n: nat): (r: seq<seq<Label>>)
    ensures |r| == |loops|
    decreases n
  {
    if n == 0 then loops else JoinMany(Join(loops, bb, nb), bb, nb + 1, n - 1)
  }

  lemma {:induction false} JoinManyHas(loops: seq<seq<Label>>, bb: Label, nb: Label, n: nat, j: nat, l: Label)
    requires j < |loops|
    ensures l in JoinMany(loops, bb, nb, n)[j] <==> l in loops[j] || (bb in loops[j] && l in Names(nb, n))
    decreases n
  {
    if n > 0 {
      var js := Join(loops, bb, nb);
      JoinManyHas(js, bb, nb + 1, n - 1, j, l);
      assert l in js[j] <==> l in loops[j] || (bb in loops[j] && l == nb);
      assert bb in js[j] <==> bb in loops[j] || (bb in loops[j] && bb == nb);
    }
  }

  // ---------- what the pass keeps ----------

  ghost predicate SolidLoop(f: Func, loop: seq<Label>, info: IteratorInfo) {
    forall l <- loop :: l in f.blocks && Solid(f.blocks[l], info)
  }

  ghost predicate KeepsSolid(f: Func, fs: seq<seq<Label>>, g: Func, gs: seq<seq<Label>>) {
    |fs| == |gs| && forall j, info :: 0 <= j < |fs| && SolidLoop(f, fs[j], info) ==> SolidLoop(g, gs[j], info)
  }

  // Blocks keep all their phis, and no other block gets any.
  ghost predicate KeepsPhis(f: Func, g: Func) {
    && f.blocks.Keys <= g.blocks.Keys
    && forall l <- g.blocks :: PhiIds(g.blocks[l].phis) == if l in f.blocks then PhiIds(f.blocks[l].phis) else []
  }

  function BodyCuts(b: Block, info: IteratorInfo): (ks: seq<nat>)
    ensures |ks| == |AllCuts(b, info)|
    ensures forall k :: 0 <= k < |ks| ==> ks[k] == AllCuts(b, info)[k] - |b.phis|
    ensures Ascending(ks, |b.body|)
  {
    CutsSorted(b, info, |Insts(b)|);
    seq(|AllCuts(b, info)|, k requires 0 <= k < |AllCuts(b, info)| => AllCuts(b, info)[k] - |b.phis|)
  }

  lemma PieceIsSlice(b: Block, p: Block, bb: Label, nb: Label, ks: seq<nat>, j: nat)
    requires j <= |ks| && Ascending(ks, |b.body|) && IsPiece(b, p, bb, nb, ks, j)
    ensures IsSlice(b, p, PieceStart(ks, j), PieceEnd(b, ks, j), j == |ks|)
  {
  }

  // A piece is uncut: it runs from one cut to the next.
  lemma PieceUncut(b: Block, info: IteratorInfo, j: nat)
    requires j <= |AllCuts(b, info)|
    ensures var ks := BodyCuts(b, info);
            Uncut(b, info, PieceStart(ks, j), PieceEnd(b, ks, j), j == |ks|)
  {
    hide Cuts, Insts, IsCut, PieceLabel;
    CutsSorted(b, info, |Insts(b)|);
    var cs := AllCuts(b, info);
    var ks := BodyCuts(b, info);
    forall c <- cs
      ensures !(|b.phis| + PieceStart(ks, j) < c < |b.phis| + PieceEnd(b, ks, j))
      ensures j == |ks| ==> c <= |b.phis| + PieceStart(ks, j)
    {
      var i :| 0 <= i < |cs| && cs[i] == c;
      if i < j {
        assert cs[i] <= cs[j - 1] == |b.phis| + PieceStart(ks, j);
      } else {
        assert cs[j] <= cs[i] && PieceEnd(b, ks, j) == cs[j] - |b.phis|;
      }
    }
  }

  // ---------- one block split at all its cuts ----------

  lemma SplitManyKeepsSolid(f: Func, loops: seq<seq<Label>>, bb: Label, ks: seq<nat>, nb: Label, br: Id)
    requires bb in f.blocks && bb < nb && Ascending(ks, |f.blocks[bb].body|)
    requires forall l <- f.blocks :: l < nb
    ensures KeepsSolid(f, loops, SplitMany(f, bb, ks, nb, br), JoinMany(loops, bb, nb, |ks|))
  {
    hide SplitMany, Solid;
    var g := SplitMany(f, bb, ks, nb, br);
    var gs := JoinMany(loops, bb, nb, |ks|);
    forall j, info | 0 <= j < |loops| && SolidLoop(f, loops[j], info) ensures SolidLoop(g, gs[j], info) {
      forall l | l in gs[j] ensures l in g.blocks && Solid(g.blocks[l], info) {
        JoinManyHas(loops, bb, nb, |ks|, j, l);
        SplitManySolidAt(f, bb, ks, nb, br, l, info);
      }
    }
  }

  lemma SplitManySolidAt(f: Func, bb: Label, ks: seq<nat>, nb: Label, br: Id, l: Label, info: IteratorInfo)
    requires bb in f.blocks && bb < nb && Ascending(ks, |f.blocks[bb].body|)
    requires forall x <- f.blocks :: x < nb
    requires if l in Names(nb, |ks|) then Solid(f.blocks[bb], info) else l in f.blocks && Solid(f.blocks[l], info)
    ensures l in SplitMany(f, bb, ks, nb, br).blocks && Solid(SplitMany(f, bb, ks, nb, br).blocks[l], info)
  {
    hide SplitMany, Solid;
    var g := SplitMany(f, bb, ks, nb, br);
    SplitManyFrame(f, bb, ks, nb, br);
    if l == bb || l in Names(nb, |ks|) {
      var j := if l == bb then 0 else nb + |ks| - l;
      assert l == PieceLabel(bb, nb, |ks|, j);
      SplitManyPieces(f, bb, ks, nb, br, j);
      PieceIsSlice(f.blocks[bb], g.blocks[l], bb, nb, ks, j);
      SliceOfSolid(f.blocks[bb], info, g.blocks[l], PieceStart(ks, j), PieceEnd(f.blocks[bb], ks, j), j == |ks|);
    } else {
      SameInstsSameCuts(g.blocks[l], f.blocks[l], info);
    }
  }

  lemma SplitManyKeepsPhis(f: Func, bb: Label, ks: seq<nat>, nb: Label, br: Id)
    requires bb in f.blocks && bb < nb && Ascending(ks, |f.blocks[bb].body|)
    requires forall l <- f.blocks :: l < nb
    ensures KeepsPhis(f, SplitMany(f, bb, ks, nb, br))
  {
    hide SplitMany;
    var g := SplitMany(f, bb, ks, nb, br);
    SplitManyFrame(f, bb, ks, nb, br);
    forall l | l in g.blocks
      ensures PhiIds(g.blocks[l].phis) == if l in f.blocks then PhiIds(f.blocks[l].phis) else []
    {
      if l == bb || l in Names(nb, |ks|) {
        var j := if l == bb then 0 else nb + |ks| - l;
        assert l == PieceLabel(bb, nb, |ks|, j);
        SplitManyPieces(f, bb, ks, nb, br, j);
      }
    }
  }

  // p has the code of piece j of b, split at its cuts.
  ghost predicate HoldsPiece(b: Block, p: Block, info: IteratorInfo, j: nat) {
    && j <= |BodyCuts(b, info)| && PhiIds(p.phis) == (if j == 0 then PhiIds(b.phis) else [])
    && IsSlice(b, p, PieceStart(BodyCuts(b, info), j), PieceEnd(b, BodyCuts(b, info), j), j == |BodyCuts(b, info)|)
  }

  lemma PieceHolds(b: Block, b0: Block, info: IteratorInfo, p: Block, bb: Label, nb: Label, j: nat)
    requires SameInsts(b, b0) && j <= |AllCuts(b, info)| && IsPiece(b, p, bb, nb, BodyCuts(b, info), j)
    ensures HoldsPiece(b0, p, info, j)
  {
    SameInstsSameCuts(b, b0, info);
    PieceIsSlice(b, p, bb, nb, BodyCuts(b, info), j);
    assert |PhiIds(b.phis)| == |PhiIds(b0.phis)|;
    assert BodyCuts(b, info) == BodyCuts(b0, info);
  }

  lemma WholeHolds(b: Block, info: IteratorInfo)
    requires AllCuts(b, info) == []
    ensures HoldsPiece(b, b, info, 0)
  {
  }

  // No piece of a block split at its cuts is without an instruction of the block.
  lemma NoPieceEmpty(b: Block, info: IteratorInfo, p: Block, bb: Label, nb: Label, j: nat)
    requires j <= |AllCuts(b, info)| && IsPiece(b, p, bb, nb, BodyCuts(b, info), j)
    ensures p.phis != [] || p.body != [] || p.term == b.term
  {
    hide Cuts;
    var ks := BodyCuts(b, info);
    CutsSorted(b, info, |Insts(b)|);
    assert |PhiIds(p.phis)| == |p.phis|;
    if 0 < j < |ks| {
      assert ks[j - 1] < ks[j];
    } else if j < |ks| {
      assert AllCuts(b, info)[0] > 0;
    }
  }

  // The mode recorded for piece j.
  function PieceMode(b: Block, info: IteratorInfo, j: nat): Mode
    requires j <= |AllCuts(b, info)| && AllCuts(b, info) != []
  {
    CutsSorted(b, info, |Insts(b)|);
    if j == 0 then InvertMode(CutMode(b, info, AllCuts(b, info)[0])) else CutMode(b, info, AllCuts(b, info)[j - 1])
  }

  // The mode recorded for piece j is that of the piece, unless the phis were mixed and the piece
  // is the phis or what comes right after them; an unconditional branch alone takes any mode.
  ghost predicate Trusted(b: Block, info: IteratorInfo, j: nat) {
    !MixedPhis(b, info) || j >= 2 || (j == 1 && |b.body| == 0 && IsUnconditional(b.term))
  }

  // After mixed phis the first cut is right behind them, and the modes recorded for the two
  // pieces it separates are that of the instruction behind it and, for the piece it starts, the
  // opposite one.
  lemma MixedCuts(b: Block, info: IteratorInfo)
    requires MixedPhis(b, info)
    ensures |b.phis| < |Insts(b)| && AllCuts(b, info) != [] && AllCuts(b, info)[0] == |b.phis|
    ensures PieceMode(b, info, 0) == ModeAt(b, info, |b.phis|)
    ensures PieceMode(b, info, 1) == InvertMode(ModeAt(b, info, |b.phis|))
  {
    hide Cuts;
    CutsSorted(b, info, |Insts(b)|);
    assert IsCut(b, info, |b.phis|) && |b.phis| in AllCuts(b, info);
  }

  // Phis of both modes have no one mode.
  lemma MixedUnlabelled(b: Block, info: IteratorInfo, m: Mode)
    requires MixedPhis(b, info)
    ensures !Labelled(b, info, m)
  {
    var k :| 0 <= k < |b.phis| && ModeAt(b, info, k) != ModeAt(b, info, 0);
    assert !Wild(b, k) && !Wild(b, 0);
  }

  // Splitting a block at its cuts leaves pieces of one mode, whatever its phis were, and the
  // recorded mode is that of the piece exactly when it can be trusted.
  lemma SeparatedPiece(b: Block, info: IteratorInfo, p: Block, bb: Label, nb: Label, j: nat)
    requires j <= |AllCuts(b, info)| && AllCuts(b, info) != []
    requires IsPiece(b, p, bb, nb, BodyCuts(b, info), j)
    ensures Solid(p, info)
    ensures Labelled(p, info, PieceMode(b, info, j)) <==> Trusted(b, info, j)
    ensures MixedPhis(b, info) && j == 0 ==> MixedPhis(p, info)
  {
    var ks := BodyCuts(b, info);
    var (lo, hi) := (PieceStart(ks, j), PieceEnd(b, ks, j));
    PieceIsSlice(b, p, bb, nb, ks, j);
    PieceUncut(b, info, j);
    SliceSolid(b, info, p, lo, hi, j == |ks|);
    if j == 0 {
      assert |PhiIds(p.phis)| == |p.phis| == |b.phis|;
      forall i | 0 <= i < |p.phis| ensures ModeAt(p, info, i) == ModeAt(b, info, i) {
        assert Insts(p)[i] == PhiIds(p.phis)[i];
      }
    }
    PieceLabels(b, info, p, bb, nb, j);
  }

  lemma PieceLabels(b: Block, info: IteratorInfo, p: Block, bb: Label, nb: Label, j: nat)
    requires j <= |AllCuts(b, info)| && AllCuts(b, info) != []
    requires IsPiece(b, p, bb, nb, BodyCuts(b, info), j) && (MixedPhis(b, info) && j == 0 ==> MixedPhis(p, info))
    ensures Labelled(p, info, PieceMode(b, info, j)) <==> Trusted(b, info, j)
  {
    hide IsPiece, Labelled, MixedPhis, AllCuts, PieceMode;
    if !MixedPhis(b, info) || j >= 2 {
      WholePieceLabelled(b, info, p, bb, nb, j);
    } else if j == 0 {
      MixedUnlabelled(p, info, PieceMode(b, info, 0));
    } else {
      SecondPiece(b, info, p, bb, nb);
    }
  }

  lemma WholePieceLabelled(b: Block, info: IteratorInfo, p: Block, bb: Label, nb: Label, j: nat)
    requires j <= |AllCuts(b, info)| && AllCuts(b, info) != [] && (!MixedPhis(b, info) || j >= 2)
    requires IsPiece(b, p, bb, nb, BodyCuts(b, info), j)
    ensures Labelled(p, info, PieceMode(b, info, j))
  {
    hide IsPiece, MixedPhis, AllCuts, PieceMode, Insts;
    forall i | 0 <= i < |Insts(p)| && !Wild(p, i) ensures ModeAt(p, info, i) == PieceMode(b, info, j) {
      PieceLabelled(b, info, p, bb, nb, j, i);
    }
  }

  // The piece right after mixed phis.
  lemma SecondPiece(b: Block, info: IteratorInfo, p: Block, bb: Label, nb: Label)
    requires MixedPhis(b, info) && AllCuts(b, info) != []
    requires IsPiece(b, p, bb, nb, BodyCuts(b, info), 1)
    ensures Labelled(p, info, PieceMode(b, info, 1)) <==> |b.body| == 0 && IsUnconditional(b.term)
  {
    var ks := BodyCuts(b, info);
    MixedCuts(b, info);
    PieceIsSlice(b, p, bb, nb, ks, 1);
    assert |PhiIds(p.phis)| == |p.phis| == 0 && ks[0] == 0;
    if |b.body| == 0 && IsUnconditional(b.term) {
      assert |p.body| == 0 && |ks| == 1;
    } else {
      SecondStarts(b, info, p, bb, nb);
      SliceInst(b, p, 0, PieceEnd(b, ks, 1), 1 == |ks|, 0);
      assert ModeAt(p, info, 0) != PieceMode(b, info, 1);
    }
  }

  lemma SecondStarts(b: Block, info: IteratorInfo, p: Block, bb: Label, nb: Label)
    requires MixedPhis(b, info) && AllCuts(b, info) != [] && !(|b.body| == 0 && IsUnconditional(b.term))
    requires IsPiece(b, p, bb, nb, BodyCuts(b, info), 1) && p.phis == [] && BodyCuts(b, info)[0] == 0
    ensures |Insts(p)| > 0 && !Wild(p, 0)
  {
    var ks := BodyCuts(b, info);
    if |ks| > 1 { assert ks[0] < ks[1]; }
  }

  lemma PieceLabelled(b: Block, info: IteratorInfo, p: Block, bb: Label, nb: Label, j: nat, i: nat)
    requires j <= |AllCuts(b, info)| && AllCuts(b, info) != [] && (!MixedPhis(b, info) || j >= 2)
    requires IsPiece(b, p, bb, nb, BodyCuts(b, info), j)
    requires i < |Insts(p)| && !Wild(p, i)
    ensures ModeAt(p, info, i) == PieceMode(b, info, j)
  {
    hide *;
    if j == 0 {
      FirstPieceLabelled(b, info, p, bb, nb, i);
    } else {
      LaterPieceLabelled(b, info, p, bb, nb, j, i);
    }
  }

  lemma LaterPieceLabelled(b: Block, info: IteratorInfo, p: Block, bb: Label, nb: Label, j: nat, i: nat)
    requires 0 < j <= |AllCuts(b, info)| && (!MixedPhis(b, info) || j >= 2)
    requires IsPiece(b, p, bb, nb, BodyCuts(b, info), j)
    requires i < |Insts(p)| && !Wild(p, i)
    ensures ModeAt(p, info, i) == PieceMode(b, info, j)
  {
    hide Cuts, Insts, MixedPhis;
    var ks := BodyCuts(b, info);
    LaterMode(b, info, j);
    PieceIsSlice(b, p, bb, nb, ks, j);
    PieceUncut(b, info, j);
    SliceMode(b, info, p, PieceStart(ks, j), PieceEnd(b, ks, j), j == |ks|, i);
  }

  // The recorded mode is that of the first instruction of the piece.
  lemma LaterMode(b: Block, info: IteratorInfo, j: nat)
    requires 0 < j <= |AllCuts(b, info)| && (!MixedPhis(b, info) || j >= 2)
    ensures |b.phis| <= AllCuts(b, info)[j - 1] < |Insts(b)|
    ensures PieceMode(b, info, j) == ModeAt(b, info, AllCuts(b, info)[j - 1])
  {
    hide Cuts, Insts, MixedPhis;
    CutsSorted(b, info, |Insts(b)|);
    if j >= 2 { assert AllCuts(b, info)[0] < AllCuts(b, info)[j - 1]; }
  }

  lemma FirstPieceLabelled(b: Block, info: IteratorInfo, p: Block, bb: Label, nb: Label, i: nat)
    requires AllCuts(b, info) != [] && !MixedPhis(b, info)
    requires IsPiece(b, p, bb, nb, BodyCuts(b, info), 0)
    requires i < |Insts(p)| && !Wild(p, i)
    ensures ModeAt(p, info, i) == PieceMode(b, info, 0)
  {
    hide Cuts;
    var ks := BodyCuts(b, info);
    CutsAlternate(b, info, 0);
    assert |PhiIds(p.phis)| == |p.phis| == |b.phis|;
    if i < |p.phis| {
      assert Insts(p)[i] == PhiIds(p.phis)[i] == PhiIds(b.phis)[i] == Insts(b)[i];
      assert ModeAt(b, info, i) == ModeAt(b, info, 0);
    } else {
      PieceIsSlice(b, p, bb, nb, ks, 0);
      SliceInst(b, p, 0, ks[0], false, i);
      NoCutBeforeFirst(b, info, i);
      ModesAgree(b, info, 0, i);
    }
  }

  lemma NoCutBeforeFirst(b: Block, info: IteratorInfo, i: nat)
    requires AllCuts(b, info) != [] && i < AllCuts(b, info)[0]
    ensures forall c <- AllCuts(b, info) :: !(0 < c <= i)
  {
    CutsSorted(b, info, |Insts(b)|);
    forall c <- AllCuts(b, info) ensures !(0 < c <= i) {
      var q :| 0 <= q < |AllCuts(b, info)| && AllCuts(b, info)[q] == c;
    }
  }
}
