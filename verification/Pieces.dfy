/** What a block turns into when it is split at all its cuts, and what every such split
    leaves alone: runs, phis, and the pieces that earlier loops have already separated. */
module Pieces {
  import opened Ssa
  import opened Split
  import opened Partition

  // ---------- one mode ----------

  // The instructions after the phis, other than an unconditional branch, share one mode.
  ghost predicate Solid(b: Block, info: IteratorInfo) {
    forall i, j :: |b.phis| <= i < j < |Insts(b)| && !Wild(b, j) ==> ModeAt(b, info, i) == ModeAt(b, info, j)
  }

  // Every instruction, phis included, other than an unconditional branch, has mode m.
  ghost predicate Labelled(b: Block, info: IteratorInfo, m: Mode) {
    forall i :: 0 <= i < |Insts(b)| && !Wild(b, i) ==> ModeAt(b, info, i) == m
  }

  lemma LabelledHasNoCuts(b: Block, info: IteratorInfo, m: Mode)
    requires Labelled(b, info, m)
    ensures AllCuts(b, info) == []
  {
    forall i | 0 <= i < |Insts(b)| ensures !IsCut(b, info, i) {
      if 0 < i && !Wild(b, i) {
        assert ModeAt(b, info, i) == m && ModeAt(b, info, i - 1) == m;
      }
      assert !MixedPhis(b, info) by {
        forall k | 0 <= k < |b.phis| ensures ModeAt(b, info, k) == m { assert !Wild(b, k); }
      }
    }
    NoCuts(b, info, |Insts(b)|);
  }

  lemma {:induction false} NoCuts(b: Block, info: IteratorInfo, n: nat)
    requires n <= |Insts(b)| && forall i :: 0 <= i < |Insts(b)| ==> !IsCut(b, info, i)
    ensures Cuts(b, info, n) == []
  {
    if n > 0 { NoCuts(b, info, n - 1); }
  }

  lemma MixedHasCuts(b: Block, info: IteratorInfo)
    requires MixedPhis(b, info)
    ensures AllCuts(b, info) != []
  {
    CutsSorted(b, info, |Insts(b)|);
    assert IsCut(b, info, |b.phis|);
  }

  // ---------- slices of a block ----------

  // The piece of b from body position lo to hi, ending in t: an inserted branch, or the
  // terminator of b when the slice is the last one.
  ghost predicate IsSlice(b: Block, p: Block, lo: nat, hi: nat, last: bool) {
    && lo <= hi <= |b.body|
    && p.body == b.body[lo..hi]
    && if last then hi == |b.body| && p.term == b.term else IsUnconditional(p.term)
  }

  ghost predicate Uncut(b: Block, info: IteratorInfo, lo: nat, hi: nat, last: bool) {
    forall c <- AllCuts(b, info) :: !(|b.phis| + lo < c < |b.phis| + hi) && (last ==> c <= |b.phis| + lo)
  }

  lemma SliceInst(b: Block, p: Block, lo: nat, hi: nat, last: bool, j: nat)
    requires IsSlice(b, p, lo, hi, last)
    requires |p.phis| <= j < |Insts(p)| && !Wild(p, j)
    ensures var i := |b.phis| + lo + (j - |p.phis|);
            i < |Insts(b)| && !Wild(b, i) && Insts(b)[i] == Insts(p)[j] && (i < |b.phis| + hi || last)
  {
    var i := |b.phis| + lo + (j - |p.phis|);
    if j == |Insts(p)| - 1 {
      assert Insts(p)[j] == p.term.id;
      assert Insts(b)[i] == b.term.id;
    } else {
      assert Insts(p)[j] == p.body[j - |p.phis|].id;
      assert Insts(b)[i] == b.body[lo + (j - |p.phis|)].id;
    }
  }

  lemma SliceMode(b: Block, info: IteratorInfo, p: Block, lo: nat, hi: nat, last: bool, j: nat)
    requires IsSlice(b, p, lo, hi, last) && Uncut(b, info, lo, hi, last)
    requires |p.phis| <= j < |Insts(p)| && !Wild(p, j)
    ensures |b.phis| + lo < |Insts(b)| && ModeAt(p, info, j) == ModeAt(b, info, |b.phis| + lo)
  {
    SliceInst(b, p, lo, hi, last, j);
    ModesAgree(b, info, |b.phis| + lo, |b.phis| + lo + (j - |p.phis|));
  }

  lemma SliceSolid(b: Block, info: IteratorInfo, p: Block, lo: nat, hi: nat, last: bool)
    requires IsSlice(b, p, lo, hi, last) && Uncut(b, info, lo, hi, last)
    ensures Solid(p, info)
  {
    forall i, j | |p.phis| <= i < j < |Insts(p)| && !Wild(p, j)
      ensures ModeAt(p, info, i) == ModeAt(p, info, j)
    {
      SliceMode(b, info, p, lo, hi, last, i);
      SliceMode(b, info, p, lo, hi, last, j);
    }
  }

  // A slice of a solid block is solid whatever the loop it was separated for.
  lemma SliceOfSolid(b: Block, info: IteratorInfo, p: Block, lo: nat, hi: nat, last: bool)
    requires IsSlice(b, p, lo, hi, last) && Solid(b, info)
    ensures Solid(p, info)
  {
    forall i, j | |p.phis| <= i < j < |Insts(p)| && !Wild(p, j)
      ensures ModeAt(p, info, i) == ModeAt(p, info, j)
    {
      SliceInst(b, p, lo, hi, last, i);
      SliceInst(b, p, lo, hi, last, j);
      var d := |b.phis| + lo - |p.phis|;
      assert ModeAt(b, info, i + d) == ModeAt(b, info, j + d);
    }
  }

  lemma SameInstsSameCuts(a: Block, b: Block, info: IteratorInfo)
    requires SameInsts(a, b)
    ensures Insts(a) == Insts(b) && |a.phis| == |b.phis| && a.term == b.term
    ensures MixedPhis(a, info) == MixedPhis(b, info)
    ensures forall n :: 0 <= n <= |Insts(a)| ==> Cuts(a, info, n) == Cuts(b, info, n)
    ensures Solid(a, info) <==> Solid(b, info)
  {
    assert |PhiIds(a.phis)| == |PhiIds(b.phis)|;
    assert Insts(a) == Insts(b);
    forall i | 0 <= i < |Insts(a)| ensures ModeAt(a, info, i) == ModeAt(b, info, i) && Wild(a, i) == Wild(b, i) {}
    SameCuts(a, b, info, |Insts(a)|);
    forall n | 0 <= n <= |Insts(a)| ensures Cuts(a, info, n) == Cuts(b, info, n) { SameCuts(a, b, info, n); }
  }

  lemma {:induction false} SameCuts(a: Block, b: Block, info: IteratorInfo, n: nat)
    requires Insts(a) == Insts(b) && |a.phis| == |b.phis| && a.term == b.term && n <= |Insts(a)|
    ensures Cuts(a, info, n) == Cuts(b, info, n)
  {
    if n > 0 {
      SameCuts(a, b, info, n - 1);
      assert MixedPhis(a, info) == MixedPhis(b, info) by {
        forall k | 0 <= k < |a.phis| ensures ModeAt(a, info, k) == ModeAt(b, info, k) {}
      }
    }
  }

  // ---------- splitting at many positions, from the back ----------

  ghost predicate Ascending(ks: seq<nat>, top: nat) {
    (forall j, k :: 0 <= j < k < |ks| ==> ks[j] < ks[k]) && (forall j :: 0 <= j < |ks| ==> ks[j] <= top)
  }

  ghost function SplitMany(f: Func, bb: Label, ks: seq<nat>, nb: Label, br: Id): Func
    requires bb in f.blocks && bb < nb && Ascending(ks, |f.blocks[bb].body|)
    decreases |ks|
  {
    if ks == [] then f
    else
      var n := |ks| - 1;
      SplitMany(SplitBlock(f, bb, ks[n], nb, br), bb, ks[..n], nb + 1, br + 1)
  }

  ghost function Names(from: nat, n: nat): (r: set<nat>)
    ensures forall x :: x in r <==> from <= x < from + n
    decreases n
  {
    if n == 0 then {} else {from} + Names(from + 1, n - 1)
  }

  lemma SplitManyUnfold(f: Func, bb: Label, ks: seq<nat>, nb: Label, br: Id)
    requires bb in f.blocks && bb < nb && Ascending(ks, |f.blocks[bb].body|) && ks != []
    ensures var n := |ks| - 1;
            var g := SplitBlock(f, bb, ks[n], nb, br);
            bb in g.blocks && |g.blocks[bb].body| == ks[n] && Ascending(ks[..n], ks[n]) &&
            SplitMany(f, bb, ks, nb, br) == SplitMany(g, bb, ks[..n], nb + 1, br + 1)
  {
  }

  lemma {:induction false} SplitManyKeepsRuns(f: Func, bb: Label, ks: seq<nat>, nb: Label, br: Id)
    requires bb in f.blocks && bb < nb && Ascending(ks, |f.blocks[bb].body|) && Below(f, nb, br)
    ensures SameRuns(f, SplitMany(f, bb, ks, nb, br), Names(br, |ks|))
    ensures Below(SplitMany(f, bb, ks, nb, br), nb + |ks|, br + |ks|)
    decreases |ks|
  {
    hide SameRuns, Below;
    if ks == [] {
      SameRunsReflexive(f);
      assert Names(br, 0) == {};
    } else {
      var n := |ks| - 1;
      var g := SplitBlock(f, bb, ks[n], nb, br);
      SplitManyUnfold(f, bb, ks, nb, br);
      SplitKeepsRuns(f, bb, ks[n], nb, br);
      SplitBelow(f, bb, ks[n], nb, br);
      SplitManyKeepsRuns(g, bb, ks[..n], nb + 1, br + 1);
      SameRunsTransitive(f, g, SplitMany(f, bb, ks, nb, br), {br}, Names(br + 1, n));
      assert {br} + Names(br + 1, n) == Names(br, |ks|);
    }
  }

  // Piece j counts from the front; the first keeps the old label, the others are named in
  // the order in which the splits are made, which is from the back.
  function PieceLabel(bb: Label, nb: Label, n: nat, j: nat): Label
    requires j <= n
  {
    if j == 0 then bb else nb + (n - j)
  }

  function PieceStart(ks: seq<nat>, j: nat): nat
    requires j <= |ks|
  {
    if j == 0 then 0 else ks[j - 1]
  }

  function PieceEnd(b: Block, ks: seq<nat>, j: nat): nat
    requires j <= |ks|
  {
    if j == |ks| then |b.body| else ks[j]
  }

  // Piece j holds its slice of the instructions in order, only the first has phis, and each
  // piece but the last branches to the next one.
  ghost predicate IsPiece(b: Block, p: Block, bb: Label, nb: Label, ks: seq<nat>, j: nat)
    requires j <= |ks| && Ascending(ks, |b.body|)
  {
    && PhiIds(p.phis) == (if j == 0 then PhiIds(b.phis) else [])
    && p.body == b.body[PieceStart(ks, j)..PieceEnd(b, ks, j)]
    && if j == |ks| then p.term == b.term
       else p.term.ops == [] && p.term.dests == [PieceLabel(bb, nb, |ks|, j + 1)]
  }

  lemma SplitBlockPieces(f: Func, bb: Label, k: nat, nb: Label, br: Id)
    requires bb in f.blocks && k <= |f.blocks[bb].body| && nb !in f.blocks
    ensures var g := SplitBlock(f, bb, k, nb, br);
            && g.blocks.Keys == f.blocks.Keys + {nb}
            && (forall l <- f.blocks :: l != bb ==> SameInsts(g.blocks[l], f.blocks[l]))
            && IsPiece(f.blocks[bb], g.blocks[bb], bb, nb, [k], 0)
            && IsPiece(f.blocks[bb], g.blocks[nb], bb, nb, [k], 1)
  {
    var g := SplitBlock(f, bb, k, nb, br);
    forall l | l in f.blocks ensures PhiIds(g.blocks[l].phis) == PhiIds(f.blocks[l].phis) {}
  }

  lemma PieceOfFront(b: Block, front: Block, p: Block, bb: Label, nb: Label, ks: seq<nat>, j: nat)
    requires Ascending(ks, |b.body|) && j < |ks|
    requires IsPiece(b, front, bb, nb, [ks[|ks| - 1]], 0)
    requires Ascending(ks[..|ks| - 1], |front.body|)
    requires IsPiece(front, p, bb, nb + 1, ks[..|ks| - 1], j)
    ensures IsPiece(b, p, bb, nb, ks, j)
  {
    var top := ks[|ks| - 1];
    assert front.body == b.body[..top];
    assert j > 0 ==> ks[j - 1] < ks[j];
    SliceOfPrefix(b.body, PieceStart(ks, j), PieceEnd(b, ks, j), top);
  }

  lemma SliceOfPrefix(body: seq<Instr>, lo: nat, hi: nat, top: nat)
    requires lo <= hi <= top <= |body|
    ensures body[..top][lo..hi] == body[lo..hi]
  {
  }

  lemma PieceOfBack(b: Block, back: Block, p: Block, bb: Label, nb: Label, ks: seq<nat>)
    requires Ascending(ks, |b.body|) && ks != []
    requires IsPiece(b, back, bb, nb, [ks[|ks| - 1]], 1)
    requires SameInsts(p, back)
    ensures IsPiece(b, p, bb, nb, ks, |ks|)
  {
  }

  lemma {:induction false} SplitManyFrame(f: Func, bb: Label, ks: seq<nat>, nb: Label, br: Id)
    requires bb in f.blocks && bb < nb && Ascending(ks, |f.blocks[bb].body|)
    requires forall l <- f.blocks :: l < nb
    ensures SplitMany(f, bb, ks, nb, br).blocks.Keys == f.blocks.Keys + Names(nb, |ks|)
    ensures forall l <- f.blocks :: l != bb ==> SameInsts(SplitMany(f, bb, ks, nb, br).blocks[l], f.blocks[l])
    decreases |ks|
  {
    hide SplitBlock;
    if ks != [] {
      var n := |ks| - 1;
      var h := SplitBlock(f, bb, ks[n], nb, br);
      SplitBlockPieces(f, bb, ks[n], nb, br);
      SplitManyUnfold(f, bb, ks, nb, br);
      SplitManyFrame(h, bb, ks[..n], nb + 1, br + 1);
    }
  }

  lemma SplitNone(f: Func, bb: Label, nb: Label, br: Id)
    requires bb in f.blocks && bb < nb
    ensures SplitMany(f, bb, [], nb, br) == f
    ensures IsPiece(f.blocks[bb], f.blocks[bb], bb, nb, [], 0)
  {
    assert f.blocks[bb].body == f.blocks[bb].body[0..|f.blocks[bb].body|];
  }

  lemma SplitManyBack(f: Func, bb: Label, ks: seq<nat>, nb: Label, br: Id)
    requires bb in f.blocks && bb < nb && Ascending(ks, |f.blocks[bb].body|)
    requires forall l <- f.blocks :: l < nb
    ensures var g := SplitMany(f, bb, ks, nb, br);
            var l := PieceLabel(bb, nb, |ks|, |ks|);
            l in g.blocks && IsPiece(f.blocks[bb], g.blocks[l], bb, nb, ks, |ks|)
  {
    hide SplitBlock, SplitMany, IsPiece, SameInsts;
    if ks == [] {
      SplitNone(f, bb, nb, br);
    } else {
      var n := |ks| - 1;
      var h := SplitBlock(f, bb, ks[n], nb, br);
      SplitManyUnfold(f, bb, ks, nb, br);
      SplitBlockPieces(f, bb, ks[n], nb, br);
      SplitManyFrame(h, bb, ks[..n], nb + 1, br + 1);
      PieceOfBack(f.blocks[bb], h.blocks[nb], SplitMany(f, bb, ks, nb, br).blocks[nb], bb, nb, ks);
    }
  }

  // The main fact about the pieces: nothing is lost, and nothing moves out of its place.
  lemma {:induction false} SplitManyPieces(f: Func, bb: Label, ks: seq<nat>, nb: Label, br: Id, j: nat)
    requires bb in f.blocks && bb < nb && Ascending(ks, |f.blocks[bb].body|)
    requires forall l <- f.blocks :: l < nb
    requires j <= |ks|
    ensures var g := SplitMany(f, bb, ks, nb, br);
            var l := PieceLabel(bb, nb, |ks|, j);
            l in g.blocks && IsPiece(f.blocks[bb], g.blocks[l], bb, nb, ks, j)
    decreases |ks|
  {
    hide SplitBlock, SplitMany, IsPiece, SameInsts;
    if j == |ks| {
      SplitManyBack(f, bb, ks, nb, br);
    } else {
      var n := |ks| - 1;
      var h := SplitBlock(f, bb, ks[n], nb, br);
      SplitManyUnfold(f, bb, ks, nb, br);
      SplitBlockPieces(f, bb, ks[n], nb, br);
      SplitManyPieces(h, bb, ks[..n], nb + 1, br + 1, j);
      assert PieceLabel(bb, nb, |ks|, j) == PieceLabel(bb, nb + 1, n, j);
      PieceOfFront(f.blocks[bb], h.blocks[bb], SplitMany(f, bb, ks, nb, br).blocks[PieceLabel(bb, nb + 1, n, j)], bb, nb, ks, j);
    }
  }

  // The code of the first n pieces, one after the other.
  ghost function JoinedPieces(g: Func, bb: Label, nb: Label, count: nat, n: nat): seq<Instr>
    requires n <= count + 1
  {
    if n == 0 then [] else JoinedPieces(g, bb, nb, count, n - 1) + BodyOf(g, PieceLabel(bb, nb, count, n - 1))
  }

  ghost function BodyOf(g: Func, l: Label): seq<Instr> { if l in g.blocks then g.blocks[l].body else [] }

  // The pieces together are the block.
  lemma PiecesJoin(f: Func, bb: Label, ks: seq<nat>, nb: Label, br: Id)
    requires bb in f.blocks && bb < nb && Ascending(ks, |f.blocks[bb].body|)
    requires forall l <- f.blocks :: l < nb
    ensures JoinedPieces(SplitMany(f, bb, ks, nb, br), bb, nb, |ks|, |ks| + 1) == f.blocks[bb].body
  {
    hide SplitMany, JoinedPieces;
    FirstPiecesJoin(f, bb, ks, nb, br, |ks| + 1);
  }

  lemma {:induction false} FirstPiecesJoin(f: Func, bb: Label, ks: seq<nat>, nb: Label, br: Id, n: nat)
    requires bb in f.blocks && bb < nb && Ascending(ks, |f.blocks[bb].body|)
    requires forall l <- f.blocks :: l < nb
    requires n <= |ks| + 1
    ensures var b := f.blocks[bb];
            JoinedPieces(SplitMany(f, bb, ks, nb, br), bb, nb, |ks|, n) == b.body[..if n == 0 then 0 else PieceEnd(b, ks, n - 1)]
  {
    hide SplitMany, IsPiece, PieceEnd;
    if n > 0 {
      FirstPiecesJoin(f, bb, ks, nb, br, n - 1);
      SplitManyPieces(f, bb, ks, nb, br, n - 1);
      NextPieceJoins(f.blocks[bb], SplitMany(f, bb, ks, nb, br).blocks[PieceLabel(bb, nb, |ks|, n - 1)], bb, nb, ks, n - 1);
    }
  }

  lemma NextPieceJoins(b: Block, p: Block, bb: Label, nb: Label, ks: seq<nat>, j: nat)
    requires j <= |ks| && Ascending(ks, |b.body|) && IsPiece(b, p, bb, nb, ks, j)
    ensures b.body[..if j == 0 then 0 else PieceEnd(b, ks, j - 1)] + p.body == b.body[..PieceEnd(b, ks, j)]
  {
    hide PieceLabel, PhiIds;
    assert 0 < j < |ks| ==> ks[j - 1] < ks[j];
    PrefixMore(b.body, PieceStart(ks, j), PieceEnd(b, ks, j));
  }

  lemma PrefixMore(body: seq<Instr>, lo: nat, hi: nat)
    requires lo <= hi <= |body|
    ensures body[..lo] + body[lo..hi] == body[..hi]
  {
  }
}
