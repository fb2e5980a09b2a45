/** The separator as a pass over a function whose blocks and loops it changes in place. */
module SeparatorPass {
  import opened Collections
  import opened Ssa
  import Split
  import opened Partition
  import opened Pieces
  import opened BlockSeparator
  import opened Slices

  function IndexOf(xs: seq<Id>, x: Id): (k: nat)
    requires x in xs
    ensures k < |xs| && xs[k] == x && x !in xs[..k]
  {
    if xs[0] == x then 0
    else
      var k := 1 + IndexOf(xs[1..], x);
      assert xs[..k] == [xs[0]] + xs[1..][..k - 1];
      k
  }

  // The body position llvm::SplitBlock uses: it never separates phis.
  function SplitPosition(b: Block, at: Id): (k: nat)
    requires at in Insts(b)
    ensures k <= |b.body|
  {
    var i := IndexOf(Insts(b), at);
    if i < |b.phis| then 0 else i - |b.phis|
  }

  ghost predicate DistinctInsts(f: Func) { forall l <- f.blocks :: Distinct(Insts(f.blocks[l])) }

  // No loop lists a block twice, and all the blocks exist.
  ghost predicate KnownLoops(f: Func, loops: seq<seq<Label>>) {
    forall lp <- loops :: Distinct(lp) && forall l <- lp :: l in f.blocks
  }

  lemma SplitDistinct(f: Func, bb: Label, k: nat, nb: Label, br: Id)
    requires bb in f.blocks && k <= |f.blocks[bb].body| && Split.Below(f, nb, br) && DistinctInsts(f)
    ensures DistinctInsts(Split.SplitBlock(f, bb, k, nb, br))
  {
    hide Distinct, Split.BlockBelow;
    var g := Split.SplitBlock(f, bb, k, nb, br);
    var b := f.blocks[bb];
    InstsBelow(b, nb, br);
    DistinctParts(Insts(b), |b.phis| + k, br);
    forall l | l in g.blocks ensures Distinct(Insts(g.blocks[l])) {
      if l == nb {
        assert Insts(g.blocks[l]) == Insts(b)[|b.phis| + k..];
      } else if l == bb {
        assert Insts(g.blocks[l]) == Insts(b)[..|b.phis| + k] + [br];
      } else {
        assert Insts(g.blocks[l]) == Insts(f.blocks[l]);
      }
    }
  }

  lemma DistinctParts(xs: seq<Id>, k: nat, x: Id)
    requires Distinct(xs) && k <= |xs| && forall i :: 0 <= i < |xs| ==> xs[i] < x
    ensures Distinct(xs[k..]) && Distinct(xs[..k] + [x])
  {
  }

  lemma InstsBelow(b: Block, nb: Label, br: Id)
    requires Split.BlockBelow(b, nb, br)
    ensures forall i :: 0 <= i < |Insts(b)| ==> Insts(b)[i] < br
  {
    forall i | 0 <= i < |Insts(b)| ensures Insts(b)[i] < br {
      if i < |b.phis| {
        assert Split.PhiBelow(b.phis[i], nb, br);
      } else if i < |b.phis| + |b.body| {
        assert Split.InstrBelow(b.body[i - |b.phis|], br);
      }
    }
  }

  lemma JoinKnown(f: Func, loops: seq<seq<Label>>, bb: Label, k: nat, nb: Label, br: Id)
    requires bb in f.blocks && k <= |f.blocks[bb].body| && KnownLoops(f, loops) && nb !in f.blocks
    ensures KnownLoops(Split.SplitBlock(f, bb, k, nb, br), Join(loops, bb, nb))
  {
    var g := Split.SplitBlock(f, bb, k, nb, br);
    var js := Join(loops, bb, nb);
    forall lp | lp in js ensures Distinct(lp) && forall l <- lp :: l in g.blocks {
      var j :| 0 <= j < |js| && js[j] == lp;
      assert loops[j] in loops;
      forall l | l in lp ensures l in g.blocks {
        assert l in loops[j] || l == nb;
      }
    }
  }

  // Position in the block of the point with index n, while the points after it have been split off.
  lemma PointPosition(b: Block, info: IteratorInfo, now: Block, n: nat)
    requires Distinct(Insts(b)) && n < |PointsOf(b, info)|
    requires PhiIds(now.phis) == PhiIds(b.phis)
    requires |AllCuts(b, info)| == |PointsOf(b, info)|
    requires if n + 1 == |PointsOf(b, info)| then now.body == b.body && now.term == b.term
             else now.body == b.body[..BodyCuts(b, info)[n + 1]]
    ensures PointsOf(b, info)[n].at in Insts(now)
    ensures SplitPosition(now, PointsOf(b, info)[n].at) == BodyCuts(b, info)[n]
  {
    PointsAreCuts(b, info, |Insts(b)|);
    CutsSorted(b, info, |Insts(b)|);
    var c := AllCuts(b, info)[n];
    assert |now.phis| == |PhiIds(now.phis)| == |b.phis|;
    assert PointsOf(b, info)[n].at == Insts(b)[c];
    assert forall q :: 0 <= q <= c ==> q < |Insts(now)| && Insts(now)[q] == Insts(b)[q];
    assert forall q :: 0 <= q < c ==> Insts(now)[q] != Insts(now)[c];
    var i := IndexOf(Insts(now), Insts(b)[c]);
  }

  method FindSplitPosition(b: Block, at: Id) returns (k: nat)
    requires at in Insts(b)
    ensures k == SplitPosition(b, at)
  {
    var insts := Insts(b);
    var i := 0;
    while insts[i] != at
      invariant 0 <= i < |insts| && at !in insts[..i]
      decreases |insts| - i
    {
      i := i + 1;
      assert insts[..i] == insts[..i - 1] + [insts[i - 1]];
      if i == |insts| {
        assert false;
      }
    }
    ghost var found := i;
    assert found == IndexOf(insts, at);
    while i < |b.phis|
      invariant found <= i && (i == found || i <= |b.phis|)
    {
      i := i + 1;
    }
    k := i - |b.phis|;
  }

  // ---------- looking for the points ----------

  method PhisAgree(b: Block, info: IteratorInfo) returns (same: bool)
    ensures same <==> !MixedPhis(b, info)
  {
    same := true;
    var p := 0;
    while p < |b.phis| && same
      invariant p <= |b.phis|
      invariant same <==> forall k :: 0 <= k < p ==> ModeAt(b, info, k) == ModeAt(b, info, 0)
    {
      same := ModeAt(b, info, p) == ModeAt(b, info, 0);
      p := p + 1;
    }
  }

  // The scan from the first instruction considered; the cut after mixed phis is not its business.
  method ScanFrom(b: Block, info: IteratorInfo, first: nat) returns (pts: seq<Point>, lastSeenMode: Mode)
    requires first == if MixedPhis(b, info) then |b.phis| else 0
    ensures PointsOf(b, info) == (if MixedPhis(b, info) then [PointAt(b, info, first)] else []) + pts
    ensures pts == [] ==> first < |Insts(b)| && lastSeenMode == ModeAt(b, info, first)
  {
    hide ModeAt, IsCut, Cuts;
    var insts := Insts(b);
    lastSeenMode := ModeAt(b, info, first);
    pts := [];
    var i := first + 1;
    FirstPoint(b, info);
    while i < |insts|
      invariant first < i <= |insts|
      invariant PointsUpTo(b, info, i) == (if MixedPhis(b, info) then [PointAt(b, info, first)] else []) + pts
      invariant i < |insts| ==> lastSeenMode == ModeAt(b, info, i - 1)
      invariant pts == [] ==> lastSeenMode == ModeAt(b, info, first)
    {
      var isUncondBr := i == |insts| - 1 && IsUnconditional(b.term);
      var curMode := ModeAt(b, info, i);
      CutIsChange(b, info, i);
      if lastSeenMode != curMode && !isUncondBr {
        pts := pts + [Point(insts[i], curMode)];
        lastSeenMode := curMode;
      }
      i := i + 1;
    }
  }

  lemma CutIsChange(b: Block, info: IteratorInfo, i: nat)
    requires 0 < i < |Insts(b)| && (MixedPhis(b, info) ==> |b.phis| < i)
    ensures IsCut(b, info, i) <==> ModeAt(b, info, i) != ModeAt(b, info, i - 1) && !Wild(b, i)
    ensures CutMode(b, info, i) == ModeAt(b, info, i)
  {
  }

  lemma FirstPoint(b: Block, info: IteratorInfo)
    ensures MixedPhis(b, info) ==> PointsUpTo(b, info, |b.phis| + 1) == [PointAt(b, info, |b.phis|)]
    ensures !MixedPhis(b, info) ==> PointsUpTo(b, info, 1) == []
  {
    NoPointsInPhis(b, info, |b.phis|);
    NoPointsInPhis(b, info, 0);
  }

  // The scan of one block: its points, and the mode of the block when it has only one.
  method ScanBlock(b: Block, info: IteratorInfo) returns (pts: seq<Point>, uniform: bool, lastSeenMode: Mode)
    ensures pts == PointsOf(b, info)
    ensures !MixedPhis(b, info) ==> (uniform <==> pts == [])
    ensures pts == [] ==> uniform && Labelled(b, info, lastSeenMode)
  {
    hide PointsUpTo;
    var same := PhisAgree(b, info);
    var first := if same then 0 else |b.phis|;
    pts, lastSeenMode := ScanFrom(b, info, first);
    uniform := pts == [];
    if !same {
      pts := [Point(Insts(b)[first], InvertMode(ModeAt(b, info, first)))] + pts;
    }
    if pts == [] {
      PointsAreCuts(b, info, |Insts(b)|);
      NoCutsLabelled(b, info);
    }
  }

  lemma NoCutsLabelled(b: Block, info: IteratorInfo)
    requires AllCuts(b, info) == []
    ensures Labelled(b, info, ModeAt(b, info, 0)) && Solid(b, info) && !MixedPhis(b, info)
  {
    if MixedPhis(b, info) { MixedHasCuts(b, info); }
    forall i | 0 <= i < |Insts(b)| && !Wild(b, i) ensures ModeAt(b, info, i) == ModeAt(b, info, 0) {
      ModesAgree(b, info, 0, i);
    }
  }

  lemma {:induction false} NoPointsInPhis(b: Block, info: IteratorInfo, n: nat)
    requires n <= |b.phis|
    ensures PointsUpTo(b, info, n) == []
    ensures MixedPhis(b, info) ==> PointsUpTo(b, info, |b.phis| + 1) == PointsUpTo(b, info, |b.phis|) + [PointAt(b, info, |b.phis|)]
  {
    if n > 0 {
      NoPointsInPhis(b, info, n - 1);
      if !MixedPhis(b, info) {
        assert ModeAt(b, info, n - 1) == ModeAt(b, info, 0);
      }
    }
  }

  // ---------- the unit ----------

  // The scan finds nothing to do in the loop.
  ghost predicate Quiet(f: Func, loop: seq<Label>, info: IteratorInfo) {
    forall l <- loop :: l in f.blocks && PointsOf(f.blocks[l], info) == []
  }

  ghost predicate PointsFound(f: Func, loop: seq<Label>, info: IteratorInfo, points: map<Label, seq<Point>>) {
    && points.Keys <= (set l | l in loop)
    && forall l <- loop :: l in f.blocks && (if PointsOf(f.blocks[l], info) == [] then l !in points
                                              else l in points && points[l] == PointsOf(f.blocks[l], info))
  }

  lemma PointsFoundNone(f: Func, info: IteratorInfo)
    ensures PointsFound(f, [], info, map[]) && ModesFound(f, [], info, map[], map[])
  {
  }

  lemma PointsFoundMore(f: Func, xs: seq<Label>, bb: Label, info: IteratorInfo, points: map<Label, seq<Point>>)
    requires PointsFound(f, xs, info, points) && bb !in xs && bb in f.blocks
    ensures var pts := PointsOf(f.blocks[bb], info);
            PointsFound(f, xs + [bb], info, if pts != [] then points[bb := pts] else points)
  {
    hide PointsOf;
    assert bb !in points;
  }

  lemma ModesFoundMore(f: Func, xs: seq<Label>, bb: Label, info: IteratorInfo, points: map<Label, seq<Point>>,
                       modes: map<Label, Mode>, pts: seq<Point>, uniform: bool, m: Mode)
    requires PointsFound(f, xs, info, points) && ModesFound(f, xs, info, points, modes) && bb !in xs && bb in f.blocks
    requires !MixedPhis(f.blocks[bb], info) ==> (uniform <==> pts == [])
    requires pts == [] ==> uniform && Labelled(f.blocks[bb], info, m)
    ensures ModesFound(f, xs + [bb], info, if pts != [] then points[bb := pts] else points, if uniform then modes[bb := m] else modes)
  {
    hide PointsOf, Labelled, MixedPhis;
    assert bb !in points && bb !in modes;
  }

  lemma PointsFoundAny(f: Func, loop: seq<Label>, info: IteratorInfo, points: map<Label, seq<Point>>)
    requires PointsFound(f, loop, info, points)
    ensures points != map[] <==> !Quiet(f, loop, info)
  {
    hide PointsOf;
    if points != map[] {
      var l :| l in points;
      assert l in loop;
    }
  }

  // A mode is recorded for every block without points, and for no block with points whose
  // phis have one mode.
  ghost predicate ModesFound(f: Func, loop: seq<Label>, info: IteratorInfo,
                             points: map<Label, seq<Point>>, modes: map<Label, Mode>)
  {
    && modes.Keys <= (set l | l in loop)
    && forall l <- loop :: l in f.blocks
         && (l !in points ==> l in modes && Labelled(f.blocks[l], info, modes[l]))
         && (l in points && !MixedPhis(f.blocks[l], info) ==> l !in modes)
  }

  ghost predicate WellFormed(f: Func, loops: seq<seq<Label>>, nextLabel: Label, nextId: Id) {
    Split.Below(f, nextLabel, nextId) && DistinctInsts(f) && KnownLoops(f, loops)
  }

  lemma FreshLabel(f: Func, nb: Label, br: Id)
    requires Split.Below(f, nb, br)
    ensures nb !in f.blocks
  {
  }

  lemma SplitWellFormed(f: Func, loops: seq<seq<Label>>, bb: Label, k: nat, nb: Label, br: Id)
    requires bb in f.blocks && k <= |f.blocks[bb].body| && WellFormed(f, loops, nb, br)
    ensures WellFormed(Split.SplitBlock(f, bb, k, nb, br), Join(loops, bb, nb), nb + 1, br + 1)
  {
    FreshLabel(f, nb, br);
    hide Split.Below, DistinctInsts, KnownLoops, Split.SplitBlock;
    Split.SplitBelow(f, bb, k, nb, br);
    SplitDistinct(f, bb, k, nb, br);
    JoinKnown(f, loops, bb, k, nb, br);
  }

  function Emplace(m: map<Label, Mode>, l: Label, v: Mode): map<Label, Mode> { if l in m then m else m[l := v] }

  lemma CountPoints(b: Block, info: IteratorInfo)
    ensures |PointsOf(b, info)| == |AllCuts(b, info)|
    ensures forall k :: 0 <= k < |PointsOf(b, info)| ==>
              AllCuts(b, info)[k] < |Insts(b)| && PointsOf(b, info)[k].mode == CutMode(b, info, AllCuts(b, info)[k])
  {
    PointsAreCuts(b, info, |Insts(b)|);
  }

  // The unit (f, fs) while the points of block bb with index i and up have been split off
  // from the unit (f0, fs0).
  ghost predicate Underway(f0: Func, fs0: seq<seq<Label>>, nb0: Label, br0: Id,
                           f: Func, fs: seq<seq<Label>>, nb: Label, br: Id, bb: Label, ks: seq<nat>, i: nat)
  {
    && bb in f0.blocks && bb < nb0 && i <= |ks| && Ascending(ks, |f0.blocks[bb].body|)
    && nb == nb0 + (|ks| - i) && br == br0 + (|ks| - i)
    && bb in f.blocks
    && PhiIds(f.blocks[bb].phis) == PhiIds(f0.blocks[bb].phis)
    && (if i == |ks| then f.blocks[bb].body == f0.blocks[bb].body && f.blocks[bb].term == f0.blocks[bb].term
        else f.blocks[bb].body == f0.blocks[bb].body[..ks[i]])
    && Ascending(ks[..i], |f.blocks[bb].body|)
    && SplitMany(f, bb, ks[..i], nb, br) == SplitMany(f0, bb, ks, nb0, br0)
    && JoinMany(fs, bb, nb, i) == JoinMany(fs0, bb, nb0, |ks|)
  }

  lemma UnderwayStart(f: Func, fs: seq<seq<Label>>, nb: Label, br: Id, bb: Label, ks: seq<nat>)
    requires bb in f.blocks && bb < nb && Ascending(ks, |f.blocks[bb].body|)
    ensures Underway(f, fs, nb, br, f, fs, nb, br, bb, ks, |ks|)
  {
    assert ks[..|ks|] == ks;
  }

  lemma UnderwayPosition(f0: Func, fs0: seq<seq<Label>>, nb0: Label, br0: Id,
                         f: Func, fs: seq<seq<Label>>, nb: Label, br: Id, bb: Label, info: IteratorInfo, i: nat)
    requires bb in f0.blocks && Distinct(Insts(f0.blocks[bb]))
    requires Underway(f0, fs0, nb0, br0, f, fs, nb, br, bb, BodyCuts(f0.blocks[bb], info), i + 1)
    ensures bb in f.blocks && i < |PointsOf(f0.blocks[bb], info)|
    ensures PointsOf(f0.blocks[bb], info)[i].at in Insts(f.blocks[bb])
    ensures SplitPosition(f.blocks[bb], PointsOf(f0.blocks[bb], info)[i].at) == BodyCuts(f0.blocks[bb], info)[i]
  {
    hide SplitMany, JoinMany, PointsOf, AllCuts, Insts;
    CountPoints(f0.blocks[bb], info);
    PointPosition(f0.blocks[bb], info, f.blocks[bb], i);
  }

  lemma UnderwayStep(f0: Func, fs0: seq<seq<Label>>, nb0: Label, br0: Id,
                     f: Func, fs: seq<seq<Label>>, nb: Label, br: Id, bb: Label, ks: seq<nat>, i: nat)
    requires Underway(f0, fs0, nb0, br0, f, fs, nb, br, bb, ks, i + 1)
    ensures bb in f.blocks && ks[i] <= |f.blocks[bb].body|
    ensures Underway(f0, fs0, nb0, br0, Split.SplitBlock(f, bb, ks[i], nb, br), Join(fs, bb, nb), nb + 1, br + 1, bb, ks, i)
  {
    assert ks[..i + 1][..i] == ks[..i];
    assert ks[..i + 1][i] == ks[i];
    SplitManyUnfold(f, bb, ks[..i + 1], nb, br);
    var g := Split.SplitBlock(f, bb, ks[i], nb, br);
    assert g.blocks[bb].body == f.blocks[bb].body[..ks[i]] == f0.blocks[bb].body[..ks[i]];
    assert PhiIds(g.blocks[bb].phis) == PhiIds(f.blocks[bb].phis);
  }

  lemma UnderwayEnd(f0: Func, fs0: seq<seq<Label>>, nb0: Label, br0: Id,
                    f: Func, fs: seq<seq<Label>>, nb: Label, br: Id, bb: Label, ks: seq<nat>)
    requires Underway(f0, fs0, nb0, br0, f, fs, nb, br, bb, ks, 0)
    ensures f == SplitMany(f0, bb, ks, nb0, br0) && fs == JoinMany(fs0, bb, nb0, |ks|)
    ensures nb == nb0 + |ks| && br == br0 + |ks|
  {
  }

  // The modes recorded for the pieces split off so far.
  ghost predicate Recorded(modes0: map<Label, Mode>, modes: map<Label, Mode>, nb0: Label, pts: seq<Point>, i: nat) {
    && i <= |pts| && (forall l <- modes0 :: l < nb0)
    && modes.Keys == modes0.Keys + Names(nb0, |pts| - i)
    && (forall l <- modes0 :: modes[l] == modes0[l])
    && forall l <- Names(nb0, |pts| - i) :: modes[l] == pts[|pts| - 1 - (l - nb0)].mode
  }

  lemma RecordedStart(modes0: map<Label, Mode>, nb0: Label, pts: seq<Point>)
    requires forall l <- modes0 :: l < nb0
    ensures Recorded(modes0, modes0, nb0, pts, |pts|)
  {
    assert Names(nb0, 0) == {};
  }

  lemma RecordedStep(modes0: map<Label, Mode>, modes: map<Label, Mode>, nb0: Label, pts: seq<Point>, i: nat, nb: Label)
    requires Recorded(modes0, modes, nb0, pts, i + 1) && nb == nb0 + (|pts| - (i + 1))
    ensures Recorded(modes0, Emplace(modes, nb, pts[i].mode), nb0, pts, i)
  {
    assert nb !in modes;
    assert Names(nb0, |pts| - i) == Names(nb0, |pts| - (i + 1)) + {nb};
  }

  lemma RecordedEnd(modes0: map<Label, Mode>, modes: map<Label, Mode>, nb0: Label, pts: seq<Point>,
                    bb: Label, b: Block, info: IteratorInfo)
    requires Recorded(modes0, modes, nb0, pts, 0) && bb < nb0
    requires pts == PointsOf(b, info) && pts != []
    ensures |pts| == |AllCuts(b, info)|
    ensures ModesRecorded(modes0, Emplace(modes, bb, InvertMode(pts[0].mode)), b, info, bb, nb0)
  {
    hide Insts, CutMode, PointsOf, ModeAt;
    CountPoints(b, info);
    var after := Emplace(modes, bb, InvertMode(pts[0].mode));
    assert bb !in Names(nb0, |pts|);
    forall j | 1 <= j <= |pts|
      ensures PieceLabel(bb, nb0, |pts|, j) in after
      ensures after[PieceLabel(bb, nb0, |pts|, j)] == PieceMode(b, info, j)
    {
      var l := PieceLabel(bb, nb0, |pts|, j);
      assert l in Names(nb0, |pts|) && |pts| - 1 - (l - nb0) == j - 1;
    }
  }

  // Every piece of b has a mode; what was recorded before stands.
  ghost predicate ModesRecorded(modes0: map<Label, Mode>, modes: map<Label, Mode>, b: Block, info: IteratorInfo,
                                bb: Label, nb: Label)
  {
    var n := |AllCuts(b, info)|;
    && n > 0
    && modes.Keys == modes0.Keys + {bb} + Names(nb, n)
    && (forall l <- modes0 :: modes[l] == modes0[l])
    && (bb !in modes0 ==> modes[bb] == PieceMode(b, info, 0))
    && forall j :: 1 <= j <= n ==> PieceLabel(bb, nb, n, j) in modes && modes[PieceLabel(bb, nb, n, j)] == PieceMode(b, info, j)
  }

  // ---------- all blocks of a loop ----------

  // No block of the loop has phis of both modes.
  ghost predicate PurePhis(f: Func, loop: seq<Label>, info: IteratorInfo) {
    forall l <- loop :: l in f.blocks && !MixedPhis(f.blocks[l], info)
  }

  // Every block of the loop has its one mode recorded.
  ghost predicate LabelledLoop(f: Func, loop: seq<Label>, info: IteratorInfo, modes: map<Label, Mode>) {
    forall l <- loop :: l in f.blocks && l in modes && Labelled(f.blocks[l], info, modes[l])
  }

  // The blocks in `rest` are as they were in f0, the other blocks of the loop are done.
  ghost predicate Settled(f0: Func, f: Func, loop: seq<Label>, info: IteratorInfo, rest: set<Label>,
                          points: map<Label, seq<Point>>, nb: Label)
  {
    && rest <= points.Keys && f0.blocks.Keys <= f.blocks.Keys && (forall l <- f.blocks :: l < nb)
    && (forall l <- rest :: l in f0.blocks && l in loop && SameInsts(f.blocks[l], f0.blocks[l])
                            && points[l] == PointsOf(f0.blocks[l], info) && points[l] != [])
    && forall l <- loop :: l in f.blocks && (l !in rest ==> Solid(f.blocks[l], info))
  }

  // Which block of the original a block comes from, and which of its pieces it is.
  datatype Origin = Origin(blk: Label, piece: nat)

  // The mode recorded for block l is its own exactly when it can be trusted.
  ghost predicate MarkedRight(f0: Func, f: Func, info: IteratorInfo, modes: map<Label, Mode>, origin: map<Label, Origin>, l: Label) {
    && l in f.blocks && l in modes && l in origin && origin[l].blk in f0.blocks
    && (Labelled(f.blocks[l], info, modes[l]) <==> Trusted(f0.blocks[origin[l].blk], info, origin[l].piece))
  }

  ghost predicate Marked(f0: Func, f: Func, loop: seq<Label>, info: IteratorInfo, rest: set<Label>, modes: map<Label, Mode>,
                         origin: map<Label, Origin>)
  {
    && (forall l <- rest :: l in f0.blocks && (!MixedPhis(f0.blocks[l], info) ==> l !in modes))
    && forall l <- loop :: l in origin && (l !in rest ==> MarkedRight(f0, f, info, modes, origin, l))
  }

  // Block l is the piece that its origin says.
  ghost predicate FromOrigin(f0: Func, f: Func, info: IteratorInfo, origin: map<Label, Origin>, l: Label) {
    && l in f.blocks && l in origin && origin[l].blk in f0.blocks
    && HoldsPiece(f0.blocks[origin[l].blk], f.blocks[l], info, origin[l].piece)
  }

  ghost predicate Placed(f0: Func, f: Func, loop: seq<Label>, info: IteratorInfo, rest: set<Label>, origin: map<Label, Origin>) {
    forall l <- loop :: l !in rest ==> FromOrigin(f0, f, info, origin, l)
  }

  // Every block of the loop is a piece of its origin and has a mode, right or wrong as the origin
  // says, and every block of the original loop is still the first piece of itself.
  ghost predicate ModesExact(f0: Func, loop0: seq<Label>, f: Func, loop: seq<Label>, info: IteratorInfo, modes: map<Label, Mode>,
                             origin: map<Label, Origin>)
  {
    && (forall l <- loop :: MarkedRight(f0, f, info, modes, origin, l) && FromOrigin(f0, f, info, origin, l) && origin[l].blk in loop0)
    && forall l <- loop0 :: l in loop && l in origin && origin[l] == Origin(l, 0)
  }

  // The pieces of bb join the map of origins.
  ghost function AddPieces(origin: map<Label, Origin>, bb: Label, nb: Label, n: nat): map<Label, Origin> {
    map l | l in origin.Keys + Names(nb, n) :: if l in Names(nb, n) then Origin(bb, nb + n - l) else origin[l]
  }

  // Blocks of the loop come from blocks of the original loop, which are first pieces.
  ghost predicate OriginsKnown(loop0: seq<Label>, loop: seq<Label>, origin: map<Label, Origin>, nb: Label) {
    && (forall l <- loop :: l in origin && origin[l].blk in loop0)
    && (forall l <- loop0 :: l in loop && l in origin && origin[l] == Origin(l, 0))
    && forall l <- origin :: l < nb
  }

  // All of that while the blocks in rest are still to be split.
  ghost predicate Midway(f0: Func, loop0: seq<Label>, f: Func, loop: seq<Label>, info: IteratorInfo, rest: set<Label>,
                         points: map<Label, seq<Point>>, nb: Label, modes: map<Label, Mode>, origin: map<Label, Origin>)
  {
    && Settled(f0, f, loop, info, rest, points, nb) && Marked(f0, f, loop, info, rest, modes, origin) && Placed(f0, f, loop, info, rest, origin)
    && OriginsKnown(loop0, loop, origin, nb) && (forall l <- modes :: l < nb) && forall l <- rest :: l in loop0
  }

  lemma MidwayStep(f0: Func, loop0: seq<Label>, f: Func, fs: seq<seq<Label>>, cur: nat, info: IteratorInfo, rest: set<Label>,
                   points: map<Label, seq<Point>>, bb: Label, nb: Label, br: Id, modes: map<Label, Mode>, modes1: map<Label, Mode>,
                   origin: map<Label, Origin>)
    requires cur < |fs| && Midway(f0, loop0, f, fs[cur], info, rest, points, nb, modes, origin) && bb in rest && bb in f.blocks && bb < nb
    requires ModesRecorded(modes, modes1, f.blocks[bb], info, bb, nb)
    ensures var n := |AllCuts(f.blocks[bb], info)|;
            var gs := JoinMany(fs, bb, nb, n);
            && |gs| == |fs|
            && Midway(f0, loop0, SplitMany(f, bb, BodyCuts(f.blocks[bb], info), nb, br), gs[cur], info, rest - {bb}, points, nb + n, modes1,
                      AddPieces(origin, bb, nb, n))
  {
    hide *;
    MidwayParts(f0, loop0, f, fs[cur], info, rest, points, nb, modes, origin);
    var n := |AllCuts(f.blocks[bb], info)|;
    var (g, gs) := (SplitMany(f, bb, BodyCuts(f.blocks[bb], info), nb, br), JoinMany(fs, bb, nb, n));
    SettledStep(f0, f, fs, cur, info, rest, points, bb, nb, br, g, gs);
    ModesBelow(modes, modes1, f.blocks[bb], info, bb, nb);
    MarkedStep(f0, f, fs, cur, info, rest, points, bb, nb, br, modes, modes1, loop0, origin);
    PlacedStep(f0, f, fs, cur, info, rest, points, bb, nb, br, loop0, origin);
    MidwayIs(f0, loop0, g, gs[cur], info, rest - {bb}, points, nb + n, modes1, AddPieces(origin, bb, nb, n));
  }

  lemma MidwayParts(f0: Func, loop0: seq<Label>, f: Func, loop: seq<Label>, info: IteratorInfo, rest: set<Label>,
                    points: map<Label, seq<Point>>, nb: Label, modes: map<Label, Mode>, origin: map<Label, Origin>)
    requires Midway(f0, loop0, f, loop, info, rest, points, nb, modes, origin)
    ensures Settled(f0, f, loop, info, rest, points, nb) && Marked(f0, f, loop, info, rest, modes, origin) && Placed(f0, f, loop, info, rest, origin)
    ensures OriginsKnown(loop0, loop, origin, nb) && (forall l <- modes :: l < nb) && forall l <- rest :: l in loop0
  {
    hide Settled, Marked, OriginsKnown, Placed;
  }

  lemma MidwayPoints(f0: Func, loop0: seq<Label>, f: Func, loop: seq<Label>, info: IteratorInfo, rest: set<Label>,
                     points: map<Label, seq<Point>>, nb: Label, modes: map<Label, Mode>, origin: map<Label, Origin>, bb: Label)
    requires Midway(f0, loop0, f, loop, info, rest, points, nb, modes, origin) && bb in rest
    ensures bb in points && bb in f.blocks && points[bb] == PointsOf(f.blocks[bb], info) && points[bb] != []
    ensures bb in loop && forall l <- modes :: l < nb
  {
    hide Settled, Marked, OriginsKnown, Placed;
    RemainingPoints(f0, f, loop, info, rest, points, nb, bb);
  }

  lemma MidwayIs(f0: Func, loop0: seq<Label>, f: Func, loop: seq<Label>, info: IteratorInfo, rest: set<Label>,
                 points: map<Label, seq<Point>>, nb: Label, modes: map<Label, Mode>, origin: map<Label, Origin>)
    requires Settled(f0, f, loop, info, rest, points, nb) && Marked(f0, f, loop, info, rest, modes, origin) && Placed(f0, f, loop, info, rest, origin)
    requires OriginsKnown(loop0, loop, origin, nb) && (forall l <- modes :: l < nb) && forall l <- rest :: l in loop0
    ensures Midway(f0, loop0, f, loop, info, rest, points, nb, modes, origin)
  {
    hide Settled, Marked, OriginsKnown, Placed;
  }

  // What splitting blocks leaves alone: every run, every loop that was separated before, and
  // where the phis are.  The branches inserted since have the ids from br0 up to br.
  ghost predicate Preserved(f0: Func, fs0: seq<seq<Label>>, br0: Id, f: Func, fs: seq<seq<Label>>, br: Id) {
    && br0 <= br
    && SameRuns(f0, f, Names(br0, br - br0))
    && KeepsSolid(f0, fs0, f, fs)
    && KeepsPhis(f0, f)
    && LoopsGrow(fs0, fs)
  }

  ghost predicate LoopsGrow(fs0: seq<seq<Label>>, fs: seq<seq<Label>>) {
    |fs0| == |fs| && forall j, l :: 0 <= j < |fs0| && l in fs0[j] ==> l in fs[j]
  }

  lemma JoinManyGrows(fs: seq<seq<Label>>, bb: Label, nb: Label, n: nat)
    ensures LoopsGrow(fs, JoinMany(fs, bb, nb, n))
  {
    forall j, l | 0 <= j < |fs| && l in fs[j] ensures l in JoinMany(fs, bb, nb, n)[j] {
      JoinManyHas(fs, bb, nb, n, j, l);
    }
  }

  lemma PreservedNothing(f: Func, fs: seq<seq<Label>>, br: Id)
    ensures Preserved(f, fs, br, f, fs, br)
  {
    hide SameRuns;
    SameRunsReflexive(f);
    assert Names(br, 0) == {};
  }

  lemma PreservedTwice(f0: Func, fs0: seq<seq<Label>>, br0: Id, f: Func, fs: seq<seq<Label>>, br: Id,
                       g: Func, gs: seq<seq<Label>>, br1: Id)
    requires Preserved(f0, fs0, br0, f, fs, br) && Preserved(f, fs, br, g, gs, br1)
    ensures Preserved(f0, fs0, br0, g, gs, br1)
  {
    hide SameRuns, SolidLoop;
    SameRunsTransitive(f0, f, g, Names(br0, br - br0), Names(br, br1 - br));
    assert Names(br0, br - br0) + Names(br, br1 - br) == Names(br0, br1 - br0);
  }

  lemma PreservedBySplits(f: Func, fs: seq<seq<Label>>, bb: Label, ks: seq<nat>, nb: Label, br: Id)
    requires bb in f.blocks && Ascending(ks, |f.blocks[bb].body|) && Split.Below(f, nb, br)
    ensures bb < nb
    ensures Preserved(f, fs, br, SplitMany(f, bb, ks, nb, br), JoinMany(fs, bb, nb, |ks|), br + |ks|)
  {
    hide SameRuns, SplitMany, JoinMany, KeepsSolid, KeepsPhis, Ascending, LoopsGrow;
    JoinManyGrows(fs, bb, nb, |ks|);
    SplitManyKeepsRuns(f, bb, ks, nb, br);
    SplitManyKeepsSolid(f, fs, bb, ks, nb, br);
    SplitManyKeepsPhis(f, bb, ks, nb, br);
  }

  lemma AllRemain(f: Func, loop: seq<Label>, info: IteratorInfo, points: map<Label, seq<Point>>, modes: map<Label, Mode>, nb: Label, br: Id)
    requires Split.Below(f, nb, br)
    requires PointsFound(f, loop, info, points) && ModesFound(f, loop, info, points, modes)
    ensures Settled(f, f, loop, info, points.Keys, points, nb)
    ensures forall l <- modes :: l < nb
    ensures Marked(f, f, loop, info, points.Keys, modes, map l | l in loop :: Origin(l, 0))
    ensures OriginsKnown(loop, loop, map l | l in loop :: Origin(l, 0), nb)
    ensures forall l <- points :: l in loop
    ensures Placed(f, f, loop, info, points.Keys, map l | l in loop :: Origin(l, 0))
  {
    hide PointsOf, Labelled, MixedPhis, Split.BlockBelow, Solid, HoldsPiece, AllCuts;
    forall l | l in loop && l !in points ensures HoldsPiece(f.blocks[l], f.blocks[l], info, 0) {
      CountPoints(f.blocks[l], info);
      WholeHolds(f.blocks[l], info);
    }
    forall l | l in loop && l !in points ensures !MixedPhis(f.blocks[l], info) {
      UnmixedWithoutPoints(f.blocks[l], info);
    }
    forall l | l in loop && l !in points ensures Solid(f.blocks[l], info) {
      CountPoints(f.blocks[l], info);
      NoCutsLabelled(f.blocks[l], info);
    }
  }

  lemma UnmixedWithoutPoints(b: Block, info: IteratorInfo)
    requires PointsOf(b, info) == []
    ensures !MixedPhis(b, info)
  {
    hide PointsOf, MixedPhis;
    CountPoints(b, info);
    if MixedPhis(b, info) { MixedCuts(b, info); }
  }

  lemma SettledStep(f0: Func, f: Func, fs: seq<seq<Label>>, cur: nat, info: IteratorInfo, rest: set<Label>,
                    points: map<Label, seq<Point>>, bb: Label, nb: Label, br: Id, g: Func, gs: seq<seq<Label>>)
    requires cur < |fs| && Settled(f0, f, fs[cur], info, rest, points, nb) && bb in rest
    requires bb in f.blocks && g == SplitMany(f, bb, BodyCuts(f.blocks[bb], info), nb, br)
    requires gs == JoinMany(fs, bb, nb, |AllCuts(f.blocks[bb], info)|)
    ensures |gs| == |fs|
    ensures Settled(f0, g, gs[cur], info, rest - {bb}, points, nb + |AllCuts(f.blocks[bb], info)|)
  {
    hide SplitMany, PointsOf, Solid, AllCuts, JoinMany, Insts;
    var b := f.blocks[bb];
    var ks := BodyCuts(b, info);
    SplitManyFrame(f, bb, ks, nb, br);
    assert b == f.blocks[bb] && SameInsts(b, f0.blocks[bb]);
    forall l | l in gs[cur] ensures l in g.blocks && (l !in rest - {bb} ==> Solid(g.blocks[l], info)) {
      JoinManyHas(fs, bb, nb, |ks|, cur, l);
      SettledBlock(f0, f, fs[cur], info, rest, points, bb, nb, br, l);
    }
    forall l | l in rest - {bb} ensures l in gs[cur] {
      JoinManyHas(fs, bb, nb, |ks|, cur, l);
    }
  }

  lemma SettledBlock(f0: Func, f: Func, loop: seq<Label>, info: IteratorInfo, rest: set<Label>,
                     points: map<Label, seq<Point>>, bb: Label, nb: Label, br: Id, l: Label)
    requires Settled(f0, f, loop, info, rest, points, nb) && bb in rest && bb in f.blocks
    requires l in loop || l in Names(nb, |AllCuts(f.blocks[bb], info)|)
    ensures var g := SplitMany(f, bb, BodyCuts(f.blocks[bb], info), nb, br);
            l in g.blocks && (l !in rest - {bb} ==> Solid(g.blocks[l], info))
  {
    hide SplitMany, PointsOf, AllCuts, Insts, Solid;
    var b := f.blocks[bb];
    var ks := BodyCuts(b, info);
    var g := SplitMany(f, bb, ks, nb, br);
    SplitManyFrame(f, bb, ks, nb, br);
    if l == bb || l in Names(nb, |ks|) {
      CountPoints(f0.blocks[bb], info);
      SameInstsSameCuts(b, f0.blocks[bb], info);
      SameAllCuts(b, f0.blocks[bb], info);
      var j := if l == bb then 0 else nb + |ks| - l;
      assert l == PieceLabel(bb, nb, |ks|, j);
      SplitManyPieces(f, bb, ks, nb, br, j);
      SeparatedPiece(b, info, g.blocks[l], bb, nb, j);
    } else {
      SameInstsSameCuts(g.blocks[l], f.blocks[l], info);
    }
  }

  lemma SameAllCuts(a: Block, b: Block, info: IteratorInfo)
    requires SameInsts(a, b)
    ensures AllCuts(a, info) == AllCuts(b, info)
  {
    SameInstsSameCuts(a, b, info);
  }

  lemma SamePoints(a: Block, b: Block, info: IteratorInfo, n: nat)
    requires SameInsts(a, b) && n <= |Insts(a)|
    ensures Insts(a) == Insts(b) && PointsUpTo(a, info, n) == PointsUpTo(b, info, n)
  {
    SameInstsSameCuts(a, b, info);
    if n > 0 {
      SamePoints(a, b, info, n - 1);
    }
  }

  lemma RemainingPoints(f0: Func, f: Func, loop: seq<Label>, info: IteratorInfo, rest: set<Label>,
                        points: map<Label, seq<Point>>, nb: Label, bb: Label)
    requires Settled(f0, f, loop, info, rest, points, nb) && bb in rest
    ensures bb in loop && bb in points && bb in f.blocks && points[bb] == PointsOf(f.blocks[bb], info) && points[bb] != []
  {
    hide Solid, Insts;
    SamePoints(f.blocks[bb], f0.blocks[bb], info, |Insts(f.blocks[bb])|);
    SameInstsSameCuts(f.blocks[bb], f0.blocks[bb], info);
  }

  lemma MarkedStep(f0: Func, f: Func, fs: seq<seq<Label>>, cur: nat, info: IteratorInfo, rest: set<Label>,
                   points: map<Label, seq<Point>>, bb: Label, nb: Label, br: Id, modes: map<Label, Mode>, modes1: map<Label, Mode>,
                   loop0: seq<Label>, origin: map<Label, Origin>)
    requires cur < |fs| && Settled(f0, f, fs[cur], info, rest, points, nb) && bb in rest && bb in f.blocks
    requires Marked(f0, f, fs[cur], info, rest, modes, origin) && OriginsKnown(loop0, fs[cur], origin, nb) && bb in loop0
    requires ModesRecorded(modes, modes1, f.blocks[bb], info, bb, nb)
    ensures var gs := JoinMany(fs, bb, nb, |AllCuts(f.blocks[bb], info)|);
            var origin1 := AddPieces(origin, bb, nb, |AllCuts(f.blocks[bb], info)|);
            && |gs| == |fs|
            && Marked(f0, SplitMany(f, bb, BodyCuts(f.blocks[bb], info), nb, br), gs[cur], info, rest - {bb}, modes1, origin1)
            && OriginsKnown(loop0, gs[cur], origin1, nb + |AllCuts(f.blocks[bb], info)|)
  {
    hide SplitMany, PointsOf, Solid, AllCuts, JoinMany, Insts, Labelled, ModesRecorded, MarkedRight, MixedPhis, SameInsts;
    var b := f.blocks[bb];
    var ks := BodyCuts(b, info);
    var g := SplitMany(f, bb, ks, nb, br);
    var gs := JoinMany(fs, bb, nb, |ks|);
    var origin1 := AddPieces(origin, bb, nb, |ks|);
    ModesRecordedKeys(modes, modes1, b, info, bb, nb);
    forall l | l in gs[cur] ensures l in origin1 && (l !in rest - {bb} ==> MarkedRight(f0, g, info, modes1, origin1, l)) {
      JoinManyHas(fs, bb, nb, |ks|, cur, l);
      MarkedBlock(f0, f, fs[cur], info, rest, points, bb, nb, br, modes, modes1, loop0, origin, l);
    }
    forall l ensures l in gs[cur] <==> l in fs[cur] || l in Names(nb, |ks|) {
      JoinManyHas(fs, bb, nb, |ks|, cur, l);
    }
  }

  lemma MarkedBlock(f0: Func, f: Func, loop: seq<Label>, info: IteratorInfo, rest: set<Label>,
                    points: map<Label, seq<Point>>, bb: Label, nb: Label, br: Id,
                    modes: map<Label, Mode>, modes1: map<Label, Mode>, loop0: seq<Label>, origin: map<Label, Origin>, l: Label)
    requires Settled(f0, f, loop, info, rest, points, nb) && bb in rest && bb in f.blocks
    requires Marked(f0, f, loop, info, rest, modes, origin) && OriginsKnown(loop0, loop, origin, nb) && bb in loop0
    requires ModesRecorded(modes, modes1, f.blocks[bb], info, bb, nb)
    requires l in loop || l in Names(nb, |AllCuts(f.blocks[bb], info)|)
    ensures var origin1 := AddPieces(origin, bb, nb, |AllCuts(f.blocks[bb], info)|);
            && l in origin1
            && (l !in rest - {bb} ==>
                  MarkedRight(f0, SplitMany(f, bb, BodyCuts(f.blocks[bb], info), nb, br), info, modes1, origin1, l))
  {
    hide SplitMany, PointsOf, AllCuts, Insts, Solid, Labelled, MixedPhis, PieceMode, Trusted;
    var b := f.blocks[bb];
    var ks := BodyCuts(b, info);
    var g := SplitMany(f, bb, ks, nb, br);
    SplitManyFrame(f, bb, ks, nb, br);
    if l == bb || l in Names(nb, |ks|) {
      MarkedPiece(f0, f, loop, info, rest, points, bb, nb, br, modes, modes1, l);
    } else if l !in rest {
      SameLabels(g.blocks[l], f.blocks[l], info, modes[l]);
    }
  }

  lemma MarkedPiece(f0: Func, f: Func, loop: seq<Label>, info: IteratorInfo, rest: set<Label>,
                    points: map<Label, seq<Point>>, bb: Label, nb: Label, br: Id, modes: map<Label, Mode>, modes1: map<Label, Mode>, l: Label)
    requires Settled(f0, f, loop, info, rest, points, nb) && bb in rest && bb in f.blocks
    requires bb in f0.blocks && (!MixedPhis(f0.blocks[bb], info) ==> bb !in modes)
    requires ModesRecorded(modes, modes1, f.blocks[bb], info, bb, nb)
    requires l == bb || l in Names(nb, |AllCuts(f.blocks[bb], info)|)
    ensures var g := SplitMany(f, bb, BodyCuts(f.blocks[bb], info), nb, br);
            var j := if l == bb then 0 else nb + |AllCuts(f.blocks[bb], info)| - l;
            && l in g.blocks && l in modes1 && (l == bb ==> l < nb)
            && (Labelled(g.blocks[l], info, modes1[l]) <==> Trusted(f0.blocks[bb], info, j))
  {
    hide SplitMany, PointsOf, AllCuts, Insts, Solid, Labelled, MixedPhis, PieceMode, Trusted;
    var b := f.blocks[bb];
    var ks := BodyCuts(b, info);
    var g := SplitMany(f, bb, ks, nb, br);
    SplitManyFrame(f, bb, ks, nb, br);
    SameTrust(b, f0.blocks[bb], info, if l == bb then 0 else nb + |ks| - l);
    var j := if l == bb then 0 else nb + |ks| - l;
    assert l == PieceLabel(bb, nb, |ks|, j);
    SplitManyPieces(f, bb, ks, nb, br, j);
    SeparatedPiece(b, info, g.blocks[l], bb, nb, j);
    if MixedPhis(b, info) && j == 0 {
      MixedUnlabelled(g.blocks[l], info, modes1[l]);
      FirstUntrusted(b, info);
    } else {
      assert modes1[l] == PieceMode(b, info, j);
    }
  }

  lemma PlacedStep(f0: Func, f: Func, fs: seq<seq<Label>>, cur: nat, info: IteratorInfo, rest: set<Label>,
                   points: map<Label, seq<Point>>, bb: Label, nb: Label, br: Id, loop0: seq<Label>, origin: map<Label, Origin>)
    requires cur < |fs| && Settled(f0, f, fs[cur], info, rest, points, nb) && bb in rest && bb in f.blocks && bb in loop0
    requires Placed(f0, f, fs[cur], info, rest, origin) && OriginsKnown(loop0, fs[cur], origin, nb)
    ensures var gs := JoinMany(fs, bb, nb, |AllCuts(f.blocks[bb], info)|);
            var origin1 := AddPieces(origin, bb, nb, |AllCuts(f.blocks[bb], info)|);
            Placed(f0, SplitMany(f, bb, BodyCuts(f.blocks[bb], info), nb, br), gs[cur], info, rest - {bb}, origin1)
  {
    hide SplitMany, PointsOf, Solid, AllCuts, JoinMany, Insts, FromOrigin, SameInsts;
    var n := |AllCuts(f.blocks[bb], info)|;
    var (g, gs) := (SplitMany(f, bb, BodyCuts(f.blocks[bb], info), nb, br), JoinMany(fs, bb, nb, n));
    forall l | l in gs[cur] && l !in rest - {bb} ensures FromOrigin(f0, g, info, AddPieces(origin, bb, nb, n), l) {
      JoinManyHas(fs, bb, nb, n, cur, l);
      PlacedBlock(f0, f, fs[cur], info, rest, points, bb, nb, br, loop0, origin, l);
    }
  }

  lemma PlacedBlock(f0: Func, f: Func, loop: seq<Label>, info: IteratorInfo, rest: set<Label>, points: map<Label, seq<Point>>,
                    bb: Label, nb: Label, br: Id, loop0: seq<Label>, origin: map<Label, Origin>, l: Label)
    requires Settled(f0, f, loop, info, rest, points, nb) && bb in rest && bb in f.blocks && bb in loop0
    requires Placed(f0, f, loop, info, rest, origin) && OriginsKnown(loop0, loop, origin, nb)
    requires (l in loop && (l == bb || l !in rest)) || l in Names(nb, |AllCuts(f.blocks[bb], info)|)
    ensures var g := SplitMany(f, bb, BodyCuts(f.blocks[bb], info), nb, br);
            FromOrigin(f0, g, info, AddPieces(origin, bb, nb, |AllCuts(f.blocks[bb], info)|), l)
  {
    hide SplitMany, PointsOf, AllCuts, Insts, Solid, HoldsPiece, SameInsts;
    var ks := BodyCuts(f.blocks[bb], info);
    SplitManyFrame(f, bb, ks, nb, br);
    if l == bb || l in Names(nb, |ks|) {
      PlacedPiece(f, f0.blocks[bb], info, bb, nb, br, l);
    } else {
      StillHolds(f0.blocks[origin[l].blk], f.blocks[l], SplitMany(f, bb, ks, nb, br).blocks[l], info, origin[l].piece);
    }
  }

  lemma PlacedPiece(f: Func, b0: Block, info: IteratorInfo, bb: Label, nb: Label, br: Id, l: Label)
    requires bb in f.blocks && bb < nb && (forall m <- f.blocks :: m < nb) && SameInsts(f.blocks[bb], b0)
    requires l == bb || l in Names(nb, |AllCuts(f.blocks[bb], info)|)
    ensures var (g, n) := (SplitMany(f, bb, BodyCuts(f.blocks[bb], info), nb, br), |AllCuts(f.blocks[bb], info)|);
            l in g.blocks && HoldsPiece(b0, g.blocks[l], info, if l == bb then 0 else nb + n - l)
  {
    hide SplitMany, AllCuts, Insts, HoldsPiece, SameInsts;
    var ks := BodyCuts(f.blocks[bb], info);
    var j := if l == bb then 0 else nb + |ks| - l;
    assert l == PieceLabel(bb, nb, |ks|, j);
    SplitManyPieces(f, bb, ks, nb, br, j);
    PieceHolds(f.blocks[bb], b0, info, SplitMany(f, bb, ks, nb, br).blocks[l], bb, nb, j);
  }

  lemma StillHolds(b: Block, p: Block, q: Block, info: IteratorInfo, j: nat)
    requires HoldsPiece(b, p, info, j) && SameInsts(q, p)
    ensures HoldsPiece(b, q, info, j)
  {
    hide AllCuts;
  }

  lemma FirstUntrusted(b: Block, info: IteratorInfo)
    requires MixedPhis(b, info)
    ensures !Trusted(b, info, 0)
  {
  }

  lemma SameTrust(a: Block, b: Block, info: IteratorInfo, j: nat)
    requires SameInsts(a, b)
    ensures Trusted(a, info, j) <==> Trusted(b, info, j)
    ensures MixedPhis(a, info) <==> MixedPhis(b, info)
  {
    SameInstsSameCuts(a, b, info);
  }

  lemma ModesRecordedKeys(modes: map<Label, Mode>, modes1: map<Label, Mode>, b: Block, info: IteratorInfo, bb: Label, nb: Label)
    requires ModesRecorded(modes, modes1, b, info, bb, nb)
    ensures modes1.Keys == modes.Keys + {bb} + Names(nb, |AllCuts(b, info)|)
  {
  }

  lemma SameLabels(a: Block, b: Block, info: IteratorInfo, m: Mode)
    requires SameInsts(a, b)
    ensures Labelled(a, info, m) <==> Labelled(b, info, m)
  {
    SameInstsSameCuts(a, b, info);
    assert forall i :: 0 <= i < |Insts(a)| ==> ModeAt(a, info, i) == ModeAt(b, info, i) && (Wild(a, i) <==> Wild(b, i));
  }

  lemma AllSettled(f0: Func, f: Func, loop: seq<Label>, info: IteratorInfo, points: map<Label, seq<Point>>, nb: Label)
    requires Settled(f0, f, loop, info, {}, points, nb)
    ensures SolidLoop(f, loop, info)
  {
  }

  // With nothing left to split, the modes are exact; for a loop of one-mode phis they are all right.
  lemma AllMarked(f0: Func, loop0: seq<Label>, f: Func, loop: seq<Label>, info: IteratorInfo, modes: map<Label, Mode>,
                  origin: map<Label, Origin>, nb: Label)
    requires Marked(f0, f, loop, info, {}, modes, origin) && OriginsKnown(loop0, loop, origin, nb) && Placed(f0, f, loop, info, {}, origin)
    ensures ModesExact(f0, loop0, f, loop, info, modes, origin)
    ensures PurePhis(f0, loop0, info) ==> LabelledLoop(f, loop, info, modes)
  {
    hide Labelled, MixedPhis, HoldsPiece;
  }

  // So the pieces of an original block are all recorded right exactly when its phis had one mode.
  lemma PiecesRightIff(f0: Func, loop0: seq<Label>, f: Func, loop: seq<Label>, info: IteratorInfo, modes: map<Label, Mode>,
                       origin: map<Label, Origin>, bb: Label)
    requires ModesExact(f0, loop0, f, loop, info, modes, origin) && bb in loop0 && bb in f0.blocks
    ensures (forall l <- loop :: l in origin && origin[l].blk == bb ==> l in f.blocks && l in modes && Labelled(f.blocks[l], info, modes[l]))
            <==> !MixedPhis(f0.blocks[bb], info)
  {
    hide Labelled, MixedPhis, HoldsPiece;
    assert bb in loop && MarkedRight(f0, f, info, modes, origin, bb);
  }

  lemma ModesBelow(modes: map<Label, Mode>, modes1: map<Label, Mode>, b: Block, info: IteratorInfo, bb: Label, nb: Label)
    requires ModesRecorded(modes, modes1, b, info, bb, nb) && bb < nb && forall l <- modes :: l < nb
    ensures forall l <- modes1 :: l < nb + |AllCuts(b, info)|
  {
  }

  lemma StillSolid(f: Func, fs: seq<seq<Label>>, br: Id, g: Func, gs: seq<seq<Label>>, br1: Id, j: nat, info: IteratorInfo)
    requires Preserved(f, fs, br, g, gs, br1) && j < |fs| && SolidLoop(f, fs[j], info)
    ensures |gs| == |fs| && SolidLoop(g, gs[j], info)
  {
    hide SameRuns, KeepsPhis;
  }

  lemma QuietIsSolid(f: Func, loop: seq<Label>, info: IteratorInfo)
    requires Quiet(f, loop, info)
    ensures SolidLoop(f, loop, info)
  {
    hide PointsOf, Solid;
    forall l | l in loop ensures Solid(f.blocks[l], info) {
      CountPoints(f.blocks[l], info);
      NoCutsLabelled(f.blocks[l], info);
    }
  }

  // A second run over the loop finds nothing to do exactly when no block had mixed phis.
  lemma SecondRun(f0: Func, fs0: seq<seq<Label>>, br0: Id, f: Func, fs: seq<seq<Label>>, br: Id, cur: nat,
                  info: IteratorInfo, modes: map<Label, Mode>)
    requires Preserved(f0, fs0, br0, f, fs, br) && cur < |fs0| == |fs|
    requires forall l <- fs0[cur] :: l in f0.blocks
    requires SolidLoop(f, fs[cur], info)
    requires PurePhis(f0, fs0[cur], info) ==> LabelledLoop(f, fs[cur], info, modes)
    ensures Quiet(f, fs[cur], info) <==> PurePhis(f0, fs0[cur], info)
  {
    hide SameRuns, KeepsSolid, Labelled, Solid, PointsOf, MixedPhis;
    if PurePhis(f0, fs0[cur], info) {
      forall l | l in fs[cur] ensures PointsOf(f.blocks[l], info) == [] {
        CountPoints(f.blocks[l], info);
        LabelledHasNoCuts(f.blocks[l], info, modes[l]);
      }
    } else {
      var l :| l in fs0[cur] && MixedPhis(f0.blocks[l], info);
      assert l in fs[cur];
      StillMixed(f0.blocks[l], f.blocks[l], info);
      MixedHasCuts(f.blocks[l], info);
      CountPoints(f.blocks[l], info);
    }
  }

  lemma StillMixed(a: Block, b: Block, info: IteratorInfo)
    requires PhiIds(a.phis) == PhiIds(b.phis) && MixedPhis(a, info)
    ensures MixedPhis(b, info)
  {
    assert |PhiIds(a.phis)| == |a.phis| && |PhiIds(b.phis)| == |b.phis|;
    var k :| 0 <= k < |a.phis| && ModeAt(a, info, k) != ModeAt(a, info, 0);
    assert Insts(b)[k] == PhiIds(b.phis)[k] && Insts(b)[0] == PhiIds(b.phis)[0];
    assert ModeAt(b, info, k) != ModeAt(b, info, 0);
  }

  /** A function and the blocks of its loops, outermost first. */
  class Unit {
    var f: Func
    var loops: seq<seq<Label>>
    var nextLabel: Label
    var nextId: Id

    ghost predicate Valid()
      reads this
    {
      WellFormed(f, loops, nextLabel, nextId)
    }

    lemma KnownBlock(bb: Label)
      requires Valid() && bb in f.blocks
      ensures bb < nextLabel && Distinct(Insts(f.blocks[bb]))
    {
    }

    lemma KnownLoop(j: nat)
      requires Valid() && j < |loops|
      ensures Distinct(loops[j]) && forall l <- loops[j] :: l in f.blocks
    {
      assert loops[j] in loops;
    }

    lemma KnownLoops()
      requires Valid()
      ensures forall j :: 0 <= j < |loops| ==> forall l <- loops[j] :: l in f.blocks
    {
      forall j | 0 <= j < |loops| ensures forall l <- loops[j] :: l in f.blocks { KnownLoop(j); }
    }

    lemma KnownLabels()
      requires Valid()
      ensures Split.Below(f, nextLabel, nextId) && forall l <- f.blocks :: l < nextLabel
    {
    }

    method SplitBlock(bb: Label, splitPt: Id) returns (nb: Label)
      requires Valid() && bb in f.blocks && splitPt in Insts(f.blocks[bb])
      modifies this
      ensures Valid()
      ensures nb == old(nextLabel) && nextLabel == nb + 1 && nextId == old(nextId) + 1
      ensures f == Split.SplitBlock(old(f), bb, SplitPosition(old(f).blocks[bb], splitPt), nb, old(nextId))
      ensures loops == Join(old(loops), bb, nb)
    {
      hide WellFormed, Split.SplitBlock;
      var k := FindSplitPosition(f.blocks[bb], splitPt);
      nb := nextLabel;
      SplitWellFormed(f, loops, bb, k, nb, nextId);
      f := Split.SplitBlock(f, bb, k, nb, nextId);
      loops := Join(loops, bb, nb);
      nextLabel, nextId := nextLabel + 1, nextId + 1;
    }

    method FindPartitionPoints(loop: seq<Label>, info: IteratorInfo)
      returns (modes: map<Label, Mode>, points: map<Label, seq<Point>>, found: bool)
      requires Distinct(loop) && (forall l <- loop :: l in f.blocks)
      ensures PointsFound(f, loop, info, points) && ModesFound(f, loop, info, points, modes)
      ensures found <==> points != map[]
      ensures found <==> !Quiet(f, loop, info)
    {
      hide PointsOf, Labelled, MixedPhis, Insts, PointsFound, ModesFound;
      PointsFoundNone(f, info);
      modes, points := map[], map[];
      var n := 0;
      while n < |loop|
        invariant n <= |loop|
        invariant PointsFound(f, loop[..n], info, points) && ModesFound(f, loop[..n], info, points, modes)
      {
        var bb := loop[n];
        var pts, uniform, lastSeenMode := ScanBlock(f.blocks[bb], info);
        assert bb !in loop[..n] && loop[..n + 1] == loop[..n] + [bb];
        PointsFoundMore(f, loop[..n], bb, info, points);
        ModesFoundMore(f, loop[..n], bb, info, points, modes, pts, uniform, lastSeenMode);
        if pts != [] {
          points := points[bb := pts];
        }
        if uniform {
          modes := modes[bb := lastSeenMode];
        }
        n := n + 1;
      }
      assert loop[..n] == loop;
      found := points != map[];
      PointsFoundAny(f, loop, info, points);
    }

    // One entry of the map of points: split at its points, the last one first.
    method SplitAtPoints(bb: Label, pts: seq<Point>, modes0: map<Label, Mode>, ghost info: IteratorInfo)
      returns (modes: map<Label, Mode>)
      requires Valid() && bb in f.blocks && (forall l <- modes0 :: l < nextLabel)
      requires pts == PointsOf(f.blocks[bb], info) && pts != []
      modifies this
      ensures Valid() && nextLabel == old(nextLabel) + |pts| && nextId == old(nextId) + |pts|
      ensures |pts| == |AllCuts(old(f).blocks[bb], info)|
      ensures bb < old(nextLabel)
      ensures f == SplitMany(old(f), bb, BodyCuts(old(f).blocks[bb], info), old(nextLabel), old(nextId))
      ensures loops == JoinMany(old(loops), bb, old(nextLabel), |pts|)
      ensures ModesRecorded(modes0, modes, old(f).blocks[bb], info, bb, old(nextLabel))
    {
      hide *;
      ghost var b := f.blocks[bb];
      ghost var ks := BodyCuts(b, info);
      CountPoints(b, info);
      KnownBlock(bb);
      UnderwayStart(f, loops, nextLabel, nextId, bb, ks);
      RecordedStart(modes0, nextLabel, pts);
      modes := modes0;
      var i := |pts|;
      var lastMode: Mode := pts[0].mode;
      while i > 0
        invariant 0 <= i <= |pts| && Valid()
        invariant Underway(old(f), old(loops), old(nextLabel), old(nextId), f, loops, nextLabel, nextId, bb, ks, i)
        invariant i < |pts| ==> lastMode == pts[i].mode
        invariant Recorded(modes0, modes, old(nextLabel), pts, i)
      {
        i := i - 1;
        UnderwayPosition(old(f), old(loops), old(nextLabel), old(nextId), f, loops, nextLabel, nextId, bb, info, i);
        UnderwayStep(old(f), old(loops), old(nextLabel), old(nextId), f, loops, nextLabel, nextId, bb, ks, i);
        RecordedStep(modes0, modes, old(nextLabel), pts, i, nextLabel);
        var nb := SplitBlock(bb, pts[i].at);
        lastMode := pts[i].mode;
        modes := Emplace(modes, nb, lastMode);
      }
      UnderwayEnd(old(f), old(loops), old(nextLabel), old(nextId), f, loops, nextLabel, nextId, bb, ks);
      RecordedEnd(modes0, modes, old(nextLabel), pts, bb, b, info);
      modes := Emplace(modes, bb, InvertMode(lastMode));
    }

    // One entry on the way through all of them, since the state f0, loops0, br0.
    method SplitNext(bb: Label, points: map<Label, seq<Point>>, modes0: map<Label, Mode>, ghost cur: nat, ghost info: IteratorInfo,
                     ghost rest: set<Label>, ghost f0: Func, ghost loops0: seq<seq<Label>>, ghost br0: Id, ghost origin0: map<Label, Origin>,
                     ghost given: Given, ghost slices0: map<Label, Slice>)
      returns (modes: map<Label, Mode>, ghost origin: map<Label, Origin>, ghost slices: map<Label, Slice>)
      requires Valid() && cur < |loops| == |loops0| && bb in rest && bb in points && Preserved(f0, loops0, br0, f, loops, nextId)
      requires Midway(f0, loops0[cur], f, loops[cur], info, rest, points, nextLabel, modes0, origin0)
      requires Sliced(given, f, loops, slices0) && cur < |given.infos| && given.infos[cur] == Some(info)
      modifies this
      ensures Valid() && |loops| == |loops0| && nextId > old(nextId)
      ensures Preserved(f0, loops0, br0, f, loops, nextId)
      ensures Midway(f0, loops0[cur], f, loops[cur], info, rest - {bb}, points, nextLabel, modes, origin)
      ensures Sliced(given, f, loops, slices)
    {
      hide *;
      KnownLoops();
      MidwayPoints(f0, loops0[cur], f, loops[cur], info, rest, points, nextLabel, modes0, origin0, bb);
      KnownLabels();
      ghost var (f1, fs1, nb1, br1) := (f, loops, nextLabel, nextId);
      ghost var ks := BodyCuts(f.blocks[bb], info);
      modes := SplitAtPoints(bb, points[bb], modes0, info);
      PreservedBySplits(f1, fs1, bb, ks, nb1, br1);
      PreservedTwice(f0, loops0, br0, f1, fs1, br1, f, loops, nextId);
      MidwayStep(f0, loops0[cur], f1, fs1, cur, info, rest, points, bb, nb1, br1, modes0, modes, origin0);
      origin := AddPieces(origin0, bb, nb1, nextLabel - nb1);
      SliceOfEach(given, f1, fs1, slices0);
      SplitStaysSliced(given, f1, fs1, slices0, bb, info, cur, nb1, br1);
      slices := SplitSlices(slices0, f1.blocks[bb], bb, nb1, ks);
    }

    // All entries of the map of points, in any order.  `cur` is the loop they were found in.
    method SplitAtPartitionPoints(points: map<Label, seq<Point>>, modes0: map<Label, Mode>,
                                  ghost cur: nat, ghost info: IteratorInfo, ghost given: Given, ghost slices0: map<Label, Slice>)
      returns (modes: map<Label, Mode>, ghost origin: map<Label, Origin>, ghost slices: map<Label, Slice>)
      requires Valid() && cur < |loops|
      requires Sliced(given, f, loops, slices0) && cur < |given.infos| && given.infos[cur] == Some(info)
      requires PointsFound(f, loops[cur], info, points) && ModesFound(f, loops[cur], info, points, modes0)
      modifies this
      ensures Valid() && |loops| == |old(loops)|
      ensures Preserved(old(f), old(loops), old(nextId), f, loops, nextId)
      ensures SolidLoop(f, loops[cur], info) && Sliced(given, f, loops, slices)
      ensures ModesExact(old(f), old(loops)[cur], f, loops[cur], info, modes, origin)
      ensures Quiet(f, loops[cur], info) <==> PurePhis(old(f), old(loops)[cur], info)
      ensures if points == map[] then f == old(f) && loops == old(loops) && nextId == old(nextId) else nextId > old(nextId)
    {
      hide *;
      KnownLoop(cur);
      var rest := points.Keys;
      modes := modes0;
      PreservedNothing(f, loops, nextId);
      KnownLabels();
      AllRemain(f, loops[cur], info, points, modes0, nextLabel, nextId);
      origin := map l | l in loops[cur] :: Origin(l, 0);
      slices := slices0;
      MidwayIs(f, loops[cur], f, loops[cur], info, rest, points, nextLabel, modes, origin);
      while rest != {}
        invariant Valid() && |loops| == |old(loops)| && rest <= points.Keys
        invariant Preserved(old(f), old(loops), old(nextId), f, loops, nextId)
        invariant Midway(old(f), old(loops)[cur], f, loops[cur], info, rest, points, nextLabel, modes, origin)
        invariant Sliced(given, f, loops, slices)
        invariant if rest == points.Keys then f == old(f) && loops == old(loops) && nextId == old(nextId) else nextId > old(nextId)
        decreases |rest|
      {
        var bb :| bb in rest;
        modes, origin, slices := SplitNext(bb, points, modes, cur, info, rest, old(f), old(loops), old(nextId), origin, given, slices);
        rest := rest - {bb};
      }
      MidwayParts(old(f), old(loops)[cur], f, loops[cur], info, rest, points, nextLabel, modes, origin);
      AllSettled(old(f), f, loops[cur], info, points, nextLabel);
      AllMarked(old(f), old(loops)[cur], f, loops[cur], info, modes, origin, nextLabel);
      SecondRun(old(f), old(loops), old(nextId), f, loops, nextId, cur, info, modes);
    }

    // The pass: every loop in turn, with the iterator info there is for it.  Afterwards every block
    // of a loop with info is of one mode; blocks are slices of the old ones, between cuts that
    // some loop asked for; and something is split exactly when some loop asks for a cut.
    method Perform(infos: seq<Option<IteratorInfo>>) returns (hasChanged: bool, ghost slices: map<Label, Slice>)
      requires Valid() && |infos| == |loops|
      modifies this
      ensures Valid() && Preserved(old(f), old(loops), old(nextId), f, loops, nextId)
      ensures |loops| == |infos|
      ensures forall j :: 0 <= j < |loops| && infos[j].Some? ==> SolidLoop(f, loops[j], infos[j].value)
      ensures Sliced(Given(old(f), old(loops), infos), f, loops, slices)
      ensures hasChanged <==> AskedAny(Given(old(f), old(loops), infos), |infos|)
      ensures hasChanged <==> nextId > old(nextId)
      ensures !hasChanged ==> f == old(f) && loops == old(loops)
    {
      hide *;
      hasChanged := false;
      ghost var given := Given(f, loops, infos);
      slices := Wholes(f);
      SlicedAtFirst(given);
      KnownLoops();
      PreservedNothing(f, loops, nextId);
      var n := 0;
      AskedNone(given);
      while n < |loops|
        invariant Valid() && |loops| == |infos| && n <= |loops|
        invariant Preserved(old(f), old(loops), old(nextId), f, loops, nextId)
        invariant forall j :: 0 <= j < n && infos[j].Some? ==> SolidLoop(f, loops[j], infos[j].value)
        invariant Sliced(given, f, loops, slices) && (hasChanged <==> AskedAny(given, n))
        invariant if hasChanged then nextId > old(nextId) else f == old(f) && loops == old(loops) && nextId == old(nextId)
        decreases |infos| - n
      {
        if infos[n].Some? {
          var info := infos[n].value;
          KnownLoop(n);
          var modes, points, found := FindPartitionPoints(loops[n], info);
          AskedNext(given, n, info);
          ghost var (f1, fs1, br1) := (f, loops, nextId);
          if found {
            ghost var origin;
            modes, origin, slices := SplitAtPartitionPoints(points, modes, n, info, given, slices);
            PreservedTwice(old(f), old(loops), old(nextId), f1, fs1, br1, f, loops, nextId);
            forall j | 0 <= j < n && infos[j].Some? ensures SolidLoop(f, loops[j], infos[j].value) {
              StillSolid(f1, fs1, br1, f, loops, nextId, j, infos[j].value);
            }
            hasChanged := true;
          } else {
            QuietIsSolid(f, loops[n], info);
          }
        } else {
          AskedSkip(given, n);
        }
        n := n + 1;
      }
    }
  }

  // Among the first n loops, some loop with info has a block with a cut.
  ghost predicate AskedAny(v: Given, n: nat) {
    exists j :: 0 <= j < n && j < |v.loops| && j < |v.infos| && v.infos[j].Some?
      && exists l <- v.loops[j] :: l in v.f.blocks && AllCuts(v.f.blocks[l], v.infos[j].value) != []
  }

  lemma AskedNone(v: Given)
    ensures !AskedAny(v, 0)
  {
  }

  lemma AskedSkip(v: Given, n: nat)
    requires n < |v.infos| && v.infos[n].None?
    ensures AskedAny(v, n + 1) <==> AskedAny(v, n)
  {
    hide AllCuts;
  }

  lemma AskedNext(v: Given, n: nat, info: IteratorInfo)
    requires n < |v.infos| == |v.loops| && v.infos[n] == Some(info) && forall l <- v.loops[n] :: l in v.f.blocks
    ensures AskedAny(v, n + 1) <==> AskedAny(v, n) || !Quiet(v.f, v.loops[n], info)
  {
    hide AllCuts, PointsOf;
    forall l | l in v.loops[n] ensures PointsOf(v.f.blocks[l], info) == [] <==> AllCuts(v.f.blocks[l], info) == [] {
      CountPoints(v.f.blocks[l], info);
    }
  }
}
