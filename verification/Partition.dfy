/** Where the block separator cuts a block, why no cut can be spared, and what is left in
    each piece after llvm::SplitBlock has been applied at every cut from the back. */
module Partition {
  import opened Collections
  import opened Ssa

  datatype Mode = Iterator | Payload
  type IteratorInfo = Id -> bool
  datatype Point = Point(at: Id, mode: Mode)

  function InvertMode(m: Mode): Mode { if m == Payload then Iterator else Payload }

  function GetMode(i: Id, info: IteratorInfo): Mode { if info(i) then Iterator else Payload }

  // ---------- a block as one list of instructions ----------

  function BodyIds(body: seq<Instr>): seq<Id> { seq(|body|, k requires 0 <= k < |body| => body[k].id) }

  function Insts(b: Block): seq<Id> { PhiIds(b.phis) + BodyIds(b.body) + [b.term.id] }

  // The same instructions in the same order; only what phis say about predecessors may differ.
  ghost predicate SameInsts(a: Block, b: Block) {
    PhiIds(a.phis) == PhiIds(b.phis) && a.body == b.body && a.term == b.term
  }

  function ModeAt(b: Block, info: IteratorInfo, i: nat): Mode
    requires i < |Insts(b)|
  {
    GetMode(Insts(b)[i], info)
  }

  // An unconditional branch goes with either mode.
  predicate Wild(b: Block, i: nat) { i == |Insts(b)| - 1 && IsUnconditional(b.term) }

  predicate MixedPhis(b: Block, info: IteratorInfo) {
    exists k :: 0 <= k < |b.phis| && ModeAt(b, info, k) != ModeAt(b, info, 0)
  }

  // ---------- the cuts ----------

  predicate Changes(b: Block, info: IteratorInfo, i: nat)
    requires 0 < i < |Insts(b)|
  {
    ModeAt(b, info, i) != ModeAt(b, info, i - 1) && !Wild(b, i)
  }

  // Is there a cut just before instruction i?  Mixed phis are cut off as a whole.
  predicate IsCut(b: Block, info: IteratorInfo, i: nat)
    requires i < |Insts(b)|
  {
    if MixedPhis(b, info) then i == |b.phis| || (i > |b.phis| && Changes(b, info, i))
    else i > 0 && Changes(b, info, i)
  }

  function Cuts(b: Block, info: IteratorInfo, n: nat): seq<nat>
    requires n <= |Insts(b)|
  {
    if n == 0 then []
    else Cuts(b, info, n - 1) + if IsCut(b, info, n - 1) then [n - 1] else []
  }

  function AllCuts(b: Block, info: IteratorInfo): seq<nat> { Cuts(b, info, |Insts(b)|) }

  function CutSet(b: Block, info: IteratorInfo): set<nat> { Elements(AllCuts(b, info)) }

  // The mode recorded with a cut.  After mixed phis it is the wrong one.
  function CutMode(b: Block, info: IteratorInfo, i: nat): Mode
    requires i < |Insts(b)|
  {
    if MixedPhis(b, info) && i == |b.phis| then InvertMode(ModeAt(b, info, i)) else ModeAt(b, info, i)
  }

  lemma CutAfterPhis(b: Block, info: IteratorInfo, i: nat)
    requires i < |Insts(b)| && IsCut(b, info, i)
    ensures 0 < i && |b.phis| <= i
  {
  }

  lemma {:induction false} CutsSorted(b: Block, info: IteratorInfo, n: nat)
    requires n <= |Insts(b)|
    ensures forall k :: 0 <= k < |Cuts(b, info, n)| ==> |b.phis| <= Cuts(b, info, n)[k] < n
    ensures forall k :: 0 <= k < |Cuts(b, info, n)| ==> Cuts(b, info, n)[k] > 0 && IsCut(b, info, Cuts(b, info, n)[k])
    ensures forall j, k :: 0 <= j < k < |Cuts(b, info, n)| ==> Cuts(b, info, n)[j] < Cuts(b, info, n)[k]
    ensures forall i :: 0 <= i < n && IsCut(b, info, i) ==> i in Cuts(b, info, n)
  {
    hide IsCut, Insts;
    if n > 0 {
      CutsSorted(b, info, n - 1);
      var (before, cuts) := (Cuts(b, info, n - 1), Cuts(b, info, n));
      hide Cuts;
      if IsCut(b, info, n - 1) {
        CutAfterPhis(b, info, n - 1);
        assert cuts[|before|] == n - 1;
      }
      forall i | 0 <= i < n - 1 && IsCut(b, info, i) ensures i in cuts { assert i in before; }
    }
  }

  // ---------- the cuts are the least possible ----------

  // Cutting before the positions in `cuts` leaves pieces of one mode each.
  ghost predicate SingleModePieces(b: Block, info: IteratorInfo, from: nat, cuts: set<nat>) {
    forall i, j :: from <= i < j < |Insts(b)| && !Wild(b, j) && (forall c <- cuts :: !(i < c <= j))
      ==> ModeAt(b, info, i) == ModeAt(b, info, j)
  }

  lemma {:induction false} ModesAgree(b: Block, info: IteratorInfo, i: nat, j: nat)
    requires i <= j < |Insts(b)| && !Wild(b, j)
    requires MixedPhis(b, info) ==> |b.phis| <= i
    requires forall c <- AllCuts(b, info) :: !(i < c <= j)
    ensures ModeAt(b, info, i) == ModeAt(b, info, j)
    decreases j
  {
    hide Cuts, Insts;
    CutsSorted(b, info, |Insts(b)|);
    if i < j {
      ModesAgree(b, info, i, j - 1);
      assert j in AllCuts(b, info) ==> i < j <= j;
      assert !IsCut(b, info, j);
    }
  }

  // The cuts do the job.  When the phis are mixed, they do it for everything after the phis.
  lemma CutsSuffice(b: Block, info: IteratorInfo)
    ensures SingleModePieces(b, info, if MixedPhis(b, info) then |b.phis| else 0, CutSet(b, info))
  {
    var from := if MixedPhis(b, info) then |b.phis| else 0;
    var cuts := CutSet(b, info);
    assert forall c <- AllCuts(b, info) :: c in cuts;
    forall i, j | from <= i < j < |Insts(b)| && !Wild(b, j) && (forall c <- cuts :: !(i < c <= j))
      ensures ModeAt(b, info, i) == ModeAt(b, info, j)
    {
      ModesAgree(b, info, i, j);
    }
    assert SingleModePieces(b, info, from, cuts);
  }

  lemma {:induction false} SetOfDistinct(xs: seq<nat>)
    requires forall j, k :: 0 <= j < k < |xs| ==> xs[j] < xs[k]
    ensures |Elements(xs)| == |xs|
  {
    if xs != [] {
      var n := |xs| - 1;
      SetOfDistinct(xs[..n]);
      assert Elements(xs) == Elements(xs[..n]) + {xs[n]};
      assert xs[n] !in Elements(xs[..n]);
    }
  }

  lemma CutIsForced(b: Block, info: IteratorInfo, cuts: set<nat>, c: nat)
    requires !MixedPhis(b, info)
    requires SingleModePieces(b, info, 0, cuts)
    requires c in AllCuts(b, info)
    ensures c in cuts
  {
    CutsSorted(b, info, |Insts(b)|);
    assert c > 0 && IsCut(b, info, c);
    if c !in cuts {
      assert forall x <- cuts :: !(c - 1 < x <= c);
    }
  }

  // No way of cutting the block into pieces of one mode does without any of the cuts, so
  // none has fewer pieces.
  lemma CutsAreLeast(b: Block, info: IteratorInfo, cuts: set<nat>)
    requires !MixedPhis(b, info)
    requires SingleModePieces(b, info, 0, cuts)
    ensures CutSet(b, info) <= cuts
    ensures |AllCuts(b, info)| <= |cuts|
  {
    forall c | c in AllCuts(b, info) ensures c in cuts {
      CutIsForced(b, info, cuts, c);
    }
    CutsSorted(b, info, |Insts(b)|);
    SetOfDistinct(AllCuts(b, info));
    SubsetSize(CutSet(b, info), cuts);
  }

  lemma {:induction false} SubsetSize<T>(a: set<T>, b: set<T>)
    requires a <= b
    ensures |a| <= |b|
  {
    if a != {} {
      var x :| x in a;
      SubsetSize(a - {x}, b - {x});
    }
  }

  // Neighbouring pieces never have the same mode: every cut separates two modes.
  lemma CutsAlternate(b: Block, info: IteratorInfo, k: nat)
    requires !MixedPhis(b, info) && k < |AllCuts(b, info)|
    ensures var from := if k == 0 then 0 else AllCuts(b, info)[k - 1];
            from < |Insts(b)| && AllCuts(b, info)[k] < |Insts(b)| &&
            ModeAt(b, info, from) == InvertMode(CutMode(b, info, AllCuts(b, info)[k]))
  {
    hide Cuts, Insts;
    CutsSorted(b, info, |Insts(b)|);
    var cs := AllCuts(b, info);
    var from := if k == 0 then 0 else cs[k - 1];
    forall c <- cs ensures !(from < c <= cs[k] - 1) {
      var j :| 0 <= j < |cs| && cs[j] == c;
    }
    assert IsCut(b, info, cs[k]) && !Wild(b, cs[k] - 1);
    ModesAgree(b, info, from, cs[k] - 1);
  }
}
