/** Functions on which the passes do less than their comments promise. */
module Counterexamples {
  import opened Collections
  import opened Ssa
  import opened Split
  import opened Partition
  import opened Pieces
  import opened BlockSeparator
  import opened Clone
  import opened InputsOutputs
  import opened InputOutputMap
  import opened Sever
  import opened ExtractorRegion
  import opened CodeExtractors
  import opened CloneStages
  import opened Closure
  import opened StaleInputs
  import opened StackAllocas
  import opened Flatten
  import opened PayloadTree
  import opened LoopBodyCloners
  import opened Delivery

  function Plus(xs: seq<int>): int { Nth(xs, 0) + 1 }

  // ---------- two inputs, one cell ----------

  // Both phis of block 1 are updated in block 2, the region; on the way over block 3 the first
  // takes over the second.
  function Swapping(): Func {
    Func(0, [], map[0 := Block([], [], Term(30, [], [1])), 1 := Phis(), 2 := Updates(), 3 := Block([], [], Term(33, [], [1]))])
  }

  function Phis(): Block {
    Block([Phi(1, [Incoming(0, Const(0)), Incoming(2, Inst(5)), Incoming(3, Inst(6))]),
           Phi(2, [Incoming(0, Const(0)), Incoming(2, Inst(6)), Incoming(3, Inst(6))])], [], Term(31, [], [2]))
  }

  function Updates(): Block {
    Block([], [Instr(5, Compute(Plus), [Inst(1)]), Instr(6, Compute(Plus), [Inst(2)])], Term(32, [Inst(5)], [1, 3]))
  }

  function Incoming12(): Incomings { map[Inst(1) := [Const(0), Inst(5), Inst(6)], Inst(2) := [Const(0), Inst(6), Inst(6)]] }

  lemma SwappingUses()
    ensures Uses(Updates()) == [Inst(1), Inst(2), Inst(5)] && Insts(Updates()) == [5, 6, 32]
    ensures Inst(5) in Uses(Phis()) && Inst(6) in Uses(Phis()) && Inst(32) !in Uses(Phis())
    ensures Insts(Phis()) == [1, 2, 31]
  {
    var (body, phis) := (Updates().body, Phis().phis);
    assert body[1..] == [body[1]] && body[1..][1..] == [];
    assert phis[1..] == [phis[1]] && phis[1..][1..] == [];
    assert PhiIds([]) == [] && BodyIds(body) == [5, 6] && PhiIds(phis) == [1, 2] && BodyIds([]) == [];
    assert IncUses(phis[0].inc) == [Const(0), Inst(5), Inst(6)] && IncUses(phis[1].inc) == [Const(0), Inst(6), Inst(6)];
    assert PhiUses(phis) == [Const(0), Inst(5), Inst(6)] + ([Const(0), Inst(6), Inst(6)] + []);
    assert BodyUses([]) == [] && PhiUses([]) == [];
  }

  lemma AddThree(f: Func, a: Value, b: Value, c: Value)
    requires DefinedInCaller(f, [2], a) && DefinedInCaller(f, [2], b) && !DefinedInCaller(f, [2], c) && a != b
    ensures AddInputs(f, [2], [], [a, b, c]) == [a, b]
  {
    hide DefinedInCaller, AddInputs;
    assert [] + [a] == [a] && [a] + [b] == [a, b] && [a, b] + [c] == [a, b, c];
    AddOne(f, [], a);
    AddOne(f, [a], b);
    AddOne(f, [a, b], c);
  }

  // Of a list with one more value, the inputs are those before and the value, if it is one.
  lemma AddOne(f: Func, vs: seq<Value>, v: Value)
    ensures AddInputs(f, [2], [], vs + [v]) ==
            if DefinedInCaller(f, [2], v) then Insert(AddInputs(f, [2], [], vs), v) else AddInputs(f, [2], [], vs)
    ensures AddInputs(f, [2], [], []) == []
  {
    hide DefinedInCaller;
    assert (vs + [v])[..|vs|] == vs;
  }

  lemma AddThreeOutputs(f: Func, a: Id, b: Id, c: Id)
    requires UsedOutside(f, [2], Inst(a)) && UsedOutside(f, [2], Inst(b)) && !UsedOutside(f, [2], Inst(c)) && a != b
    ensures AddOutputs(f, [2], [], [a, b, c]) == [Inst(a), Inst(b)]
  {
    hide UsedOutside;
    assert [a, b, c][..2] == [a, b] && [a, b][..1] == [a] && [a][..0] == [];
    assert AddOutputs(f, [2], [], [a]) == [Inst(a)];
    assert AddOutputs(f, [2], [], [a, b]) == [Inst(a), Inst(b)];
  }

  lemma SwappingInputs()
    ensures InputsOf(Swapping(), [2]) == [Inst(1), Inst(2)]
  {
    hide Uses, Insts, Phis, Updates;
    var f := Swapping();
    SwappingUses();
    assert [2][..0] == [] && RegionUses(f, []) == [];
    assert RegionUses(f, [2]) == [Inst(1), Inst(2), Inst(5)];
    assert f.blocks[2] == Updates() && 2 in [2];
    forall v | v == Inst(1) || v == Inst(2) ensures !DefinedInRegion(f, [2], v) {}
    assert DefinedInRegion(f, [2], Inst(5)) by { assert Insts(f.blocks[2])[0] == 5; }
    AddThree(f, Inst(1), Inst(2), Inst(5));
  }

  lemma SwappingOutputs()
    ensures OutputsOf(Swapping(), [2]) == [Inst(5), Inst(6)]
  {
    hide Uses, Insts, Phis, Updates;
    var f := Swapping();
    SwappingUses();
    assert [2][..0] == [] && RegionInsts(f, []) == [];
    assert RegionInsts(f, [2]) == [5, 6, 32];
    assert f.blocks[1] == Phis() && 1 !in [2];
    assert UsedOutside(f, [2], Inst(5)) && UsedOutside(f, [2], Inst(6));
    assert !UsedOutside(f, [2], Inst(32)) by { SwappingEnds(); }
    AddThreeOutputs(f, 5, 6, 32);
  }

  lemma SwappingEnds()
    ensures Uses(Block([], [], Term(30, [], [1]))) == [] && Uses(Block([], [], Term(33, [], [1]))) == []
  {
    assert PhiUses([]) == [] && BodyUses([]) == [];
  }

  lemma SwappingPhis()
    ensures IncomingsOf(Swapping(), Incoming12())
  {
    var (f, phis) := (Swapping(), Phis().phis);
    assert IncUses(phis[0].inc) == [Const(0), Inst(5), Inst(6)] && IncUses(phis[1].inc) == [Const(0), Inst(6), Inst(6)];
    assert PhiKeys([]) == {};
    assert PhiKeys(phis) == {Inst(1), Inst(2)} by { assert phis[0].id == 1 && phis[1].id == 2; }
    var ls := f.blocks.Keys;
    assert ls == {0, 1, 2, 3} && f.blocks[1] == Phis();
    forall v ensures v in Incoming12() <==> exists l <- f.blocks :: l in ls && v in PhiKeys(f.blocks[l].phis) {
      if v in Incoming12() { assert v in PhiKeys(f.blocks[1].phis); }
    }
  }

  // A region for which the extractor makes two inputs share a cell.
  lemma SharedCell()
    ensures var (f, incs) := (Swapping(), Incoming12());
            var (inputs, outputs) := (InputsOf(f, [2]), OutputsOf(f, [2]));
            var (io, oi) := (IOMap(inputs, outputs, incs), OIMap(inputs, outputs, incs));
            && IncomingsOf(f, incs)
            && Inst(1) in inputs && Inst(2) in inputs && Bidirectional(oi, Inst(1)) && Bidirectional(oi, Inst(2))
            && Inst(1) in io && Inst(2) in io && io[Inst(1)] == io[Inst(2)]
            && !CellsAreApart(inputs, outputs, incs)
  {
    hide IncomingsOf, IOMap, OIMap, InputsOf, OutputsOf, Swapping;
    SwappingInputs();
    SwappingOutputs();
    SwappingPhis();
    SharedLists();
    var (inputs, outputs, incs) := ([Inst(1), Inst(2)], [Inst(5), Inst(6)], Incoming12());
    BidirectionalIff(inputs, outputs, incs, Inst(1));
    BidirectionalIff(inputs, outputs, incs, Inst(2));
    CellOfLast(inputs, outputs, incs, Inst(1));
    CellOfLast(inputs, outputs, incs, Inst(2));
    SameCellIff(inputs, outputs, incs, Inst(1), Inst(2));
  }

  lemma SharedLists()
    ensures var (inputs, outputs, incs) := ([Inst(1), Inst(2)], [Inst(5), Inst(6)], Incoming12());
            && OwnsOutput(inputs, outputs, incs, Inst(1)) && OwnsOutput(inputs, outputs, incs, Inst(2))
            && LastTaken(outputs, incs, Inst(1)) == LastTaken(outputs, incs, Inst(2)) == Some(Inst(6))
  {
    var (inputs, outputs, incs) := ([Inst(1), Inst(2)], [Inst(5), Inst(6)], Incoming12());
    assert inputs[..1] == [Inst(1)];
    assert LastTaker(inputs, incs, Inst(5)) == Some(Inst(1)) && LastTaker(inputs, incs, Inst(6)) == Some(Inst(2));
    assert Inst(5) in outputs && Inst(6) in outputs;
  }

  // ---------- phis of both modes ----------

  // Block 1 is a loop of its own.  Phi 1 and its step belong to the iterator, phi 2 and its step
  // to the payload.
  function MixedLoop(): Func { Func(0, [], map[0 := Jump(30, [1]), 1 := MixedBlock(), 2 := Jump(31, [])]) }

  function MixedBlock(): Block {
    Block([Phi(1, [Incoming(0, Const(0)), Incoming(1, Inst(3))]), Phi(2, [Incoming(0, Const(0)), Incoming(1, Inst(4))])],
          [Instr(3, Compute(Plus), [Inst(1)]), Instr(4, Compute(Plus), [Inst(2)])], Term(5, [Inst(3)], [1, 2]))
  }

  function Counting(): IteratorInfo { (i: Id) => i == 1 || i == 3 || i == 5 }

  lemma InstsOfMixed()
    ensures Insts(MixedBlock()) == [1, 2, 3, 4, 5] && MixedPhis(MixedBlock(), Counting())
    ensures AllCuts(MixedBlock(), Counting()) == [2, 3, 4]
  {
    var (b, info) := (MixedBlock(), Counting());
    assert PhiIds(b.phis) == [1, 2] && BodyIds(b.body) == [3, 4];
    assert ModeAt(b, info, 1) != ModeAt(b, info, 0) && MixedPhis(b, info);
    assert Cuts(b, info, 0) == [] && Cuts(b, info, 1) == [] && Cuts(b, info, 2) == [];
    assert Cuts(b, info, 3) == [2] && Cuts(b, info, 4) == [2, 3] && Cuts(b, info, 5) == [2, 3, 4];
  }

  // The block is split after its phis, which have an entry for every predecessor.  The piece
  // right behind them is the step of the iterator, and the mode recorded for it is the payload's.
  lemma WrongMode()
    ensures var (b, info) := (MixedLoop().blocks[1], Counting());
            var p := Block([], b.body[..1], Term(40, [], [10]));
            && PhisComplete(MixedLoop(), 1) && BodyCuts(b, info) == [0, 1, 2]
            && IsPiece(b, p, 1, 9, BodyCuts(b, info), 1)
            && PieceMode(b, info, 1) == Payload && Labelled(p, info, Iterator) && !Labelled(p, info, PieceMode(b, info, 1))
  {
    InstsOfMixed();
    var (b, info) := (MixedBlock(), Counting());
    MixedCuts(b, info);
    var p := Block([], b.body[..1], Term(40, [], [10]));
    assert PhiIds([]) == [] && Insts(p) == [3, 40];
    assert ModeAt(p, info, 0) == Iterator && !Wild(p, 0);
    MixedComplete();
  }

  lemma MixedComplete()
    ensures PhisComplete(MixedLoop(), 1)
  {
    var f := MixedLoop();
    assert f.blocks.Keys == {0, 1, 2};
    forall p, m | p in f.blocks[1].phis && m in f.blocks && 1 in f.blocks[m].term.dests ensures m in Froms(p.inc) {
      assert p.inc[0] in p.inc && p.inc[1] in p.inc;
    }
  }

  // ---------- a second preparation ----------

  // With one input that is a condition of the loop nest, the second prepare() finds its slot and
  // lists its initial value again.
  lemma PreparedTwice()
    ensures var (inputs, q) := (InputsOf(Swapping(), [2]), Loops({Inst(1)}, {}, {}, map[]));
            && Exclusive(inputs, q) && OneCase(inputs, q)
            && AddAllocas([], inputs, q) == [Inst(1)] && AddAllocas(AddAllocas([], inputs, q), inputs, q) == [Inst(1)]
            && InitsOf(inputs, q) + InitsOf(inputs, q) == [Some(CONDITION_START), Some(CONDITION_START)]
  {
    hide InputsOf, Swapping, InitsFor, AddAllocas, InitsOf;
    SwappingInputs();
    OneSlot(Loops({Inst(1)}, {}, {}, map[]));
  }

  lemma OneSlot(q: Loops)
    requires q == Loops({Inst(1)}, {}, {}, map[])
    ensures var inputs := [Inst(1), Inst(2)];
            && Exclusive(inputs, q) && OneCase(inputs, q) && InitsOf(inputs, q) == [Some(CONDITION_START)]
            && AddAllocas([], inputs, q) == [Inst(1)] && AddAllocas([Inst(1)], inputs, q) == [Inst(1)]
  {
    hide AddAllocas, InitsOf;
    var inputs: seq<Value> := [Inst(1), Inst(2)];
    assert inputs[..2] == inputs && InitsFor(q, Inst(1)) == [Some(CONDITION_START)] && InitsFor(q, Inst(2)) == [];
    OneScanned([], inputs, q, 0);
    OneScanned([], inputs, q, 1);
    OneScanned([Inst(1)], inputs, q, 0);
    OneScanned([Inst(1)], inputs, q, 1);
    NoneScanned([], inputs, q);
    NoneScanned([Inst(1)], inputs, q);
  }

  // ---------- an index that is dropped ----------

  // The element [1][0][0] by way of a pointer to the first of several int[2][3]: 24 bytes on, and
  // the new access reads the first element instead.
  lemma DroppedIndex()
    ensures var t := Array(2, Array(3, Scalar(4)));
            && |Dims(t)| == 2
            && Address(1000, t, 1, [0, 0]) == 1024 && Wrap(1000 + Wrap(Flat(Dims(t), [0, 0])) * SizeOf(Basic(t))) == 1000
  {
    var t := Array(2, Array(3, Scalar(4)));
    assert Dims(t.elem.elem) == [] && Dims(t.elem) == [3] && Dims(t) == [2, 3];
    assert [2, 3][1..] == [3] && [3][1..] == [] && [0, 0][1..] == [0] && [0][1..] == [];
    assert Flat([3], [0]) == 0 && Within(t.elem, [0]) == 0;
  }

  // ---------- functions that are not closed ----------

  // Blocks 2 and 3 are the region; block 1 leads into both.
  function TwoWaysIn(): Func {
    Func(0, [], map[0 := Jump(30, [1]), 1 := Jump(31, [2, 3]), 2 := Block([], [Instr(5, Compute(Plus), [Const(0)])], Term(32, [], [3])),
                    3 := Block([Phi(6, [Incoming(1, Const(0)), Incoming(2, Inst(5))])], [], Term(33, [], [4])), 4 := Jump(34, [])])
  }

  // The same edges without phis.
  function TwoWaysNoPhi(): Func {
    Func(0, [], map[0 := Jump(30, [1]), 1 := Jump(31, [2, 3]), 2 := Jump(32, [3]), 3 := Jump(33, [4]), 4 := Jump(34, [])])
  }

  // Block 2 is the region: a loop that is entered from blocks 0 and 1.
  function EnteredLoop(): Func {
    Func(0, [], map[0 := Jump(30, [1, 2]), 1 := Jump(31, [2]), 2 := Loop(), 3 := Jump(33, [])])
  }

  function Loop(): Block {
    Block([Phi(5, [Incoming(0, Const(0)), Incoming(1, Const(1)), Incoming(2, Inst(6))])], [Instr(6, Compute(Plus), [Inst(5)])], Term(32, [], [2, 3]))
  }

  function Jump(id: Id, dests: seq<Label>): Block { Block([], [], Term(id, [], dests)) }

  // A block of at most one phi and one instruction.
  lemma SmallBlock(b: Block)
    requires |b.phis| <= 1 && |b.body| <= 1
    requires (b.phis != [] ==> b.phis[0].id < b.term.id) && (b.body != [] ==> b.body[0].id < b.term.id)
    requires b.phis != [] && b.body != [] ==> b.phis[0].id != b.body[0].id
    ensures Distinct(Insts(b)) && b.term.id in Insts(b)
    ensures forall x <- Insts(b) :: x == b.term.id || (b.phis != [] && x == b.phis[0].id) || (b.body != [] && x == b.body[0].id)
    ensures forall v <- Uses(b) :: v in b.term.ops || (b.body != [] && v in b.body[0].ops) || (b.phis != [] && v in IncUses(b.phis[0].inc))
  {
    assert PhiUses([]) == [] && BodyUses([]) == [];
    if b.body != [] { assert b.body[1..] == []; }
    if b.phis != [] { assert b.phis[1..] == []; }
  }

  lemma TwoWaysInBlocks()
    ensures forall l <- TwoWaysIn().blocks :: l < 5 && Distinct(Insts(TwoWaysIn().blocks[l]))
    ensures var b := TwoWaysIn().blocks;
            && (forall x <- Insts(b[0]) :: x == 30) && (forall x <- Insts(b[1]) :: x == 31) && (forall x <- Insts(b[2]) :: x == 5 || x == 32)
            && (forall x <- Insts(b[3]) :: x == 6 || x == 33) && forall x <- Insts(b[4]) :: x == 34
    ensures forall l <- TwoWaysIn().blocks, v <- Uses(TwoWaysIn().blocks[l]) :: v == Const(0) || v == Inst(5)
  {
    hide Insts, Uses, Distinct;
    var b := TwoWaysIn().blocks;
    SmallBlock(b[0]);
    SmallBlock(b[1]);
    SmallBlock(b[2]);
    SmallBlock(b[3]);
    SmallBlock(b[4]);
    assert IncUses(b[3].phis[0].inc) == [Const(0), Inst(5)];
    assert b.Keys == {0, 1, 2, 3, 4};
  }

  lemma TwoWaysInReady()
    ensures Ready(TwoWaysIn(), 5, 40, [2, 3])
  {
    hide Below, UniqueIds, Distinct;
    TwoWaysInBelow();
    TwoWaysInUnique();
    TwoLabels(2, 3);
  }

  lemma TwoWaysInBelow()
    ensures Below(TwoWaysIn(), 5, 40)
  {
    hide BlockBelow;
    var b := TwoWaysIn().blocks;
    JumpBelow(30, [1], 5);
    JumpBelow(31, [2, 3], 5);
    JumpBelow(34, [], 5);
    assert BlockBelow(b[2], 5, 40) && BlockBelow(b[3], 5, 40) by { TwoWaysInRegionBelow(); }
  }

  lemma JumpBelow(id: Id, dests: seq<Label>, n: Label)
    requires id < 40 && forall d <- dests :: d < n
    ensures BlockBelow(Jump(id, dests), n, 40)
  {
  }

  lemma TwoWaysInRegionBelow()
    ensures BlockBelow(TwoWaysIn().blocks[2], 5, 40) && BlockBelow(TwoWaysIn().blocks[3], 5, 40)
  {
  }

  lemma TwoWaysInUnique()
    ensures UniqueIds(TwoWaysIn())
  {
    hide Insts, Uses, Distinct;
    TwoWaysInBlocks();
    assert TwoWaysIn().blocks.Keys == {0, 1, 2, 3, 4};
  }

  lemma TwoWaysInVerified()
    ensures Verified(TwoWaysIn())
  {
    hide Insts, Uses;
    var f := TwoWaysIn();
    TwoWaysInBlocks();
    forall l | l in f.blocks ensures f.blocks[l].term.id >= 30 {}
    forall l, x, e | l in f.blocks && x in f.blocks[l].phis && e in x.inc ensures e.from in f.blocks && l in f.blocks[e.from].term.dests {
      assert l == 3;
    }
    hide TwoWaysIn;
  }

  lemma TwoWaysInRegion()
    ensures var f := TwoWaysIn();
            && ExtractionBlocks(f, [2, 3]) == [2, 3] && GoodHeader(f, [2, 3], 2)
            && !NeedsSevering(f, [2, 3], 2) && !PhisWithin(f, [2, 3], 2)
  {
    var b := TwoWaysIn().blocks[3];
    assert b.phis[0] in b.phis && b.phis[0].inc[0] in b.phis[0].inc;
    assert 3 in [2, 3] && 1 !in [2, 3] && b.phis[0].inc[0].from == 1;
  }

  // All that the extractor asks for is met, and the function it delivers is not closed.
  lemma TwoWaysInNotClosed(pointers: set<Value>, r: Preparation, f1: Func, g: Func, m: Made)
    ensures Ready(TwoWaysIn(), 5, 40, [2, 3]) && GoodHeader(TwoWaysIn(), [2, 3], 2) && Verified(TwoWaysIn())
    ensures ExtractionBlocks(TwoWaysIn(), [2, 3]) == [2, 3] && !NeedsSevering(TwoWaysIn(), [2, 3], 2)
    ensures Delivered(TwoWaysIn(), [2, 3], pointers, r, f1, g, m) ==> !Closed(g)
  {
    hide PhisWithin, Verified, Closed, IsMade, BuiltAsIs, InterfaceOf, TwoWaysIn, GoodHeader, NeedsSevering, Ready, Stored, ExtractionBlocks;
    TwoWaysInReady();
    TwoWaysInVerified();
    TwoWaysInRegion();
  }

  // A second entry alone does no harm: without phis the new function is closed.
  lemma TwoWaysNoPhiClosed(pointers: set<Value>, r: Preparation, f1: Func, g: Func, m: Made)
    ensures Verified(TwoWaysNoPhi()) && EnteredFromOutside(TwoWaysNoPhi(), [2, 3], 3)
    ensures Delivered(TwoWaysNoPhi(), [2, 3], pointers, r, f1, g, m) ==> Closed(g)
  {
    hide Verified, Closed, IsMade, BuiltAsIs, InterfaceOf, Stored;
    TwoWaysNoPhiVerified();
    assert 1 in TwoWaysNoPhi().blocks && 1 !in [2, 3] && 3 in Succs(TwoWaysNoPhi(), 1);
  }

  lemma TwoWaysNoPhiVerified()
    ensures Verified(TwoWaysNoPhi())
  {
    hide Uses, Insts;
    var f := TwoWaysNoPhi();
    forall l | l in f.blocks ensures Uses(f.blocks[l]) == [] { SmallBlock(f.blocks[l]); NoUses(f.blocks[l]); }
  }

  lemma NoUses(b: Block)
    requires b.phis == [] && b.body == [] && b.term.ops == []
    ensures Uses(b) == []
  {
  }

  lemma TwoLabels(a: Label, b: Label)
    requires a != b
    ensures Distinct([a, b]) && Distinct([a])
  {
  }

  lemma EnteredLoopBlocks()
    ensures forall l <- EnteredLoop().blocks :: l < 4 && Distinct(Insts(EnteredLoop().blocks[l]))
    ensures var b := EnteredLoop().blocks;
            && (forall x <- Insts(b[0]) :: x == 30) && (forall x <- Insts(b[1]) :: x == 31)
            && (forall x <- Insts(b[2]) :: x == 5 || x == 6 || x == 32) && forall x <- Insts(b[3]) :: x == 33
    ensures forall l <- EnteredLoop().blocks, v <- Uses(EnteredLoop().blocks[l]) :: v == Const(0) || v == Const(1) || v == Inst(5) || v == Inst(6)
  {
    hide Insts, Uses, Distinct;
    var b := EnteredLoop().blocks;
    SmallBlock(b[0]);
    SmallBlock(b[1]);
    SmallBlock(b[2]);
    SmallBlock(b[3]);
    assert IncUses(b[2].phis[0].inc) == [Const(0), Const(1), Inst(6)];
    assert b.Keys == {0, 1, 2, 3};
  }

  lemma EnteredLoopReady()
    ensures Ready(EnteredLoop(), 4, 40, [2])
  {
    hide Below, UniqueIds, Distinct;
    EnteredLoopBelow();
    EnteredLoopUnique();
    TwoLabels(2, 3);
  }

  lemma EnteredLoopBelow()
    ensures Below(EnteredLoop(), 4, 40)
  {
    hide BlockBelow, Loop;
    JumpBelow(30, [1, 2], 4);
    JumpBelow(31, [2], 4);
    JumpBelow(33, [], 4);
    LoopBelow();
  }

  lemma LoopBelow()
    ensures BlockBelow(Loop(), 4, 40)
  {
  }

  lemma EnteredLoopUnique()
    ensures UniqueIds(EnteredLoop())
  {
    hide Insts, Uses, Distinct;
    EnteredLoopBlocks();
    assert EnteredLoop().blocks.Keys == {0, 1, 2, 3};
  }

  lemma EnteredLoopVerified()
    ensures Verified(EnteredLoop())
  {
    hide Insts, Uses;
    var f := EnteredLoop();
    EnteredLoopBlocks();
    forall l | l in f.blocks ensures f.blocks[l].term.id >= 30 {}
    forall l, x, e | l in f.blocks && x in f.blocks[l].phis && e in x.inc ensures e.from in f.blocks && l in f.blocks[e.from].term.dests {
      assert l == 2;
    }
    hide EnteredLoop;
  }

  lemma EnteredLoopRegion()
    ensures var f := EnteredLoop();
            && ExtractionBlocks(f, [2]) == [2] && GoodHeader(f, [2], 2)
            && PhisWithin(f, [2], 2) && NeedsSevering(f, [2], 2) && !NoEdgeBack(f, [2], 2)
  {
    hide PhisWithin, GoodHeader, NeedsSevering, NoEdgeBack;
    EnteredLoopHeader();
    EnteredLoopSevered();
  }

  lemma EnteredLoopHeader()
    ensures GoodHeader(EnteredLoop(), [2], 2) && PhisWithin(EnteredLoop(), [2], 2)
  {
    var f := EnteredLoop();
    var inc := f.blocks[2].phis[0].inc;
    assert f.blocks.Keys == {0, 1, 2, 3};
    assert inc[0] in inc && inc[1] in inc && inc[2] in inc;
  }

  lemma EnteredLoopSevered()
    ensures NeedsSevering(EnteredLoop(), [2], 2) && !NoEdgeBack(EnteredLoop(), [2], 2)
  {
    hide Outside, Inside;
    assert PhisOf(EnteredLoop(), 2) == Loop().phis;
    EnteredLoopCounts(Loop().phis[0].inc);
  }

  lemma EnteredLoopCounts(inc: seq<Incoming>)
    requires inc == Loop().phis[0].inc
    ensures |Outside(inc, Elements([2]))| == 2 && |Inside(inc, Elements([2]))| == 1
  {
    var r := Elements([2]);
    assert inc[1..][1..] == [inc[2]] && inc[1..][0] == inc[1] && inc[1..][1..][1..] == [];
    assert 2 in r && 0 !in r && 1 !in r;
  }

  // Here the header is severed, and the new one keeps naming the phi of the old.
  lemma EnteredLoopNotClosed(pointers: set<Value>, r: Preparation, f1: Func, g: Func, m: Made)
    ensures Ready(EnteredLoop(), 4, 40, [2]) && GoodHeader(EnteredLoop(), [2], 2) && Verified(EnteredLoop())
    ensures ExtractionBlocks(EnteredLoop(), [2]) == [2] && PhisWithin(EnteredLoop(), [2], 2)
    ensures Delivered(EnteredLoop(), [2], pointers, r, f1, g, m) ==> !Closed(g)
  {
    hide PhisWithin, Verified, Closed, IsMade, BuiltAsIs, InterfaceOf, EnteredLoop, NeedsSevering, NoEdgeBack, GoodHeader, Ready, Stored, ExtractionBlocks;
    EnteredLoopReady();
    EnteredLoopVerified();
    EnteredLoopRegion();
  }
}
