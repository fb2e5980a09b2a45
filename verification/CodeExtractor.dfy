/** The code extractor: the function and the region it edits, and the new function it builds. */
module CodeExtractors {
  import opened Collections
  import opened Ssa
  import opened Split
  import opened Rewrite
  import opened Partition
  import opened Sever
  import opened SeverSteps
  import opened SeveredShape
  import opened ExtractorRegion
  import opened InputsOutputs
  import opened InputOutputMap
  import opened StackAllocas
  import opened ArgUtils
  import opened Clone
  import opened CloneSteps
  import opened CloneCall
  import opened CloneStages
  import opened CloneRuns
  import SeverRuns

  // Every inserted branch has a new id.
  ghost predicate New(hidden: set<Id>, ni: Id) { forall i <- hidden :: i >= ni }

  // The header of the region is entered from outside at one place.
  ghost predicate OneEntry(f: Func, blocks: seq<Label>, header: Label, from: Label) {
    && header in blocks && header in f.blocks && from !in blocks
    && forall m <- f.blocks :: m !in blocks && header in f.blocks[m].term.dests ==> m == from
  }

  // No branch leads back from the region to the header, as far as its first phi tells.
  predicate NoEdgeBack(f: Func, blocks: seq<Label>, header: Label) {
    header == f.entry || PhisOf(f, header) == [] || |Inside(PhisOf(f, header)[0].inc, Elements(blocks))| == 0
  }

  // What severing makes of the function: a split, or a severed function.
  ghost predicate SeveredAs(f: Func, blocks: seq<Label>, header: Label, nb: Label, br: Id, g: Func) {
    && header in f.blocks
    && if NoEdgeBack(f, blocks, header) then g == SplitBlock(f, header, 0, nb, br) else IsSevered(f, Elements(blocks), header, nb, br, g)
  }

  // No block of the region branches to the old header.
  ghost predicate NoWayBack(f: Func, blocks: seq<Label>, header: Label) {
    forall l <- blocks :: l in f.blocks && header !in f.blocks[l].term.dests
  }

  predicate Returns(f: Func, l: Label) { l in f.blocks && f.blocks[l].term.dests == [] }

  // Block l of g is block l of f, with its return moved away if it had one.
  ghost predicate ReturnMoved(f: Func, g: Func, l: Label, ni: Id) {
    && l in f.blocks && l in g.blocks && g.blocks[l].phis == f.blocks[l].phis && g.blocks[l].body == f.blocks[l].body
    && if Returns(f, l) then g.blocks[l].term.ops == [] && g.blocks[l].term.dests != [] && g.blocks[l].term.id >= ni
       else g.blocks[l].term == f.blocks[l].term
  }

  predicate ValidForExtraction(b: Block) { forall k :: 0 <= k < |b.body| ==> !b.body[k].code.Alloca? }

  function ExtractionBlocks(f: Func, blocks: seq<Label>): seq<Label> {
    if forall l <- blocks :: l in f.blocks && ValidForExtraction(f.blocks[l]) then blocks else []
  }

  // buildExtractionBlockSet: all of the blocks, or none.
  method BuildExtractionBlockSet(f: Func, blocks: seq<Label>) returns (result: seq<Label>)
    requires Distinct(blocks) && forall l <- blocks :: l in f.blocks
    ensures result == ExtractionBlocks(f, blocks)
    ensures if forall l <- blocks, x <- f.blocks[l].body :: !x.code.Alloca? then result == blocks else result == []
  {
    var n := 0;
    while n < |blocks|
      invariant n <= |blocks| && forall l <- blocks[..n] :: ValidForExtraction(f.blocks[l])
    {
      assert blocks[..n + 1] == blocks[..n] + [blocks[n]];
      if !ValidForExtraction(f.blocks[blocks[n]]) {
        assert blocks[n] in blocks;
        return [];
      }
      n := n + 1;
    }
    assert blocks[..n] == blocks;
    result := blocks;
  }

  class CodeExtractor {
    var fn: Func
    var nextLabel: Label
    var nextId: Id
    var blocks: seq<Label>

    // What the analyses say, where there is an analysis; which values are pointers.
    var iterInfo: Option<IteratorInfo>
    var lba: Option<Loops>
    var pointers: set<Value>

    var inputs: seq<Value>
    var outputs: seq<Value>
    var inputToOutputMap: map<Value, nat>
    var outputToInputMap: map<Value, Value>
    var stackAllocas: seq<Value>
    var stackAllocaInits: seq<Option<int>>
    var pureInputs: seq<Value>

    // The value map, the clones under construction, and the code of the two new blocks.
    var blockMap: map<Label, Label>
    var instMap: map<Id, Id>
    var cloneBlocks: seq<Label>
    var clones: map<Label, Block>
    var rootCode: seq<Instr>
    var exitCode: seq<Instr>

    ghost predicate Valid()
      reads this
    {
      Ready(fn, nextLabel, nextId, blocks)
    }

    // The region is the given blocks, or nothing when one of them cannot be extracted.
    constructor (f: Func, nl: Label, ni: Id, given: seq<Label>, iterInfo: Option<IteratorInfo>, lba: Option<Loops>, pointers: set<Value>)
      requires Ready(f, nl, ni, given)
      ensures Valid() && fn == f && nextLabel == nl && nextId == ni && blocks == ExtractionBlocks(f, given)
      ensures this.iterInfo == iterInfo && this.lba == lba && this.pointers == pointers
      ensures stackAllocas == [] && stackAllocaInits == []
      ensures blockMap == map[] && instMap == map[] && clones == map[] && cloneBlocks == []
    {
      hide Below, UniqueIds;
      var valid := BuildExtractionBlockSet(f, given);
      fn, nextLabel, nextId, blocks := f, nl, ni, valid;
      this.iterInfo, this.lba, this.pointers := iterInfo, lba, pointers;
      inputs, outputs, inputToOutputMap, outputToInputMap := [], [], map[], map[];
      stackAllocas, stackAllocaInits, pureInputs := [], [], [];
      blockMap, instMap, cloneBlocks, clones, rootCode, exitCode := map[], map[], [], map[], [], [];
    }

    // One turn of the loop over the phis of the old header.
    method SeverPhi(header: Label, nb: Label, region: set<Label>, n: nat)
      requires header in fn.blocks && nb in fn.blocks && n < |fn.blocks[header].phis|
      modifies `fn, `nextId
      ensures fn == SeverSteps.SeverPhi(old(fn), header, nb, region, n, old(nextId)) && nextId == old(nextId) + 1
    {
      hide Outside, Inside;
      var p := fn.blocks[header].phis[n];
      var newPN := nextId;
      nextId := nextId + 1;
      fn := SubstFunc(map[Inst(p.id) := Inst(newPN)], fn);
      var q := fn.blocks[header].phis[n];
      var rest, moved := MoveIncoming(q.inc, region);
      var prior, now := fn.blocks[header], fn.blocks[nb];
      fn := fn.(blocks := fn.blocks[header := prior.(phis := prior.phis[n := Phi(q.id, rest)])]
                                   [nb := now.(phis := [Phi(newPN, [Incoming(header, Inst(p.id))] + moved)] + now.phis)]);
    }

    // Branches from the region to the old header go to the new one.
    method BypassHeader(header: Label, nb: Label, region: set<Label>)
      requires header in fn.blocks && fn.blocks[header].phis != [] && header != nb
      modifies `fn
      ensures fn == Redirect(old(fn), Froms(old(fn).blocks[header].phis[0].inc) * region, header, nb)
    {
      hide Redirect;
      var inc := fn.blocks[header].phis[0].inc;
      RedirectNone(fn, header, nb);
      assert Froms(inc[..0]) * region == {};
      var i := 0;
      while i < |inc|
        invariant i <= |inc| && fn == Redirect(old(fn), Froms(inc[..i]) * region, header, nb)
      {
        ghost var which := Froms(inc[..i]) * region;
        assert inc[..i + 1] == inc[..i] + [inc[i]];
        if inc[i].from in region {
          RedirectMore(old(fn), which, inc[i].from, header, nb);
          fn := Redirect(fn, {inc[i].from}, header, nb);
          assert Froms(inc[..i + 1]) * region == which + {inc[i].from};
        } else {
          assert Froms(inc[..i + 1]) * region == which;
        }
        i := i + 1;
      }
      assert inc[..i] == inc;
    }

    // severSplitPHINodes.  Whatever is done, every run of the function stays the same; when a
    // header was split off, it is entered from outside by way of the old header only, and
    // there is nothing left to sever.
    method SeverSplitPHINodes(header: Label) returns (newHeader: Label, ghost hidden: set<Id>)
      requires Valid() && GoodHeader(fn, blocks, header)
      modifies `fn, `nextLabel, `nextId, `blocks
      ensures Valid() && SameRuns(old(fn), fn, hidden) && New(hidden, old(nextId))
      ensures nextId >= old(nextId) && nextLabel >= old(nextLabel)
      ensures !NeedsSevering(old(fn), old(blocks), header) ==>
                newHeader == header && fn == old(fn) && blocks == old(blocks) && nextId == old(nextId) && nextLabel == old(nextLabel)
      ensures NeedsSevering(old(fn), old(blocks), header) ==>
                && newHeader == old(nextLabel) && blocks == Remove(old(blocks), header) + [newHeader] && OneEntry(fn, blocks, newHeader, header)
                && SeveredAs(old(fn), old(blocks), header, newHeader, old(nextId), fn)
                && (header != old(fn).entry ==> NoWayBack(fn, blocks, header))
      ensures newHeader in blocks && !NeedsSevering(fn, blocks, newHeader)
    {
      hide Ready, GoodHeader, NeedsSevering, SameRuns, OneEntry, New, SplitBlock, Severing, Bypassed, Redirect, Remove, Elements, Outside, NewRegion,
           IsSevered, SeveredAs, NoWayBack;
      newHeader, hidden := header, {};
      SameRunsReflexive(fn);
      HeaderFacts(fn, nextLabel, nextId, blocks, header);
      var numPredsFromRegion, numPredsOutsideRegion := 0, 0;
      if header != fn.entry {
        if fn.blocks[header].phis == [] {
          Unneeded(fn, blocks, header);
          return;
        }
        numPredsFromRegion, numPredsOutsideRegion := CountIncoming(fn.blocks[header].phis[0].inc, Elements(blocks));
        NeedsWhen(fn, blocks, header);
        if numPredsOutsideRegion <= 1 {
          return;
        }
      }
      NeedsWhen(fn, blocks, header);
      if numPredsFromRegion == 0 {
        newHeader, hidden := SplitOff(header);
      } else {
        newHeader, hidden := SeverOff(header);
      }
      SeveredAsOne(old(fn), old(blocks), header, newHeader, old(nextId), fn, numPredsFromRegion);
      if header != old(fn).entry {
        NothingLeadsBack(old(fn), old(nextLabel), old(nextId), old(blocks), header, fn);
      }
    }

    // No branch of the region leads back to the header: the phis stay behind.
    method SplitOff(header: Label) returns (nb: Label, ghost hidden: set<Id>)
      requires Valid() && header in blocks && header in fn.blocks
      modifies `fn, `nextLabel, `nextId, `blocks
      ensures Valid() && SameRuns(old(fn), fn, hidden) && New(hidden, old(nextId))
      ensures nextId > old(nextId) && nextLabel == old(nextLabel) + 1
      ensures nb == old(nextLabel) && blocks == Remove(old(blocks), header) + [nb] && OneEntry(fn, blocks, nb, header)
      ensures !NeedsSevering(fn, blocks, nb) && fn == SplitBlock(old(fn), header, 0, nb, old(nextId))
    {
      hide SplitBlock, Below, UniqueIds, SameRuns, Remove, Distinct;
      NewBlocks(fn, nextLabel, nextId, blocks, header);
      nb := nextLabel;
      ReadySplit(fn, nextLabel, nextId, blocks, header, 0, Remove(blocks, header) + [nb]);
      SplitKeepsRuns(fn, header, 0, nb, nextId);
      SplitKeys(fn, header, 0, nb, nextId);
      forall m ensures var g := SplitBlock(fn, header, 0, nb, nextId);
                       nb in g.blocks && g.blocks[nb].phis == [] && (m in g.blocks && nb in g.blocks[m].term.dests ==> m == header)
      {
        SplitEntry(fn, header, nb, nextId, m);
      }
      hidden := {nextId};
      fn := SplitBlock(fn, header, 0, nb, nextId);
      nextLabel, nextId := nextLabel + 1, nextId + 1;
      blocks := Remove(blocks, header);
      blocks := blocks + [nb];
    }

    // Branches of the region lead back to the header: they are led to the new header, and every
    // phi is dealt out between the two.
    method SeverOff(header: Label) returns (nb: Label, ghost hidden: set<Id>)
      requires Valid() && GoodHeader(fn, blocks, header) && header != fn.entry && fn.blocks[header].phis != []
      modifies `fn, `nextLabel, `nextId, `blocks
      ensures Valid() && SameRuns(old(fn), fn, hidden) && New(hidden, old(nextId))
      ensures nextId > old(nextId) && nextLabel == old(nextLabel) + 1
      ensures nb == old(nextLabel) && blocks == Remove(old(blocks), header) + [nb] && OneEntry(fn, blocks, nb, header)
      ensures !NeedsSevering(fn, blocks, nb) && IsSevered(old(fn), Elements(old(blocks)), header, nb, old(nextId), fn)
    {
      hide Ready, GoodHeader, NeedsSevering, SameRuns, OneEntry, IsSevered, SplitBlock, Severing, Bypassed, Redirect, Remove, Elements, Outside, NewRegion;
      HeaderFacts(fn, nextLabel, nextId, blocks, header);
      nb := nextLabel;
      ghost var (f, br, region) := (fn, nextId, Elements(blocks));
      CanSever(fn, nextLabel, nextId, blocks, header);
      NewBlocks(fn, nextLabel, nextId, blocks, header);
      SeveringNone(fn, region, header, nb, br);
      BypassedIs(fn, region, header, nb, br);
      fn := SplitBlock(fn, header, 0, nb, nextId);
      nextLabel, nextId := nextLabel + 1, nextId + 1;
      blocks := Remove(blocks, header);
      blocks := blocks + [nb];
      BypassHeader(header, nb, Elements(blocks));
      ghost var h := fn;
      var count := |fn.blocks[header].phis|;
      var n := 0;
      while n < count
        invariant n <= count == |h.blocks[header].phis| && nextId == br + 1 + n
        invariant fn == Severing(h, header, nb, Elements(blocks), br + 1, n)
        invariant nextLabel == nb + 1 && blocks == Remove(old(blocks), header) + [nb]
      {
        SeveringHeaders(h, header, nb, Elements(blocks), br + 1, n);
        SeverPhiStep(h, header, nb, Elements(blocks), br + 1, n);
        SeverPhi(header, nb, Elements(blocks), n);
        n := n + 1;
      }
      SeverOffDone(f, region, header, nb, br, old(blocks), fn);
      hidden := {br};
    }

    // One return moves to a block of its own, outside the region.
    method SplitReturn(l: Label)
      requires Valid() && l in blocks && Returns(fn, l)
      modifies `fn, `nextLabel, `nextId
      ensures Valid() && SameRuns(old(fn), fn, {old(nextId)}) && nextId == old(nextId) + 1 && nextLabel == old(nextLabel) + 1
      ensures ReturnMoved(old(fn), fn, l, old(nextId))
      ensures forall m <- old(fn).blocks :: m != l ==> m in fn.blocks && fn.blocks[m] == old(fn).blocks[m]
    {
      hide Ready, SameRuns, SplitBlock;
      KnownBlocks(fn, nextLabel, nextId, blocks);
      var k := |fn.blocks[l].body|;
      ReadyParts(fn, nextLabel, nextId, blocks, l);
      ReadySplit(fn, nextLabel, nextId, blocks, l, k, blocks);
      SplitKeepsRuns(fn, l, k, nextLabel, nextId);
      forall m ensures var g := SplitBlock(fn, l, k, nextLabel, nextId); m in fn.blocks && m != l ==> m in g.blocks && g.blocks[m] == fn.blocks[m] {
        ReturnSplit(fn, l, nextLabel, nextId, m);
      }
      ReturnSplit(fn, l, nextLabel, nextId, l);
      fn := SplitBlock(fn, l, k, nextLabel, nextId);
      nextLabel, nextId := nextLabel + 1, nextId + 1;
    }

    // splitReturnBlocks: afterwards no block of the region returns.
    method SplitReturnBlocks() returns (ghost hidden: set<Id>)
      requires Valid()
      modifies `fn, `nextLabel, `nextId
      ensures Valid() && SameRuns(old(fn), fn, hidden) && New(hidden, old(nextId))
      ensures nextId >= old(nextId) && nextLabel >= old(nextLabel)
      ensures forall l <- blocks :: !Returns(fn, l) && ReturnMoved(old(fn), fn, l, old(nextId))
      ensures (forall l <- blocks :: !Returns(old(fn), l)) ==> fn == old(fn) && nextId == old(nextId) && nextLabel == old(nextLabel)
    {
      hide Ready, SameRuns;
      hidden := {};
      SameRunsReflexive(fn);
      KnownBlocks(fn, nextLabel, nextId, blocks);
      var n := 0;
      while n < |blocks|
        invariant n <= |blocks| && Valid()
        invariant SameRuns(old(fn), fn, hidden) && New(hidden, old(nextId)) && nextId >= old(nextId) && nextLabel >= old(nextLabel)
        invariant forall k :: 0 <= k < n ==> ReturnMoved(old(fn), fn, blocks[k], old(nextId))
        invariant forall k :: n <= k < |blocks| ==> blocks[k] in old(fn).blocks && blocks[k] in fn.blocks && fn.blocks[blocks[k]] == old(fn).blocks[blocks[k]]
        invariant (forall l <- blocks :: !Returns(old(fn), l)) ==> fn == old(fn) && nextId == old(nextId) && nextLabel == old(nextLabel)
      {
        var l := blocks[n];
        if Returns(fn, l) {
          ghost var (before, id) := (fn, nextId);
          SplitReturn(l);
          SameRunsTransitive(old(fn), before, fn, hidden, {id});
          hidden := hidden + {id};
        }
        n := n + 1;
      }
    }

    // ---------- prepare ----------

    // The values taken by the phis of the function.
    method IncomingValues() returns (incs: Incomings)
      requires Valid()
      ensures IncomingsOf(fn, incs)
    {
      hide Ready, IncUses, IncomingsIn, PhiKeys, Distinct;
      incs := map[];
      var rest := fn.blocks.Keys;
      IncomingsNone(fn);
      assert fn.blocks.Keys - rest == {};
      while rest != {}
        invariant rest <= fn.blocks.Keys && IncomingsIn(fn, fn.blocks.Keys - rest, incs)
        decreases |rest|
      {
        var l :| l in rest;
        ghost var before := incs;
        PhisDistinct(fn, nextLabel, nextId, blocks, l);
        incs := AddPhis(fn.blocks[l].phis, incs);
        IncomingsMore(fn, nextLabel, nextId, blocks, fn.blocks.Keys - rest, l, before, incs);
        assert fn.blocks.Keys - (rest - {l}) == (fn.blocks.Keys - rest) + {l};
        rest := rest - {l};
      }
      assert fn.blocks.Keys - rest == fn.blocks.Keys;
    }

    // The inputs and outputs, their pairing, and then the order of the inputs.
    method PrepareInputs() returns (ghost incs: Incomings)
      requires Valid()
      requires iterInfo.Some? ==> InputsOf(fn, blocks) == [] || exists v <- InputsOf(fn, blocks) :: IsIterator(iterInfo.value, v)
      modifies `inputs, `outputs, `inputToOutputMap, `outputToInputMap
      ensures Valid() && (forall l <- blocks :: l in fn.blocks)
      ensures inputs == if iterInfo.Some? then Reordered(InputsOf(fn, blocks), iterInfo.value) else InputsOf(fn, blocks)
      ensures Distinct(inputs) && forall v :: v in inputs <==> v in InputsOf(fn, blocks)
      ensures outputs == OutputsOf(fn, blocks) && IncomingsOf(fn, incs)
      ensures inputToOutputMap == IOMap(InputsOf(fn, blocks), outputs, incs)
      ensures outputToInputMap == OIMap(InputsOf(fn, blocks), outputs, incs)
    {
      hide Ready, IncomingsOf, InputsOf, OutputsOf, IOMap, OIMap, Reordered, Insts, Uses, IsIterator, Distinct, Defined;
      KnownBlocks(fn, nextLabel, nextId, blocks);
      inputs, outputs := FindInputsOutputs(fn, blocks);
      InputsAre(fn, blocks);
      OutputsAre(fn, blocks);
      var phis := IncomingValues();
      incs := phis;
      inputToOutputMap, outputToInputMap := MapInputsOutputs(inputs, outputs, phis);
      if iterInfo.Some? {
        ReorderedSame(inputs, iterInfo.value);
        var changed;
        inputs, changed := ReorderInputs(inputs, iterInfo.value);
      }
    }

    method Prepare() returns (ghost incs: Incomings)
      requires Valid()
      requires iterInfo.Some? ==> InputsOf(fn, blocks) == [] || exists v <- InputsOf(fn, blocks) :: IsIterator(iterInfo.value, v)
      requires lba.Some? ==> Exclusive(InputsOf(fn, blocks), lba.value)
      modifies `inputs, `outputs, `inputToOutputMap, `outputToInputMap, `stackAllocas, `stackAllocaInits
      ensures Valid() && (forall l <- blocks :: l in fn.blocks)
      ensures inputs == if iterInfo.Some? then Reordered(InputsOf(fn, blocks), iterInfo.value) else InputsOf(fn, blocks)
      ensures Distinct(inputs) && forall v :: v in inputs <==> v in InputsOf(fn, blocks)
      ensures outputs == OutputsOf(fn, blocks) && IncomingsOf(fn, incs)
      ensures inputToOutputMap == IOMap(InputsOf(fn, blocks), outputs, incs)
      ensures outputToInputMap == OIMap(InputsOf(fn, blocks), outputs, incs)
      ensures if lba.None? then stackAllocas == old(stackAllocas) && stackAllocaInits == old(stackAllocaInits)
              else stackAllocas == AddAllocas(old(stackAllocas), inputs, lba.value)
                   && stackAllocaInits == old(stackAllocaInits) + InitsOf(inputs, lba.value)
      ensures old(stackAllocas) == [] && old(stackAllocaInits) == [] && (lba.Some? ==> OneCase(inputs, lba.value)) ==>
                InputsReady(nextId) && forall v <- stackAllocas :: v in inputs
    {
      hide Ready, IncomingsOf, InputsOf, OutputsOf, IOMap, OIMap, Reordered, AddAllocas, InitsOf, IsIterator, Exclusive, Distinct, Bidirectional, OneCase;
      incs := PrepareInputs();
      if lba.Some? {
        StillExclusive(InputsOf(fn, blocks), inputs, lba.value);
        stackAllocas, stackAllocaInits := FindStackAllocatable(inputs, lba.value, stackAllocas, stackAllocaInits);
      }
      if old(stackAllocas) == [] && old(stackAllocaInits) == [] && (lba.Some? ==> OneCase(inputs, lba.value)) {
        PreparedInputs(fn, nextLabel, nextId, blocks, inputs, incs, lba);
      }
    }

    // isBidirectional, isInputOnly.
    predicate IsBidirectional(v: Value)
      reads `outputToInputMap
    {
      Bidirectional(outputToInputMap, v)
    }

    predicate IsInputOnly(v: Value)
      reads `outputToInputMap, `stackAllocas
    {
      !IsBidirectional(v) && v !in stackAllocas
    }

    method GetPureInputs() returns (pure: seq<Value>)
      modifies `pureInputs
      ensures pure == pureInputs == Keeping(inputs, PureSet(inputs, outputToInputMap, stackAllocas))
    {
      hide Bidirectional;
      pureInputs := [];
      var n := 0;
      while n < |inputs|
        invariant n <= |inputs| && pureInputs == Keeping(inputs[..n], PureSet(inputs, outputToInputMap, stackAllocas))
      {
        assert inputs[..n + 1][..n] == inputs[..n];
        if IsInputOnly(inputs[n]) {
          pureInputs := pureInputs + [inputs[n]];
        }
        n := n + 1;
      }
      assert inputs[..n] == inputs;
      pure := pureInputs;
    }

    // ---------- cloneCodeRegion ----------

    ghost predicate ClonesListed()
      reads `cloneBlocks, `clones
    {
      Distinct(cloneBlocks) && Elements(cloneBlocks) == clones.Keys
    }

    method CopyRegion()
      requires Valid() && blockMap == map[] && instMap == map[] && clones == map[] && cloneBlocks == []
      modifies `nextLabel, `nextId, `blockMap, `instMap, `cloneBlocks, `clones
      ensures Copied(fn, blocks, blockMap, instMap, clones) && ClonesListed()
      ensures Numbered(blockMap, old(nextLabel), nextLabel) && Numbered(instMap, old(nextId), nextId)
      ensures nextLabel >= old(nextLabel) && nextId >= old(nextId)
    {
      hide Ready, Copied, Insts, Duplicate, NameSome, Elements;
      CopiedNothing(fn);
      assert blocks[..0] == [] && Elements([]) == {} by { NoLabels(); }
      var n := 0;
      while n < |blocks|
        invariant n <= |blocks| && nextLabel >= old(nextLabel) && nextId >= old(nextId)
        invariant Copied(fn, blocks[..n], blockMap, instMap, clones) && ClonesListed()
        invariant Numbered(blockMap, old(nextLabel), nextLabel) && Numbered(instMap, old(nextId), nextId)
        invariant forall c <- cloneBlocks :: c < nextLabel
      {
        ghost var (nl, ni) := (old(nextLabel), old(nextId));
        CopyKeys(fn, nl, ni, blocks, n, blockMap, instMap, clones, nextLabel);
        var b := fn.blocks[blocks[n]];
        CopiedMore(fn, nl, ni, blocks, n, blockMap, instMap, clones, nextLabel, nextId);
        NameSomeNumbered(instMap, Insts(b), ni, nextId, |Insts(b)|);
        var c;
        c, instMap := CloneBasicBlock(b, instMap, nextId);
        NumberedMore(blockMap, nl, nextLabel, blocks[n]);
        ListMore(cloneBlocks, nextLabel);
        cloneBlocks := cloneBlocks + [nextLabel];
        clones := clones[nextLabel := c];
        blockMap := blockMap[blocks[n] := nextLabel];
        nextLabel, nextId := nextLabel + 1, nextId + |Insts(b)|;
        n := n + 1;
      }
      assert blocks[..n] == blocks;
    }

    // replaceUsesOfWith, in the clones only.
    method ReplaceUses(v: Value, r: Value)
      requires ClonesListed()
      modifies `clones
      ensures clones == EachSubst(map[v := r], old(clones)) && ClonesListed()
    {
      hide SubstBlock;
      var n := 0;
      while n < |cloneBlocks|
        invariant n <= |cloneBlocks| && clones.Keys == old(clones).Keys
        invariant forall c <- clones :: clones[c] == if c in cloneBlocks[..n] then SubstBlock(map[v := r], old(clones)[c]) else old(clones)[c]
      {
        var c := cloneBlocks[n];
        assert cloneBlocks[..n + 1] == cloneBlocks[..n] + [c] && c !in cloneBlocks[..n] && c in Elements(cloneBlocks);
        clones := clones[c := SubstBlock(map[v := r], clones[c])];
        n := n + 1;
      }
      assert cloneBlocks[..n] == cloneBlocks;
    }

    method DivertExits(exit: Label)
      requires ClonesListed()
      modifies `clones
      ensures clones == EachDiverted(blocks, exit, old(clones)) && ClonesListed()
    {
      hide Divert;
      var n := 0;
      while n < |cloneBlocks|
        invariant n <= |cloneBlocks| && clones.Keys == old(clones).Keys
        invariant forall c <- clones :: clones[c] == if c in cloneBlocks[..n] then Divert(blocks, exit, old(clones)[c]) else old(clones)[c]
      {
        var c := cloneBlocks[n];
        assert cloneBlocks[..n + 1] == cloneBlocks[..n] + [c] && c !in cloneBlocks[..n] && c in Elements(cloneBlocks);
        var b := DivertBlock(blocks, exit, clones[c]);
        clones := clones[c := b];
        n := n + 1;
      }
      assert cloneBlocks[..n] == cloneBlocks;
    }

    method RemapCloneBlocks()
      requires ClonesListed()
      modifies `clones
      ensures clones == EachRemapped(blockMap, instMap, old(clones)) && ClonesListed()
    {
      hide Remap;
      var n := 0;
      while n < |cloneBlocks|
        invariant n <= |cloneBlocks| && clones.Keys == old(clones).Keys
        invariant forall c <- clones :: clones[c] == if c in cloneBlocks[..n] then Remap(blockMap, instMap, old(clones)[c]) else old(clones)[c]
      {
        var c := cloneBlocks[n];
        assert cloneBlocks[..n + 1] == cloneBlocks[..n] + [c] && c !in cloneBlocks[..n] && c in Elements(cloneBlocks);
        clones := clones[c := Remap(blockMap, instMap, clones[c])];
        n := n + 1;
      }
      assert cloneBlocks[..n] == cloneBlocks;
    }

    // What the construction needs of the inputs and outputs: prepare() provides it.
    ghost predicate InputsReady(ni: Id)
      reads `inputs, `outputs, `inputToOutputMap, `outputToInputMap, `stackAllocas, `stackAllocaInits
    {
      && Distinct(inputs) && (forall v <- inputs :: !v.Const? && ValueBelow(v, ni))
      && (forall v <- stackAllocas :: !v.Const? && ValueBelow(v, ni))
      && (forall v <- inputs :: Bidirectional(outputToInputMap, v) ==> v in inputToOutputMap && inputToOutputMap[v] < |outputs|)
      && (forall o <- outputs :: o.Inst?)
      && (stackAllocaInits == [] || |stackAllocaInits| == |stackAllocas|)
    }

    // The interface of the new function, once its parameters and the names of its loads and
    // stores are known.
    ghost function NewInterface(params: seq<Id>, firstLoad: Id, firstStore: Id): Interface
      reads `inputs, `outputs, `inputToOutputMap, `outputToInputMap, `stackAllocas, `pointers
    {
      InterfaceOf(inputs, outputs, inputToOutputMap, outputToInputMap, stackAllocas, pointers, params, firstLoad, firstStore)
    }

    // Every pure input becomes its parameter.
    method PassPureInputs(pure: seq<Value>, params: seq<Id>, ghost i: Interface, ghost ni: Id) returns (ghost s: Subst)
      requires ClonesListed() && Stage(fn, blocks, blockMap, instMap, clones, map[])
      requires pure == i.pure && params == i.params && |pure| <= |params| && Separate(i)
      requires (forall v <- pure :: ValueBelow(v, ni)) && forall x <- params :: x >= ni
      modifies `clones
      ensures ClonesListed() && Stage(fn, blocks, blockMap, instMap, clones, s)
      ensures StandUpTo(i, |i.pure|, 0, 0, s) && FreshTargets(s, ni)
    {
      hide Stage, StandUpTo, Separate, FreshTargets, Distinct, Elements;
      s := map[];
      StandNone(i, ni);
      var k := 0;
      while k < |pure|
        invariant k <= |pure| && ClonesListed() && Stage(fn, blocks, blockMap, instMap, clones, s)
        invariant StandUpTo(i, k, 0, 0, s) && FreshTargets(s, ni)
      {
        assert params[k] in params;
        StandPure(i, k, s);
        ReplaceStep(fn, blocks, blockMap, instMap, clones, s, pure[k], Arg(params[k]), ni);
        ReplaceUses(pure[k], Arg(params[k]));
        s := s[pure[k] := Arg(params[k])];
        k := k + 1;
      }
    }

    // Every bidirectional input becomes the value loaded from its cell or, when its output is a
    // pointer, the cell itself.
    method LoadBidirectional(count: nat, params: seq<Id>, ghost i: Interface, ghost ni: Id, ghost s0: Subst) returns (ghost s: Subst)
      requires ClonesListed() && Stage(fn, blocks, blockMap, instMap, clones, s0) && InputsReady(ni) && nextId >= ni
      requires StandUpTo(i, |i.pure|, 0, 0, s0) && FreshTargets(s0, ni)
      requires i == NewInterface(params, nextId, i.firstStore) && count == |i.pure| && |params| == count + |outputs|
      requires (forall x <- params :: x >= ni) && rootCode == []
      modifies `clones, `rootCode, `nextId
      ensures ClonesListed() && Stage(fn, blocks, blockMap, instMap, clones, s)
      ensures Stand(i, s) && FreshTargets(s, ni)
      ensures rootCode == Loads(i) && nextId == old(nextId) + |i.scalars|
    {
      hide Stage, StandUpTo, Separate, FreshTargets, Distinct, Elements, Bidirectional, Keeping, Loads, CellParam, Stand, ClonesListed, EachSubst,
           Ready, PureSet;
      ghost var (ss, qs) := (ScalarSet(inputs, outputs, inputToOutputMap, outputToInputMap, pointers),
                             PointerSet(inputs, outputs, inputToOutputMap, outputToInputMap, pointers));
      InterfaceSeparate(inputs, outputs, inputToOutputMap, outputToInputMap, stackAllocas, pointers, params, nextId, i.firstStore);
      s := s0;
      KeepingNone(inputs, ss);
      KeepingNone(inputs, qs);
      var n := 0;
      while n < |inputs|
        invariant n <= |inputs| && ClonesListed() && Stage(fn, blocks, blockMap, instMap, clones, s)
        invariant |Keeping(inputs[..n], ss)| <= |i.scalars| && |Keeping(inputs[..n], qs)| <= |i.pointers|
        invariant StandUpTo(i, |i.pure|, |Keeping(inputs[..n], ss)|, |Keeping(inputs[..n], qs)|, s) && FreshTargets(s, ni)
        invariant rootCode == Loads(i)[..|Keeping(inputs[..n], ss)|] && nextId == i.firstLoad + |Keeping(inputs[..n], ss)|
      {
        var v := inputs[n];
        ghost var (ns, nq) := (|Keeping(inputs[..n], ss)|, |Keeping(inputs[..n], qs)|);
        KeepingPrefix(inputs, ss, n);
        KeepingPrefix(inputs, qs, n);
        if Bidirectional(outputToInputMap, v) {
          var outv := outputs[inputToOutputMap[v]];
          var arg := params[count + inputToOutputMap[v]];
          CellIs(i, v);
          assert arg in params;
          if outv !in pointers {
            StandScalar(i, ns, nq, s);
            LoadsMore(i, ns);
            ReplaceStep(fn, blocks, blockMap, instMap, clones, s, v, Inst(nextId), ni);
            rootCode := rootCode + [Instr(nextId, Load, [Arg(arg)])];
            ReplaceUses(v, Inst(nextId));
            s := s[v := Inst(nextId)];
            nextId := nextId + 1;
          } else {
            StandPointer(i, ns, nq, s);
            ReplaceStep(fn, blocks, blockMap, instMap, clones, s, v, Arg(arg), ni);
            ReplaceUses(v, Arg(arg));
            s := s[v := Arg(arg)];
          }
        }
        n := n + 1;
      }
      assert inputs[..n] == inputs;
      StandAll(i, s);
      assert Loads(i)[..|i.scalars|] == Loads(i);
    }

    // Whatever uses of a stack-allocated input are left become uses of the reload of its slot.
    method ReplaceStackAllocas(ghost ni: Id, ghost s0: Subst)
      requires ClonesListed() && Stage(fn, blocks, blockMap, instMap, clones, s0) && InputsReady(ni) && nextId >= ni && FreshTargets(s0, ni)
      modifies `clones, `rootCode, `nextId
      ensures ClonesListed() && Stage(fn, blocks, blockMap, instMap, clones, SlotSubst(s0, stackAllocas, old(nextId), |stackAllocas|))
      ensures rootCode == old(rootCode) + SlotsCode(stackAllocaInits, old(nextId), |stackAllocas|)
      ensures nextId == old(nextId) + 3 * |stackAllocas|
    {
      hide Stage, FreshTargets, Distinct, Elements, Bidirectional, Extend, SlotsCode, SlotSubst, ClonesListed, EachSubst, InputsReady;
      ghost var first := nextId;
      SlotsNone(stackAllocaInits, first, s0, stackAllocas);
      var n := 0;
      while n < |stackAllocas|
        invariant n <= |stackAllocas| && ClonesListed() && nextId == first + 3 * n
        invariant Stage(fn, blocks, blockMap, instMap, clones, SlotSubst(s0, stackAllocas, first, n))
        invariant FreshTargets(SlotSubst(s0, stackAllocas, first, n), ni)
        invariant rootCode == old(rootCode) + SlotsCode(stackAllocaInits, first, n)
      {
        SlotReady(ni, n);
        var v := stackAllocas[n];
        var (slot, reload) := (nextId, nextId + 2);
        ReplaceStep(fn, blocks, blockMap, instMap, clones, SlotSubst(s0, stackAllocas, first, n), v, Inst(reload), ni);
        EmitSlot(slot, if |stackAllocaInits| != 0 then stackAllocaInits[n] else None);
        ReplaceUses(v, Inst(reload));
        nextId := nextId + 3;
        SlotsMore(old(rootCode), stackAllocaInits, first, n, rootCode);
        SlotSubstMore(s0, stackAllocas, first, n);
        n := n + 1;
      }
    }

    lemma SlotReady(ni: Id, n: nat)
      requires InputsReady(ni) && n < |stackAllocas|
      ensures ValueBelow(stackAllocas[n], ni)
      ensures |stackAllocaInits| != 0 ==> n < |stackAllocaInits|
      ensures InitAt(stackAllocaInits, n) == if |stackAllocaInits| != 0 then stackAllocaInits[n] else None
    {
      hide Bidirectional, Distinct;
    }

    // The slot, its initial value if there is one, and the reload, before the root's terminator.
    method EmitSlot(slot: Id, init: Option<int>)
      modifies `rootCode
      ensures rootCode == old(rootCode) + SlotCode(init, slot)
    {
      rootCode := rootCode + [Instr(slot, Alloca, [])];
      if init.Some? {
        rootCode := rootCode + [Instr(slot + 1, Store, [Inst(slot), Const(init.value)])];
      }
      rootCode := rootCode + [Instr(slot + 2, Load, [Inst(slot)])];
    }

    // The exit stores the bidirectional scalars; their names are remapped afterwards.
    method StoreOutputs(count: nat, params: seq<Id>, ghost i: Interface)
      requires InputsReady(nextId) && count == |i.pure| && |params| == count + |outputs|
      requires i == NewInterface(params, i.firstLoad, nextId) && exitCode == []
      modifies `exitCode, `nextId
      ensures exitCode == Stores(i, instMap)
      ensures nextId == old(nextId) + |i.scalars|
    {
      hide Distinct, Bidirectional, Keeping, CellParam, OutputOf;
      ghost var ss := ScalarSet(inputs, outputs, inputToOutputMap, outputToInputMap, pointers);
      KeepingNone(inputs, ss);
      ghost var first := nextId;
      var n := 0;
      while n < |inputs|
        invariant n <= |inputs| && |Keeping(inputs[..n], ss)| <= |i.scalars|
        invariant |exitCode| == |Keeping(inputs[..n], ss)| && nextId == first + |exitCode|
        invariant forall k :: 0 <= k < |exitCode| ==>
                    exitCode[k] == Instr(i.firstStore + k, Store, [Arg(CellParam(i, i.scalars[k])), OutputOf(i, i.scalars[k])])
      {
        var v := inputs[n];
        KeepingPrefix(inputs, ss, n);
        if Bidirectional(outputToInputMap, v) {
          var outv := outputs[inputToOutputMap[v]];
          var arg := params[count + inputToOutputMap[v]];
          CellIs(i, v);
          OutputIs(i, v);
          if outv !in pointers {
            exitCode := exitCode + [Instr(nextId, Store, [Arg(arg), outv])];
            nextId := nextId + 1;
          }
        }
        n := n + 1;
      }
      assert inputs[..n] == inputs;
      RemapExit(i);
    }

    method RemapExit(ghost i: Interface)
      requires |exitCode| == |i.scalars|
      requires forall k :: 0 <= k < |exitCode| ==>
                 exitCode[k] == Instr(i.firstStore + k, Store, [Arg(CellParam(i, i.scalars[k])), OutputOf(i, i.scalars[k])])
      modifies `exitCode
      ensures exitCode == Stores(i, instMap)
    {
      hide CellParam, OutputOf;
      var n := 0;
      while n < |exitCode|
        invariant n <= |exitCode| == |old(exitCode)|
        invariant forall k :: 0 <= k < |exitCode| ==> exitCode[k] == if k < n then Stores(i, instMap)[k] else old(exitCode)[k]
      {
        var x := exitCode[n];
        exitCode := exitCode[n := Instr(x.id, x.code, RemapVs(instMap, x.ops))];
        n := n + 1;
      }
    }

    // Incoming blocks of the header's phis that are not in the new function become its root.
    method RerootHeader(cloneHeader: Label, known: set<Label>, root: Label)
      requires cloneHeader in clones && ClonesListed()
      modifies `clones
      ensures clones == old(clones)[cloneHeader := RerootPhis(known, root, old(clones)[cloneHeader])] && ClonesListed()
    {
      var b := clones[cloneHeader];
      var phis := b.phis;
      var n := 0;
      while n < |phis|
        invariant n <= |phis| == |b.phis|
        invariant forall k :: 0 <= k < |phis| ==> phis[k] == if k < n then Phi(b.phis[k].id, Reroot(known, root, b.phis[k].inc)) else b.phis[k]
      {
        var inc := phis[n].inc;
        var i := 0;
        while i < |inc|
          invariant i <= |inc| == |b.phis[n].inc|
          invariant forall k :: 0 <= k < |inc| ==> inc[k] == if k < i then Reroot(known, root, b.phis[n].inc)[k] else b.phis[n].inc[k]
        {
          if inc[i].from !in known {
            inc := inc[i := Incoming(root, inc[i].val)];
          }
          i := i + 1;
        }
        phis := phis[n := Phi(phis[n].id, inc)];
        n := n + 1;
      }
      assert phis == RerootPhis(known, root, b).phis;
      clones := clones[cloneHeader := Block(phis, b.body, b.term)];
    }

    // The parameters: one for each pure input, then one for each output.
    method DeclareParameters(ghost ni: Id) returns (pure: seq<Value>, params: seq<Id>, ghost i: Interface, ghost first: Id)
      requires InputsReady(ni) && nextId >= ni
      modifies `nextId, `pureInputs
      ensures InputsReady(ni) && nextId >= old(nextId) && i == NewInterface(params, nextId, first + 3 * |stackAllocas|)
      ensures pure == i.pure && pureInputs == pure && params == i.params && |params| == |pure| + |outputs| && i.outputs == outputs
      ensures Distinct(params) && (forall x <- params :: x >= ni) && Separate(i) && forall v <- pure :: ValueBelow(v, ni)
      ensures i.firstLoad == nextId && first == nextId + |i.scalars| && i.firstStore == first + 3 * |stackAllocas|
    {
      hide Separate, Bidirectional, Distinct, Keeping, InputsReady, PureSet, ScalarSet, PointerSet, OutFor;
      pure := GetPureInputs();
      params := Counted(nextId, |pure| + |outputs|);
      nextId := nextId + |params|;
      first := nextId + |NewInterface(params, nextId, 0).scalars|;
      i := NewInterface(params, nextId, first + 3 * |stackAllocas|);
      InputsDistinct(ni);
      InterfaceSeparate(inputs, outputs, inputToOutputMap, outputToInputMap, stackAllocas, pointers, params, nextId, i.firstStore);
      PureBelow(i, inputs, ni);
    }

    // cloneFunction, first half: the parameters, and what stands for the inputs.
    method PassInputs(ghost ni: Id) returns (count: nat, params: seq<Id>, ghost i: Interface, ghost s: Subst, ghost first: Id)
      requires ClonesListed() && Stage(fn, blocks, blockMap, instMap, clones, map[]) && InputsReady(ni) && nextId >= ni
      modifies `nextId, `clones, `pureInputs, `rootCode, `exitCode
      ensures ClonesListed() && Stage(fn, blocks, blockMap, instMap, clones, SlotSubst(s, stackAllocas, first, |stackAllocas|))
      ensures i == NewInterface(params, i.firstLoad, nextId) && pureInputs == i.pure && count == |i.pure|
      ensures |params| == |i.pure| + |i.outputs| && Distinct(params) && forall x <- params :: x >= ni
      ensures Stand(i, s) && FreshTargets(s, ni)
      ensures rootCode == Loads(i) + SlotsCode(stackAllocaInits, first, |stackAllocas|) && exitCode == []
      ensures old(nextId) <= i.firstLoad && i.firstLoad + |i.scalars| <= first <= i.firstStore && nextId >= first
    {
      hide Stage, FreshTargets, Stand, StandUpTo, Separate, Elements, Bidirectional, Distinct, InterfaceOf,
           Loads, SlotsCode, SlotSubst, Keeping, InputsReady, ClonesListed, PureSet, ScalarSet, PointerSet, OutFor;
      var pure;
      pure, params, i, first := DeclareParameters(ni);
      count := |pure|;
      rootCode, exitCode := [], [];
      ghost var s1 := PassPureInputs(pure, params, i, ni);
      s := LoadBidirectional(count, params, i, ni, s1);
      ReplaceStackAllocas(ni, s);
    }

    // cloneFunction: then the branches out of the region, and the code of the exit.
    method CloneFunction(newFuncExit: Label, ghost ni: Id)
      returns (params: seq<Id>, ghost i: Interface, ghost s: Subst, ghost first: Id, ghost before: map<Label, Block>)
      requires ClonesListed() && Stage(fn, blocks, blockMap, instMap, clones, map[]) && InputsReady(ni) && nextId >= ni
      modifies `nextId, `clones, `pureInputs, `rootCode, `exitCode
      ensures ClonesListed() && clones == EachDiverted(blocks, newFuncExit, before)
      ensures Stage(fn, blocks, blockMap, instMap, before, SlotSubst(s, stackAllocas, first, |stackAllocas|))
      ensures i == NewInterface(params, i.firstLoad, i.firstStore) && pureInputs == i.pure
      ensures |params| == |i.pure| + |i.outputs| && Distinct(params) && forall x <- params :: x >= ni
      ensures Stand(i, s) && FreshTargets(s, ni)
      ensures rootCode == Loads(i) + SlotsCode(stackAllocaInits, first, |stackAllocas|) && exitCode == Stores(i, instMap)
      ensures old(nextId) <= i.firstLoad && i.firstLoad + |i.scalars| <= first <= i.firstStore && nextId >= first
    {
      hide Stage, FreshTargets, Stand, StandUpTo, Separate, Elements, Bidirectional, Distinct, EachDiverted,
           Loads, Stores, SlotsCode, SlotSubst, Keeping, InputsReady, ClonesListed, PureSet, ScalarSet, PointerSet, OutFor;
      var count;
      count, params, i, s, first := PassInputs(ni);
      before := clones;
      DivertExits(newFuncExit);
      ReadyInputs(ni, nextId);
      StoreOutputs(count, params, i);
    }

    // The end of cloneCodeRegion: names are remapped, the header's phis get the root, and the
    // blocks move to the new function.
    method FinishFunction(params: seq<Id>, ghost p: Plan, ghost nl: Label, ghost ni: Id, ghost before: map<Label, Block>,
                          header: Label, newFuncRoot: Label, newFuncExit: Label) returns (g: Func)
      requires ClonesListed() && clones == EachDiverted(blocks, newFuncExit, before) && Ready(fn, nl, ni, blocks)
      requires p.region == blocks && p.labels == blockMap && p.ids == instMap && p.header == header
      requires p.root == newFuncRoot && p.exit == newFuncExit && header in blocks
      requires Stage(fn, p.region, p.labels, p.ids, before, p.inputs) && FreshPlan(fn, p, nl, ni) && LabelsFresh(p, nl)
      requires header in blockMap && blockMap[header] in before
      modifies `nextId, `clones
      ensures IsClone(fn, p, g) && g.params == params && nextId >= old(nextId)
      ensures newFuncRoot in g.blocks && g.blocks[newFuncRoot].body == rootCode && g.blocks[newFuncRoot].term.id >= old(nextId)
      ensures newFuncExit in g.blocks && g.blocks[newFuncExit].term.id >= old(nextId)
      ensures newFuncExit in g.blocks && g.blocks[newFuncExit].body == exitCode && g.blocks[newFuncExit].term.ops == []
    {
      hide Ready, Stage, Elements, Distinct, LabelsFresh, IsClone, FreshPlan, EachDiverted, EachRemapped, RerootPhis, ClonesListed;
      RemapCloneBlocks();
      KeysKept(blocks, newFuncExit, blockMap, instMap, before);
      RerootHeader(blockMap[header], blockMap.Values + {newFuncRoot, newFuncExit}, newFuncRoot);
      PlanApart(fn, p, nl, ni);
      g := Func(newFuncRoot, params,
                clones[newFuncRoot := Block([], rootCode, Term(nextId, [], [blockMap[header]]))]
                      [newFuncExit := Block([], exitCode, Term(nextId + 1, [], []))]);
      nextId := nextId + 2;
      FinishedClone(fn, p, nl, ni, before, g);
    }

    method CloneRegion(header: Label) returns (g: Func, ghost p: Plan, ghost i: Interface, ghost s: Subst, ghost first: Id)
      requires Valid() && blockMap == map[] && instMap == map[] && clones == map[] && cloneBlocks == []
      requires header in blocks && InputsReady(nextId)
      modifies `nextLabel, `nextId, `blockMap, `instMap, `cloneBlocks, `clones, `pureInputs, `rootCode, `exitCode
      ensures Valid() && nextId >= old(nextId) && nextLabel >= old(nextLabel)
      ensures Built(fn, old(nextLabel), old(nextId), g, p, i, s, stackAllocas, stackAllocaInits, first)
      ensures p.region == blocks && p.header == header && i == NewInterface(g.params, i.firstLoad, i.firstStore)
      ensures pureInputs == i.pure
    {
      hide Ready, Built, Stage, Copied, Numbered, FreshTargets, Stand, Elements, Bidirectional, Distinct, LabelsFresh, FreshPlan, IsClone,
           EachDiverted, Loads, Stores, SlotsCode, SlotSubst, Keeping, InputsReady, ClonesListed, InterfaceOf;
      ghost var (nl, ni) := (nextLabel, nextId);
      CopyRegion();
      StageStart(fn, blocks, blockMap, instMap, clones);
      CopiedIds(fn, blocks, blockMap, instMap, clones);
      ghost var ids := nextId;
      var newFuncRoot := nextLabel;
      var newFuncExit := nextLabel + 1;
      nextLabel := nextLabel + 2;
      var params;
      ghost var before;
      params, i, s, first, before := CloneFunction(newFuncExit, ni);
      p := Plan(blocks, header, blockMap, instMap, SlotSubst(s, stackAllocas, first, |stackAllocas|), newFuncRoot, newFuncExit);
      PlanFresh(fn, p, nl, ni, newFuncRoot, ids, before);
      g := FinishFunction(params, p, nl, ni, before, header, newFuncRoot, newFuncExit);
      InterfaceCells(ni, params, i);
      InterfaceParts(inputs, outputs, inputToOutputMap, outputToInputMap, stackAllocas, pointers, params, i.firstLoad, i.firstStore);
      BuiltIntro(fn, nl, ni, g, p, i, s, stackAllocas, stackAllocaInits, first, ids);
      ReadyMore(fn, nl, ni, blocks, nextLabel, nextId);
    }

    // cloneCodeRegion.  The old function may be split and severed on the way, which keeps every
    // run of it; the clone is of the region as it is then.
    method CloneCodeRegion() returns (r: Option<Func>, ghost hidden: set<Id>, ghost severed: Func, ghost m: Made)
      requires Valid() && blockMap == map[] && instMap == map[] && clones == map[] && cloneBlocks == []
      requires InputsReady(nextId) && (blocks != [] ==> GoodHeader(fn, blocks, blocks[0]))
      modifies `fn, `blocks, `nextLabel, `nextId, `blockMap, `instMap, `cloneBlocks, `clones, `pureInputs, `rootCode, `exitCode
      ensures Valid() && SameRuns(old(fn), fn, hidden) && New(hidden, old(nextId))
      ensures r.None? <==> old(blocks) == []
      ensures r.None? ==> fn == old(fn) && blocks == old(blocks)
      ensures r.Some? ==>
                && IsMade(r.value, m) && m.f == fn && m.p.region == blocks && pureInputs == m.i.pure
                && m.allocas == stackAllocas && m.inits == stackAllocaInits && m.ni >= old(nextId)
                && m.i == NewInterface(r.value.params, m.i.firstLoad, m.i.firstStore)
                && Reshaped(old(fn), old(nextLabel), old(nextId), old(blocks), severed, fn, blocks, m.p.header)
                && forall l <- blocks :: !Returns(fn, l)
      ensures r.Some? && !NeedsSevering(old(fn), old(blocks), old(blocks)[0]) && (forall l <- old(blocks) :: !Returns(old(fn), l)) ==>
                fn == old(fn) && blocks == old(blocks) && m.p.header == blocks[0] && m.nl == old(nextLabel) && m.ni == old(nextId)
    {
      hide Ready, GoodHeader, Built, InputsReady, SameRuns, NeedsSevering, Distinct, Remove, InterfaceOf, SeveredAs, ReturnMoved;
      severed := fn;
      r, hidden := None, {};
      m := Made(fn, nextLabel, nextId, Plan([], 0, map[], map[], map[], 0, 0), NewInterface([], 0, 0), map[], [], [], 0);
      SameRunsReflexive(fn);
      if blocks == [] {
        return;
      }
      var header := blocks[0];
      ghost var h1, h2;
      header, h1 := SeverSplitPHINodes(header);
      severed := fn;
      ghost var ids := nextId;
      h2 := SplitReturnBlocks();
      SameRunsTransitive(old(fn), severed, fn, h1, h2);
      hidden := h1 + h2;
      forall l | l in blocks ensures ReturnMoved(severed, fn, l, old(nextId)) { ReturnMovedLess(severed, fn, l, old(nextId), ids); }
      ghost var (nl, ni) := (nextLabel, nextId);
      ReadyInputs(old(nextId), nextId);
      var g;
      ghost var p, i, s, first;
      g, p, i, s, first := CloneRegion(header);
      m := Made(fn, nl, ni, p, i, s, stackAllocas, stackAllocaInits, first);
      r := Some(g);
    }

    lemma InterfaceCells(ni: Id, params: seq<Id>, i: Interface)
      requires InputsReady(ni) && i == NewInterface(params, i.firstLoad, i.firstStore)
      ensures forall v <- i.scalars + i.pointers :: v in i.cellOf && i.cellOf[v] < |i.outputs|
      ensures forall o <- i.outputs :: o.Inst?
    {
      hide Bidirectional, Keeping, OutFor, Separate;
      InterfaceSeparate(inputs, outputs, inputToOutputMap, outputToInputMap, stackAllocas, pointers, params, i.firstLoad, i.firstStore);
    }

    lemma InputsDistinct(ni: Id)
      requires InputsReady(ni)
      ensures Distinct(inputs) && forall v <- inputs :: ValueBelow(v, ni)
    {
    }

    lemma ReadyInputs(ni: Id, more: Id)
      requires InputsReady(ni) && ni <= more
      ensures InputsReady(more)
    {
      hide Distinct, Bidirectional;
    }
  }

  lemma KnownBlocks(f: Func, nl: Label, ni: Id, blocks: seq<Label>)
    requires Ready(f, nl, ni, blocks)
    ensures Distinct(blocks) && forall l <- blocks :: l in f.blocks
  {
  }

  lemma StillExclusive(inputs: seq<Value>, same: seq<Value>, q: Loops)
    requires Exclusive(inputs, q) && forall v :: v in same <==> v in inputs
    ensures Exclusive(same, q)
  {
  }

  lemma HeaderFacts(f: Func, nl: Label, ni: Id, blocks: seq<Label>, header: Label)
    requires Ready(f, nl, ni, blocks) && GoodHeader(f, blocks, header)
    ensures header in f.blocks && header in blocks && New({}, ni)
  {
  }

  lemma SeveredAsOne(f: Func, blocks: seq<Label>, header: Label, nb: Label, br: Id, g: Func, back: nat)
    requires header in f.blocks && (header == f.entry ==> back == 0)
    requires header != f.entry ==> f.blocks[header].phis != [] && back == |Inside(f.blocks[header].phis[0].inc, Elements(blocks))|
    requires if back == 0 then g == SplitBlock(f, header, 0, nb, br) else IsSevered(f, Elements(blocks), header, nb, br, g)
    ensures SeveredAs(f, blocks, header, nb, br, g)
  {
    hide IsSevered, SplitBlock, Inside;
  }

  lemma {:induction false} NoneInside(inc: seq<Incoming>, blocks: seq<Label>)
    requires |Inside(inc, Elements(blocks))| == 0
    ensures forall e <- inc :: e.from !in blocks
  {
    if inc != [] { NoneInside(inc[1..], blocks); }
  }

  lemma NothingLeadsBack(f: Func, nl: Label, ni: Id, blocks: seq<Label>, header: Label, g: Func)
    requires Ready(f, nl, ni, blocks) && GoodHeader(f, blocks, header) && header != f.entry && f.blocks[header].phis != []
    requires SeveredAs(f, blocks, header, nl, ni, g)
    ensures NoWayBack(g, Remove(blocks, header) + [nl], header)
  {
    hide IsSevered, Ready, SplitBlock, Inside;
    NewBlocks(f, nl, ni, blocks, header);
    forall l | l in Remove(blocks, header) + [nl] ensures l in g.blocks && header !in g.blocks[l].term.dests {
      if NoEdgeBack(f, blocks, header) {
        NoneInside(f.blocks[header].phis[0].inc, blocks);
        SplitLeadsOn(f, nl, ni, blocks, header, l);
      } else {
        SeverRuns.SeveredKeys(f, Elements(blocks), header, nl, ni, g);
        KnownBlocks(f, nl, ni, blocks);
        EntryOfSevered(f, Elements(blocks), header, nl, ni, g, l);
      }
    }
  }

  lemma SplitLeadsOn(f: Func, nl: Label, ni: Id, blocks: seq<Label>, header: Label, l: Label)
    requires Ready(f, nl, ni, blocks) && GoodHeader(f, blocks, header) && f.blocks[header].phis != []
    requires (forall e <- f.blocks[header].phis[0].inc :: e.from !in blocks) && l in Remove(blocks, header) + [nl]
    ensures var g := SplitBlock(f, header, 0, nl, ni); l in g.blocks && header !in g.blocks[l].term.dests
  {
    hide SplitBlock, UniqueIds, Below, Distinct;
    var x := f.blocks[header].phis[0];
    forall m | m in f.blocks && header in f.blocks[m].term.dests ensures m !in blocks {
      assert x in f.blocks[header].phis && m in Froms(x.inc);
    }
    SplitShape(f, header, nl, ni, if l == nl then header else l);
  }

  lemma Unneeded(f: Func, blocks: seq<Label>, header: Label)
    requires header in f.blocks && header != f.entry && f.blocks[header].phis == []
    ensures !NeedsSevering(f, blocks, header)
  {
  }

  lemma NeedsWhen(f: Func, blocks: seq<Label>, header: Label)
    requires header in f.blocks && (header == f.entry || f.blocks[header].phis != [])
    ensures NeedsSevering(f, blocks, header) <==>
              header == f.entry || |Outside(f.blocks[header].phis[0].inc, Elements(blocks))| > 1
  {
  }

  lemma BypassedIs(f: Func, region: set<Label>, header: Label, nb: Label, br: Id)
    requires Severable(f, region, header, nb, br)
    ensures header in f.blocks && header != nb && f.blocks[header].phis != []
    ensures var g := SplitBlock(f, header, 0, nb, br);
            && header in g.blocks && g.blocks[header].phis != []
            && Bypassed(f, region, header, nb, br) == Redirect(g, Froms(g.blocks[header].phis[0].inc) * NewRegion(region, header, nb), header, nb)
  {
    hide UniqueIds, PhisComplete, SplitBlock, Redirect;
    FreshLabel(f, nb, br, header);
    SplitShape(f, header, nb, br, header);
  }

  lemma SeveringHeaders(h: Func, header: Label, nb: Label, region: set<Label>, first: Id, n: nat)
    requires header in h.blocks && nb in h.blocks && header != nb && n <= |h.blocks[header].phis|
    ensures var g := Severing(h, header, nb, region, first, n);
            header in g.blocks && nb in g.blocks && |g.blocks[header].phis| == |h.blocks[header].phis|
  {
  }

  lemma SeverOffDone(f: Func, region: set<Label>, header: Label, nb: Label, br: Id, blocks: seq<Label>, g: Func)
    requires Severable(f, region, header, nb, br) && Ready(f, nb, br, blocks) && region == Elements(blocks) && header in blocks
    requires header != nb && header in f.blocks && f.blocks[header].phis != []
    requires var h := Bypassed(f, region, header, nb, br);
             header in h.blocks && nb in h.blocks && g == Severing(h, header, nb, NewRegion(region, header, nb), br + 1, |h.blocks[header].phis|)
    ensures var tail := Remove(blocks, header) + [nb];
            && Ready(g, nb + 1, br + 1 + |f.blocks[header].phis|, tail) && OneEntry(g, tail, nb, header) && !NeedsSevering(g, tail, nb)
    ensures SameRuns(f, g, {br}) && IsSevered(f, region, header, nb, br, g)
    ensures |Bypassed(f, region, header, nb, br).blocks[header].phis| == |f.blocks[header].phis|
  {
    hide Severable, Ready, Bypassed, Severing, NewRegion, SameRuns, Elements, Remove, Outside, Insts, SplitBlock;
    assert IsSevered(f, region, header, nb, br, g) by { SeveredIs(f, region, header, nb, br); }
    SeverRuns.SeveringKeepsRuns(f, region, header, nb, br);
    SeveredIs(f, region, header, nb, br);
    ReadySevered(f, nb, br, blocks, header, g);
    NewBlocks(f, nb, br, blocks, header);
    ReadyParts(f, nb, br, blocks, header);
    BypassedPhiCount(f, region, header, nb, br);
    SeverRuns.SeveredKeys(f, region, header, nb, br, g);
    NewPhiCount(f, region, header, nb, br, g);
    SeveredOnce(f, region, header, nb, br, g, 0);
    EntryOfSevered(f, region, header, nb, br, g, header);
    var tail := Remove(blocks, header) + [nb];
    forall m | m in g.blocks && m !in tail && nb in g.blocks[m].term.dests ensures m == header {
      TailIs(blocks, header, nb, m);
      EntryOfSevered(f, region, header, nb, br, g, m);
    }
  }

  lemma SeveredIs(f: Func, region: set<Label>, header: Label, nb: Label, br: Id)
    requires header in f.blocks && f.blocks[header].phis != [] && nb != header
    ensures var h := Bypassed(f, region, header, nb, br);
            && header in h.blocks && nb in h.blocks
            && Severed(f, region, header, nb, br) == Severing(h, header, nb, NewRegion(region, header, nb), br + 1, |h.blocks[header].phis|)
  {
    hide Severing;
  }

  lemma BypassedPhiCount(f: Func, region: set<Label>, header: Label, nb: Label, br: Id)
    requires Severable(f, region, header, nb, br)
    ensures header != nb && |Bypassed(f, region, header, nb, br).blocks[header].phis| == |f.blocks[header].phis|
  {
    SeveringNone(f, region, header, nb, br);
  }

  lemma TailIs(blocks: seq<Label>, header: Label, nb: Label, m: Label)
    ensures m in Remove(blocks, header) + [nb] <==> m in NewRegion(Elements(blocks), header, nb)
  {
  }

  lemma ReturnSplit(f: Func, l: Label, nb: Label, br: Id, m: Label)
    requires Returns(f, l) && Below(f, nb, br)
    ensures var g := SplitBlock(f, l, |f.blocks[l].body|, nb, br);
            && (m in f.blocks && m != l ==> m in g.blocks && g.blocks[m] == f.blocks[m])
            && l in g.blocks && g.blocks[l] == Block(f.blocks[l].phis, f.blocks[l].body, Term(br, [], [nb]))
  {
    FreshLabel(f, nb, br, l);
    FreshLabel(f, nb, br, m);
  }

  // ---------- the phis of a function, by value ----------

  ghost function PhiKeys(phis: seq<Phi>): set<Value> { set k | 0 <= k < |phis| :: Inst(phis[k].id) }

  ghost predicate IncomingsIn(f: Func, ls: set<Label>, incs: Incomings) {
    && (forall v :: v in incs <==> exists l <- f.blocks :: l in ls && v in PhiKeys(f.blocks[l].phis))
    && forall l <- f.blocks, k: nat :: l in ls && k < |f.blocks[l].phis| ==>
         Inst(f.blocks[l].phis[k].id) in incs && incs[Inst(f.blocks[l].phis[k].id)] == IncUses(f.blocks[l].phis[k].inc)
  }

  ghost predicate IncomingsOf(f: Func, incs: Incomings) { IncomingsIn(f, f.blocks.Keys, incs) }

  lemma IncomingsNone(f: Func)
    ensures IncomingsIn(f, {}, map[])
  {
  }

  lemma PhisDistinct(f: Func, nl: Label, ni: Id, blocks: seq<Label>, l: Label)
    requires Ready(f, nl, ni, blocks) && l in f.blocks
    ensures Distinct(PhiIds(f.blocks[l].phis))
  {
    hide Insts;
    ReadyParts(f, nl, ni, blocks, l);
    CloneRuns.BlockIds(f.blocks[l]);
  }

  method AddPhis(phis: seq<Phi>, before: Incomings) returns (incs: Incomings)
    requires Distinct(PhiIds(phis))
    ensures incs.Keys == before.Keys + PhiKeys(phis)
    ensures forall v <- before :: v !in PhiKeys(phis) ==> incs[v] == before[v]
    ensures forall k: nat :: k < |phis| ==> Inst(phis[k].id) in incs && incs[Inst(phis[k].id)] == IncUses(phis[k].inc)
  {
    incs := before;
    var k := 0;
    while k < |phis|
      invariant k <= |phis| && incs.Keys == before.Keys + PhiKeys(phis[..k])
      invariant forall v <- before :: v !in PhiKeys(phis[..k]) ==> incs[v] == before[v]
      invariant forall j :: 0 <= j < k ==> Inst(phis[j].id) in incs && incs[Inst(phis[j].id)] == IncUses(phis[j].inc)
    {
      assert phis[..k + 1] == phis[..k] + [phis[k]];
      forall j | 0 <= j < k ensures phis[j].id != phis[k].id { assert PhiIds(phis)[j] != PhiIds(phis)[k]; }
      KeysMore(phis[..k], phis[k]);
      incs := incs[Inst(phis[k].id) := IncUses(phis[k].inc)];
      k := k + 1;
    }
    assert phis[..k] == phis;
  }

  lemma KeysMore(phis: seq<Phi>, p: Phi)
    ensures PhiKeys(phis + [p]) == PhiKeys(phis) + {Inst(p.id)}
  {
    var all := phis + [p];
    assert all[|phis|] == p;
    forall v | v in PhiKeys(phis) ensures v in PhiKeys(all) {
      var k :| 0 <= k < |phis| && v == Inst(phis[k].id);
      assert all[k] == phis[k];
    }
  }

  lemma IncomingsMore(f: Func, nl: Label, ni: Id, blocks: seq<Label>, ls: set<Label>, l: Label, before: Incomings, incs: Incomings)
    requires Ready(f, nl, ni, blocks) && l in f.blocks && l !in ls && IncomingsIn(f, ls, before)
    requires incs.Keys == before.Keys + PhiKeys(f.blocks[l].phis)
    requires forall v <- before :: v !in PhiKeys(f.blocks[l].phis) ==> incs[v] == before[v]
    requires forall k: nat :: k < |f.blocks[l].phis| ==>
               Inst(f.blocks[l].phis[k].id) in incs && incs[Inst(f.blocks[l].phis[k].id)] == IncUses(f.blocks[l].phis[k].inc)
    ensures IncomingsIn(f, ls + {l}, incs)
  {
    hide Ready, IncUses, PhiKeys;
    forall m, k: nat | m in f.blocks && m in ls && k < |f.blocks[m].phis|
      ensures Inst(f.blocks[m].phis[k].id) in incs && incs[Inst(f.blocks[m].phis[k].id)] == IncUses(f.blocks[m].phis[k].inc)
    {
      KeysApart(f, nl, ni, blocks, l, m, k);
    }
  }

  lemma KeysApart(f: Func, nl: Label, ni: Id, blocks: seq<Label>, l: Label, m: Label, k: nat)
    requires Ready(f, nl, ni, blocks) && l in f.blocks && m in f.blocks && l != m && k < |f.blocks[m].phis|
    ensures Inst(f.blocks[m].phis[k].id) !in PhiKeys(f.blocks[l].phis)
  {
    hide Insts, Below;
    CloneRuns.BlockIds(f.blocks[l]);
    CloneRuns.BlockIds(f.blocks[m]);
    assert PhiIds(f.blocks[m].phis)[k] in Insts(f.blocks[m]);
    forall j | 0 <= j < |f.blocks[l].phis| ensures f.blocks[l].phis[j].id != f.blocks[m].phis[k].id {
      assert PhiIds(f.blocks[l].phis)[j] in Insts(f.blocks[l]);
    }
  }

  // ---------- copying ----------

  lemma NoLabels()
    ensures Elements([]) == {}
  {
  }

  lemma CopyKeys(f: Func, nl: Label, ni: Id, blocks: seq<Label>, n: nat, labels: map<Label, Label>, ids: map<Id, Id>,
                 clones: map<Label, Block>, c: Label)
    requires n < |blocks| && Copied(f, blocks[..n], labels, ids, clones) && Numbered(labels, nl, c)
    requires exists a, b :: Ready(f, a, b, blocks)
    ensures blocks[n] in f.blocks && Distinct(Insts(f.blocks[blocks[n]])) && blocks[n] !in labels && c !in labels.Values && c !in clones
    ensures forall x <- Insts(f.blocks[blocks[n]]) :: x !in ids
  {
    hide Insts, Duplicate;
    var a, b :| Ready(f, a, b, blocks);
    NewNames(f, a, b, blocks, n, ids);
  }

  lemma NumberedMore(m: map<Id, Id>, from: Id, to: Id, k: Id)
    requires Numbered(m, from, to) && k !in m && from <= to
    ensures Numbered(m[k := to], from, to + 1)
  {
  }

  lemma ListMore(xs: seq<Label>, x: Label)
    requires Distinct(xs) && x !in xs
    ensures Distinct(xs + [x]) && Elements(xs + [x]) == Elements(xs) + {x}
  {
  }

  method DivertBlock(region: seq<Label>, exit: Label, b: Block) returns (r: Block)
    ensures r == Divert(region, exit, b)
  {
    var dests := b.term.dests;
    var i := 0;
    while i < |dests|
      invariant i <= |dests| == |b.term.dests|
      invariant forall k :: 0 <= k < |dests| ==> dests[k] == if k < i then DivertDests(region, exit, b.term.dests)[k] else b.term.dests[k]
    {
      if dests[i] !in region {
        dests := dests[i := exit];
      }
      i := i + 1;
    }
    r := Block(b.phis, b.body, Term(b.term.id, b.term.ops, dests));
  }

  // ---------- inputs ----------

  lemma StandNone(i: Interface, ni: Id)
    ensures |i.pure| <= |i.params| ==> StandUpTo(i, 0, 0, 0, map[])
    ensures FreshTargets(map[], ni)
  {
  }

  lemma KeepingNone(xs: seq<Value>, keep: set<Value>)
    ensures Keeping(xs[..0], keep) == []
  {
  }

  lemma CellIs(i: Interface, v: Value)
    requires v in i.cellOf && |i.pure| + i.cellOf[v] < |i.params|
    ensures CellParam(i, v) == i.params[|i.pure| + i.cellOf[v]]
  {
  }

  lemma LoadsMore(i: Interface, k: nat)
    requires k < |i.scalars|
    ensures Loads(i)[..k + 1] == Loads(i)[..k] + [Instr(i.firstLoad + k, Load, [Arg(CellParam(i, i.scalars[k]))])]
  {
  }

  lemma OutputIs(i: Interface, v: Value)
    requires v in i.cellOf && i.cellOf[v] < |i.outputs|
    ensures OutputOf(i, v) == i.outputs[i.cellOf[v]]
  {
  }

  lemma SlotsNone(inits: seq<Option<int>>, first: Id, s: Subst, allocas: seq<Value>)
    ensures SlotsCode(inits, first, 0) == [] && SlotSubst(s, allocas, first, 0) == s
  {
  }

  lemma SlotSubstMore(s: Subst, allocas: seq<Value>, first: Id, n: nat)
    requires n < |allocas|
    ensures SlotSubst(s, allocas, first, n + 1) == Extend(SlotSubst(s, allocas, first, n), allocas[n], Inst(first + 3 * n + 2))
  {
  }

  lemma SlotsMore(before: seq<Instr>, inits: seq<Option<int>>, first: Id, n: nat, code: seq<Instr>)
    requires code == before + SlotsCode(inits, first, n) + SlotCode(InitAt(inits, n), first + 3 * n)
    ensures code == before + SlotsCode(inits, first, n + 1)
  {
  }

  // ---------- the new function ----------

  function Counted(first: Id, n: nat): (r: seq<Id>)
    ensures |r| == n && Distinct(r) && forall k :: 0 <= k < n ==> r[k] == first + k
  {
    seq(n, k requires 0 <= k < n => first + k)
  }

  // A new function is made from a function, below whose next names it is named, by a plan, with
  // an interface; s is what stood for the inputs before the slots.
  datatype Made = Made(f: Func, nl: Label, ni: Id, p: Plan, i: Interface, s: Subst, allocas: seq<Value>, inits: seq<Option<int>>, first: Id)

  ghost predicate IsMade(g: Func, m: Made) {
    Ready(m.f, m.nl, m.ni, m.p.region) && Built(m.f, m.nl, m.ni, g, m.p, m.i, m.s, m.allocas, m.inits, m.first)
  }

  // How the function and its region come to be as they are cloned: the header is severed if that
  // is needed, and then the returns move out of the region.
  ghost predicate Reshaped(f: Func, nl: Label, ni: Id, blocks: seq<Label>, severed: Func, g: Func, region: seq<Label>, header: Label) {
    && blocks != []
    && (if NeedsSevering(f, blocks, blocks[0])
        then header == nl && region == Remove(blocks, blocks[0]) + [nl] && SeveredAs(f, blocks, blocks[0], nl, ni, severed)
        else header == blocks[0] && region == blocks && severed == f)
    && forall l <- region :: ReturnMoved(severed, g, l, ni)
  }

  lemma ReturnMovedLess(f: Func, g: Func, l: Label, ni: Id, ids: Id)
    requires ReturnMoved(f, g, l, ids) && ni <= ids
    ensures ReturnMoved(f, g, l, ni)
  {
  }

  // g is the new function made from the region of p: its blocks are the clones, its root loads
  // the bidirectional scalars and sets up the stack slots, and its exit stores the outputs.
  ghost predicate Built(f: Func, nl: Label, ni: Id, g: Func, p: Plan, i: Interface, s: Subst, allocas: seq<Value>,
                        inits: seq<Option<int>>, first: Id)
  {
    && IsClone(f, p, g) && FreshPlan(f, p, nl, ni)
    && InterfaceOk(i) && Stand(i, s) && g.params == i.params && (forall x <- g.params :: x >= ni)
    && FreshTargets(s, ni) && p.inputs == SlotSubst(s, allocas, first, |allocas|)
    && p.root in g.blocks && g.blocks[p.root].body == Loads(i) + SlotsCode(inits, first, |allocas|)
    && p.exit in g.blocks && g.blocks[p.exit].body == Stores(i, p.ids) && g.blocks[p.exit].term.ops == []
    && (forall x <- p.ids :: p.ids[x] < i.firstLoad) && ni <= i.firstLoad && i.firstLoad + |i.scalars| <= first && first <= i.firstStore
    && g.blocks[p.root].term.id >= ni && g.blocks[p.exit].term.id >= ni
  }

  lemma PureBelow(i: Interface, inputs: seq<Value>, ni: Id)
    requires forall v <- inputs :: ValueBelow(v, ni)
    requires exists keep :: i.pure == Keeping(inputs, keep)
    ensures forall v <- i.pure :: ValueBelow(v, ni)
  {
    hide Keeping;
    var keep :| i.pure == Keeping(inputs, keep);
    KeepingHas(inputs, keep);
  }

  lemma BelowMore(f: Func, nl: Label, ni: Id, nl': Label, ni': Id)
    requires Below(f, nl, ni) && nl <= nl' && ni <= ni'
    ensures Below(f, nl', ni')
  {
    forall l | l in f.blocks ensures l < nl' && BlockBelow(f.blocks[l], nl', ni') {
      assert BlockBelow(f.blocks[l], nl, ni);
    }
  }

  lemma ReadyMore(f: Func, nl: Label, ni: Id, blocks: seq<Label>, nl': Label, ni': Id)
    requires Ready(f, nl, ni, blocks) && nl <= nl' && ni <= ni'
    ensures Ready(f, nl', ni', blocks)
  {
    hide Below, UniqueIds, Distinct;
    BelowMore(f, nl, ni, nl', ni');
  }

  lemma PlanFresh(f: Func, p: Plan, nl: Label, ni: Id, labels: Label, ids: Id, clones: map<Label, Block>)
    requires Ready(f, nl, ni, p.region) && Numbered(p.labels, nl, labels) && Numbered(p.ids, ni, ids)
    requires p.root == labels && p.exit == labels + 1 && nl <= labels && p.header in p.region
    requires p.ids.Keys == RegionIds(f, p.region) && Stage(f, p.region, p.labels, p.ids, clones, p.inputs)
    ensures FreshPlan(f, p, nl, ni) && LabelsFresh(p, nl)
    ensures p.header in p.labels && p.labels[p.header] in clones && p.labels[p.header] in p.labels.Values
  {
    hide Below, UniqueIds, RegionIds, Duplicate, SubstBlock, Distinct;
    ReadyParts(f, nl, ni, p.region, 0);
    forall l | l in p.region ensures l < nl { ReadyParts(f, nl, ni, p.region, l); }
    assert p.labels[p.header] in p.labels.Values;
  }

  lemma FinishedClone(f: Func, p: Plan, nl: Label, ni: Id, before: map<Label, Block>, g: Func)
    requires Ready(f, nl, ni, p.region) && Stage(f, p.region, p.labels, p.ids, before, p.inputs)
    requires FreshPlan(f, p, nl, ni) && LabelsFresh(p, nl) && p.header in p.region
    requires p.header in p.labels && p.labels[p.header] in before
    requires g.entry == p.root && p.root in g.blocks && p.exit in g.blocks
    requires g.blocks[p.root].phis == [] && g.blocks[p.root].term.ops == [] && g.blocks[p.root].term.dests == [p.labels[p.header]]
    requires g.blocks[p.exit].phis == [] && g.blocks[p.exit].term.dests == []
    requires g.blocks.Keys == Finished(p, before).Keys + {p.root, p.exit}
    requires forall l <- Finished(p, before) :: l != p.root && l != p.exit ==> g.blocks[l] == Finished(p, before)[l]
    ensures IsClone(f, p, g)
  {
    hide Below, UniqueIds, RegionIds, Duplicate, SubstBlock, Distinct, Stage, Finished, CloneBlock;
    FromsBelow(f, nl, ni, p.region);
    StageFinished(f, p, before, nl);
    StageKeys(f, p.region, p.labels, p.ids, before, p.inputs);
  }

  lemma InterfaceParts(inputs: seq<Value>, outputs: seq<Value>, io: map<Value, nat>, oi: map<Value, Value>, allocas: seq<Value>,
                       pointers: set<Value>, params: seq<Id>, firstLoad: Id, firstStore: Id)
    ensures var i := InterfaceOf(inputs, outputs, io, oi, allocas, pointers, params, firstLoad, firstStore);
            i.params == params && i.outputs == outputs && i.cellOf == io && i.firstLoad == firstLoad && i.firstStore == firstStore
  {
  }

  lemma PlanApart(f: Func, p: Plan, nl: Label, ni: Id)
    requires FreshPlan(f, p, nl, ni)
    ensures p.root != p.exit && p.root !in p.labels.Values && p.exit !in p.labels.Values
  {
  }

  lemma CopiedIds(f: Func, blocks: seq<Label>, labels: map<Label, Label>, ids: map<Id, Id>, clones: map<Label, Block>)
    requires Copied(f, blocks, labels, ids, clones)
    ensures ids.Keys == RegionIds(f, blocks)
  {
  }

  lemma KeysKept(region: seq<Label>, exit: Label, labels: map<Label, Label>, ids: map<Id, Id>, clones: map<Label, Block>)
    ensures EachRemapped(labels, ids, EachDiverted(region, exit, clones)).Keys == clones.Keys
  {
  }

  lemma StageKeys(f: Func, blocks: seq<Label>, labels: map<Label, Label>, ids: map<Id, Id>, clones: map<Label, Block>, s: Subst)
    requires Stage(f, blocks, labels, ids, clones, s)
    ensures labels.Keys == Elements(blocks) && clones.Keys == labels.Values && forall l <- blocks :: l in f.blocks
  {
  }

  lemma FromsBelow(f: Func, nl: Label, ni: Id, blocks: seq<Label>)
    requires Ready(f, nl, ni, blocks)
    ensures forall l <- blocks :: l in f.blocks
    ensures forall l <- blocks, x <- f.blocks[l].phis, e <- x.inc :: e.from < nl
  {
    hide UniqueIds;
    forall l, x, e | l in blocks && x in f.blocks[l].phis && e in x.inc ensures e.from < nl {
      assert BlockBelow(f.blocks[l], nl, ni) && PhiBelow(x, nl, ni);
    }
  }

  lemma BuiltIntro(f: Func, nl: Label, ni: Id, g: Func, p: Plan, i: Interface, s: Subst, allocas: seq<Value>,
                   inits: seq<Option<int>>, first: Id, ids: Id)
    requires IsClone(f, p, g) && FreshPlan(f, p, nl, ni) && Stand(i, s) && g.params == i.params && (forall x <- g.params :: x >= ni)
    requires FreshTargets(s, ni) && p.inputs == SlotSubst(s, allocas, first, |allocas|)
    requires p.root in g.blocks && g.blocks[p.root].body == Loads(i) + SlotsCode(inits, first, |allocas|)
    requires p.exit in g.blocks && g.blocks[p.exit].body == Stores(i, p.ids) && g.blocks[p.exit].term.ops == []
    requires Numbered(p.ids, ni, ids) && ids <= i.firstLoad && i.firstLoad + |i.scalars| <= first && ni <= ids
    requires first <= i.firstStore && g.blocks[p.root].term.id >= ni && g.blocks[p.exit].term.id >= ni
    requires |i.params| == |i.pure| + |i.outputs| && Distinct(i.params)
    requires forall v <- i.scalars + i.pointers :: v in i.cellOf && i.cellOf[v] < |i.outputs|
    requires forall o <- i.outputs :: o.Inst?
    ensures Built(f, nl, ni, g, p, i, s, allocas, inits, first)
  {
    hide IsClone, FreshPlan, Stand, FreshTargets, SlotSubst, Loads, Stores, SlotsCode, Distinct;
    assert forall v <- i.scalars :: v in i.scalars + i.pointers;
  }

  // ---------- what prepare() provides ----------

  lemma PreparedInputs(f: Func, nl: Label, ni: Id, blocks: seq<Label>, inputs: seq<Value>, incs: Incomings, q: Option<Loops>)
    requires Ready(f, nl, ni, blocks) && Distinct(inputs)
    requires (forall l <- blocks :: l in f.blocks) && forall v :: v in inputs <==> v in InputsOf(f, blocks)
    ensures forall v <- inputs :: !v.Const? && ValueBelow(v, ni)
    ensures var (io, oi) := (IOMap(InputsOf(f, blocks), OutputsOf(f, blocks), incs), OIMap(InputsOf(f, blocks), OutputsOf(f, blocks), incs));
            forall v <- inputs :: Bidirectional(oi, v) ==> v in io && io[v] < |OutputsOf(f, blocks)|
    ensures forall o <- OutputsOf(f, blocks) :: o.Inst?
    ensures q.Some? && OneCase(inputs, q.value) ==>
              (forall v <- AddAllocas([], inputs, q.value) :: v in inputs) && |AddAllocas([], inputs, q.value)| == |[] + InitsOf(inputs, q.value)|
  {
    hide Ready, IOMap, OIMap, InputsOf, OutputsOf, Uses, Bidirectional, AddAllocas, InitsOf, OneCase, RegionIds;
    InputsAre(f, blocks);
    OutputsAre(f, blocks);
    forall v | v in inputs ensures ValueBelow(v, ni) {
      var l :| l in blocks && v in Uses(f.blocks[l]);
      UsesBelow(f, nl, ni, blocks, l, v);
    }
    forall v | v in inputs && Bidirectional(OIMap(InputsOf(f, blocks), OutputsOf(f, blocks), incs), v)
      ensures var io := IOMap(InputsOf(f, blocks), OutputsOf(f, blocks), incs); v in io && io[v] < |OutputsOf(f, blocks)|
    {
      InRange(InputsOf(f, blocks), OutputsOf(f, blocks), incs, v);
    }
    if q.Some? && OneCase(inputs, q.value) {
      AlignedIff(inputs, q.value);
      AllocasAre(inputs, q.value);
    }
  }

  lemma UsesBelow(f: Func, nl: Label, ni: Id, blocks: seq<Label>, l: Label, v: Value)
    requires Ready(f, nl, ni, blocks) && l in f.blocks && v in Uses(f.blocks[l])
    ensures ValueBelow(v, ni)
  {
    hide UniqueIds, ValueBelow;
    var b := f.blocks[l];
    assert BlockBelow(b, nl, ni);
    if v in PhiUses(b.phis) {
      PhiUsesBelow(b.phis, nl, ni, v);
    } else if v in BodyUses(b.body) {
      BodyUsesBelow(b.body, ni, v);
    }
  }

  lemma {:induction false} PhiUsesBelow(phis: seq<Phi>, nl: Label, ni: Id, v: Value)
    requires (forall p <- phis :: PhiBelow(p, nl, ni)) && v in PhiUses(phis)
    ensures ValueBelow(v, ni)
  {
    if v in IncUses(phis[0].inc) {
      var inc := phis[0].inc;
      var k :| 0 <= k < |IncUses(inc)| && IncUses(inc)[k] == v;
      assert phis[0] in phis && inc[k] in inc;
    } else {
      PhiUsesBelow(phis[1..], nl, ni, v);
    }
  }

  lemma {:induction false} BodyUsesBelow(body: seq<Instr>, ni: Id, v: Value)
    requires (forall i <- body :: InstrBelow(i, ni)) && v in BodyUses(body)
    ensures ValueBelow(v, ni)
  {
    if v in body[0].ops {
      assert body[0] in body;
    } else {
      BodyUsesBelow(body[1..], ni, v);
    }
  }
}
