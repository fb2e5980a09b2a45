/** Severing keeps every run.  In step with f, the severed function computes the same values,
    with each header phi's value held by the phi that replaced it. */
module SeverRuns {
  import opened Collections
  import opened Ssa
  import opened Split
  import opened Rewrite
  import opened Sever
  import Partition

  // ---------- which entry a phi takes ----------

  lemma {:induction false} PickInside(inc: seq<Incoming>, region: set<Label>, p: Label)
    ensures p in region ==> Pick(Inside(inc, region), p) == Pick(inc, p)
    ensures p !in region ==> Pick(Outside(inc, region), p) == Pick(inc, p)
  {
    if inc != [] {
      PickInside(inc[1..], region, p);
      var (i, o) := (Inside(inc[1..], region), Outside(inc[1..], region));
      assert ([inc[0]] + i)[1..] == i && ([inc[0]] + o)[1..] == o;
      assert [] + i == i && [] + o == o;
    }
  }

  lemma {:induction false} PickBelow(inc: seq<Incoming>, p: Label, ids: Id)
    requires forall e <- inc :: ValueBelow(e.val, ids)
    ensures ValueBelow(Pick(inc, p), ids)
  {
    if inc != [] {
      assert forall e <- inc[1..] :: e in inc;
      PickBelow(inc[1..], p, ids);
    }
  }

  // The entry for predecessor l, after the split renamed the old header in it.
  lemma PickSplit(f: Func, header: Label, nb: Label, br: Id, to: Label, k: nat, l: Label)
    requires Below(f, nb, br) && header in f.blocks && to in f.blocks && k < |f.blocks[to].phis|
    requires l in f.blocks && to in f.blocks[l].term.dests
    ensures var inc := f.blocks[to].phis[k].inc;
            Pick(SplitInc(f, header, nb, to, inc), Moved(l, header, nb)) == Pick(inc, l)
    ensures ValueBelow(Pick(f.blocks[to].phis[k].inc, l), br)
  {
    var p := f.blocks[to].phis[k];
    assert p in f.blocks[to].phis && PhiBelow(p, nb, br);
    assert forall e <- p.inc :: e.from != nb;
    PickRenamed(p.inc, header, nb, if l == header then nb + 1 else l);
    PickBelow(p.inc, l, br);
  }

  // ---------- related states ----------

  // Everything f computes is where it was, except that the header phis live in new ids.
  ghost predicate Related(phis: seq<Phi>, br: Id, st: State, st': State) {
    && st.args == st'.args && st.mem == st'.mem
    && (forall j :: 0 <= j < |phis| ==> Look(st'.env, br + 1 + j) == Look(st.env, phis[j].id))
    && forall i :: i < br && i !in PhiIds(phis) ==> Look(st'.env, i) == Look(st.env, i)
  }

  // Just after an edge from outside: the old header has its phis, the new one not yet.
  ghost predicate Arriving(phis: seq<Phi>, br: Id, st: State, st': State) {
    && st.args == st'.args && st.mem == st'.mem
    && (forall j :: 0 <= j < |phis| ==> Look(st'.env, phis[j].id) == Look(st.env, phis[j].id))
    && forall i :: i < br && i !in PhiIds(phis) ==> Look(st'.env, i) == Look(st.env, i)
  }

  lemma EvalRelated(phis: seq<Phi>, br: Id, st: State, st': State, v: Value)
    requires Distinct(PhiIds(phis)) && ValueBelow(v, br) && Related(phis, br, st, st')
    ensures Eval(SubstV(Renaming(phis, br + 1, |phis|), v), st') == Eval(v, st)
  {
    hide Renaming, Distinct;
    RenamingAt(phis, br + 1, |phis|);
    if v.Inst? && v.id in PhiIds(phis) {
      var j :| 0 <= j < |phis| && PhiIds(phis)[j] == v.id;
      assert v == Inst(phis[j].id);
    } else {
      forall j | 0 <= j < |phis| ensures v != Inst(phis[j].id) { assert PhiIds(phis)[j] == phis[j].id; }
    }
  }

  lemma EvalAllRelated(phis: seq<Phi>, br: Id, st: State, st': State, vs: seq<Value>)
    requires Distinct(PhiIds(phis)) && ValuesBelow(vs, br) && Related(phis, br, st, st')
    ensures EvalAll(SubstVs(Renaming(phis, br + 1, |phis|), vs), st') == EvalAll(vs, st)
  {
    forall k | 0 <= k < |vs|
      ensures EvalAll(SubstVs(Renaming(phis, br + 1, |phis|), vs), st')[k] == EvalAll(vs, st)[k]
    {
      EvalRelated(phis, br, st, st', vs[k]);
    }
  }

  lemma ExecRelated(phis: seq<Phi>, br: Id, st: State, st': State, i: Instr)
    requires Distinct(PhiIds(phis)) && InstrBelow(i, br) && Related(phis, br, st, st') && i.id !in PhiIds(phis)
    ensures var s := Renaming(phis, br + 1, |phis|);
            Exec(SubstInstr(s, i), st').1 == Exec(i, st).1 &&
            Related(phis, br, Exec(i, st).0, Exec(SubstInstr(s, i), st').0)
  {
    hide Renaming, EvalAll;
    EvalAllRelated(phis, br, st, st', i.ops);
    forall j | 0 <= j < |phis| ensures phis[j].id != i.id { assert PhiIds(phis)[j] == phis[j].id; }
  }

  lemma ChoiceRelated(phis: seq<Phi>, br: Id, st: State, st': State, t: Term, dests: seq<Label>)
    requires Distinct(PhiIds(phis)) && ValuesBelow(t.ops, br) && Related(phis, br, st, st')
    requires t.dests != [] && |dests| == |t.dests|
    ensures Choice(Term(t.id, SubstVs(Renaming(phis, br + 1, |phis|), t.ops), dests), st') == Choice(t, st)
  {
    if t.ops != [] { EvalRelated(phis, br, st, st', t.ops[0]); }
  }

  // ---------- the edges ----------

  lemma IdsApart(f: Func, region: set<Label>, header: Label, nb: Label, br: Id, g: Func, l: Label)
    requires IsSevered(f, region, header, nb, br, g) && l in f.blocks
    ensures Distinct(PhiIds(PhisOf(f, l)))
    ensures forall i <- f.blocks[l].body :: i.id !in PhiIds(PhisOf(f, header))
    ensures l != header ==> forall i <- PhiIds(PhisOf(f, l)) :: i !in PhiIds(PhisOf(f, header))
    ensures forall i <- PhiIds(PhisOf(f, l)) :: i < br
  {
    hide PhisComplete, Severed;
    BlockIdsApart(f.blocks[l], f.blocks[header], l == header, nb, br);
  }

  lemma BlockIdsApart(b: Block, h: Block, same: bool, nb: Label, br: Id)
    requires BlockBelow(b, nb, br) && Distinct(Partition.Insts(b))
    requires if same then b == h else forall i <- Partition.Insts(b) :: i !in Partition.Insts(h)
    ensures Distinct(PhiIds(b.phis))
    ensures forall i <- b.body :: i.id !in PhiIds(h.phis)
    ensures !same ==> forall i <- PhiIds(b.phis) :: i !in PhiIds(h.phis)
    ensures forall i <- PhiIds(b.phis) :: i < br
  {
    var (xs, ys) := (Partition.Insts(b), Partition.Insts(h));
    assert forall k :: 0 <= k < |b.phis| ==> PhiIds(b.phis)[k] == xs[k];
    assert forall k :: 0 <= k < |h.phis| ==> PhiIds(h.phis)[k] == ys[k];
    forall i | i in PhiIds(h.phis) ensures i in ys {}
    forall i | i in PhiIds(b.phis) ensures i in xs {}
    forall k | 0 <= k < |b.body| ensures b.body[k].id !in PhiIds(h.phis) {
      assert xs[|b.phis| + k] == b.body[k].id;
    }
    forall k | 0 <= k < |b.phis| ensures PhiIds(b.phis)[k] < br {
      assert PhiBelow(b.phis[k], nb, br);
    }
  }

  lemma Labels(f: Func, region: set<Label>, header: Label, nb: Label, br: Id, g: Func)
    requires IsSevered(f, region, header, nb, br, g)
    ensures header in f.blocks && header in region && region <= f.blocks.Keys && |PhisOf(f, header)| > 0
    ensures nb !in f.blocks && forall l <- f.blocks :: l < nb
    ensures forall l <- f.blocks :: (Moved(l, header, nb) in NewRegion(region, header, nb) <==> l in region) && Moved(l, header, nb) != header
  {
    hide UniqueIds, PhisComplete, Severed;
  }

  lemma EnterFrame(phis: seq<Phi>, from: Label, st: State)
    ensures Enter(phis, from, st).args == st.args && Enter(phis, from, st).mem == st.mem
  {
  }

  lemma RelatedOthers(hs: seq<Phi>, br: Id, st: State, st': State)
    requires Related(hs, br, st, st')
    ensures st.args == st'.args && st.mem == st'.mem
    ensures forall i :: i < br && i !in PhiIds(hs) ==> Look(st'.env, i) == Look(st.env, i)
  {
  }

  lemma ArrivingValues(hs: seq<Phi>, br: Id, st: State, st': State)
    requires Arriving(hs, br, st, st')
    ensures st.args == st'.args && st.mem == st'.mem
    ensures forall i :: i < br && i !in PhiIds(hs) ==> Look(st'.env, i) == Look(st.env, i)
    ensures forall j :: 0 <= j < |hs| ==> Look(st'.env, hs[j].id) == Look(st.env, hs[j].id)
  {
  }

  // A phi operand read in both functions at the end of the same predecessor.
  lemma OperandRelated(f: Func, region: set<Label>, header: Label, nb: Label, br: Id, g: Func, l: Label, to: Label, k: nat,
                       st: State, st': State, inc': seq<Incoming>)
    requires IsSevered(f, region, header, nb, br, g) && l in f.blocks && to in f.blocks[l].term.dests
    requires to in f.blocks && k < |PhisOf(f, to)| && Related(PhisOf(f, header), br, st, st')
    requires var inc := SplitInc(f, header, nb, to, PhisOf(f, to)[k].inc);
             Pick(inc', Moved(l, header, nb)) == Pick(inc, Moved(l, header, nb))
    ensures Eval(Pick(SubstInc(PhiNames(f, header, br), inc'), Moved(l, header, nb)), st') == Eval(Pick(PhisOf(f, to)[k].inc, l), st)
  {
    hide Related, Below, UniqueIds, PhisComplete, Renaming, Severed;
    var hs := PhisOf(f, header);
    IdsApart(f, region, header, nb, br, g, header);
    RenamingAt(hs, br + 1, |hs|);
    PickSubst(PhiNames(f, header, br), inc', Moved(l, header, nb));
    PickSplit(f, header, nb, br, to, k, l);
    EvalRelated(hs, br, st, st', Pick(PhisOf(f, to)[k].inc, l));
  }

  // An edge that does not lead to the header leads to the same block, in a related state.
  lemma EdgeElsewhere(f: Func, region: set<Label>, header: Label, nb: Label, br: Id, g: Func, l: Label, to: Label, st: State, st': State)
    requires IsSevered(f, region, header, nb, br, g) && l in f.blocks && to in f.blocks[l].term.dests
    requires to != header && to in f.blocks && Related(PhisOf(f, header), br, st, st')
    ensures to in g.blocks
    ensures Related(PhisOf(f, header), br, Enter(PhisOf(f, to), l, st), Enter(PhisOf(g, to), Moved(l, header, nb), st'))
  {
    hide IsSevered, Related, PhiNames, Pick, Enter, SubstInc, SplitInc, Arriving, Inside, Outside, Renaming, Bypassing;
    Labels(f, region, header, nb, br, g);
    ShapePhis(f, region, header, nb, br, g, to);
    IdsApart(f, region, header, nb, br, g, to);
    IdsApart(f, region, header, nb, br, g, header);
    var (phis, phis', m) := (PhisOf(f, to), PhisOf(g, to), Moved(l, header, nb));
    forall k | 0 <= k < |phis| ensures Eval(Pick(phis'[k].inc, m), st') == Eval(Pick(phis[k].inc, l), st) {
      OperandRelated(f, region, header, nb, br, g, l, to, k, st, st', SplitInc(f, header, nb, to, phis[k].inc));
    }
    assert PhiIds(phis') == PhiIds(phis);
    EnterElsewhere(PhisOf(f, header), br, phis, phis', l, m, st, st');
  }

  lemma EnterElsewhere(hs: seq<Phi>, br: Id, phis: seq<Phi>, phis': seq<Phi>, l: Label, m: Label, st: State, st': State)
    requires Related(hs, br, st, st')
    requires |phis| == |phis'| && PhiIds(phis) == PhiIds(phis') && Distinct(PhiIds(phis))
    requires forall i <- PhiIds(phis) :: i < br && i !in PhiIds(hs)
    requires forall i <- PhiIds(hs) :: i < br
    requires forall k :: 0 <= k < |phis| ==> Eval(Pick(phis'[k].inc, m), st') == Eval(Pick(phis[k].inc, l), st)
    ensures Related(hs, br, Enter(phis, l, st), Enter(phis', m, st'))
  {
    hide Enter, Pick;
    EnterFrame(phis, l, st);
    EnterFrame(phis', m, st');
    EnterAt(phis, l, st);
    EnterAt(phis', m, st');
    var (e, e') := (Enter(phis, l, st), Enter(phis', m, st'));
    forall i | i < br && i !in PhiIds(hs) ensures Look(e'.env, i) == Look(e.env, i) {
      if i in PhiIds(phis) {
        var k :| 0 <= k < |phis| && PhiIds(phis)[k] == i;
        assert phis[k].id == i && PhiIds(phis')[k] == phis'[k].id == i;
      }
    }
    forall j | 0 <= j < |hs| ensures Look(e'.env, br + 1 + j) == Look(e.env, hs[j].id) {
      assert PhiIds(hs)[j] == hs[j].id && hs[j].id in PhiIds(hs);
      assert hs[j].id !in PhiIds(phis) && br + 1 + j !in PhiIds(phis');
    }
  }

  // ---------- edges to the header ----------

  // An edge from inside leads straight to the new header.
  lemma EdgeInside(f: Func, region: set<Label>, header: Label, nb: Label, br: Id, g: Func, l: Label, st: State, st': State)
    requires IsSevered(f, region, header, nb, br, g) && l in region && header in f.blocks[l].term.dests
    requires Related(PhisOf(f, header), br, st, st')
    ensures nb in g.blocks && Moved(l, header, nb) in Bypassing(f, region, header, nb)
    ensures Related(PhisOf(f, header), br, Enter(PhisOf(f, header), l, st), Enter(PhisOf(g, nb), Moved(l, header, nb), st'))
  {
    hide IsSevered, Related, PhiNames, Pick, Enter, SubstInc, SplitInc, Arriving, Inside, Outside, Renaming, Bypassing;
    Labels(f, region, header, nb, br, g);
    InFroms(f, region, header, nb, br, g, l);
    IdsApart(f, region, header, nb, br, g, header);
    ShapeNewHeader(f, region, header, nb, br, g, 0);
    var (hs, news, m) := (PhisOf(f, header), PhisOf(g, nb), Moved(l, header, nb));
    var (n, e) := (|hs|, Enter(hs, l, st));
    EnterAt(hs, l, st);
    EnterFrame(hs, l, st);
    RelatedOthers(hs, br, st, st');
    forall k | 0 <= k < n
      ensures news[k].id == br + n - k && Eval(Pick(news[k].inc, m), st') == Look(e.env, hs[n - 1 - k].id)
    {
      InsideValue(f, region, header, nb, br, g, l, st, st', n - 1 - k);
    }
    EnterNew(hs, br, news, m, st', e);
  }

  lemma InFroms(f: Func, region: set<Label>, header: Label, nb: Label, br: Id, g: Func, l: Label)
    requires IsSevered(f, region, header, nb, br, g) && l in region && header in f.blocks[l].term.dests
    ensures Moved(l, header, nb) in Bypassing(f, region, header, nb)
  {
    hide Severed, Below, UniqueIds;
    Labels(f, region, header, nb, br, g);
    var inc := f.blocks[header].phis[0].inc;
    assert l in Froms(inc);
    var k :| 0 <= k < |inc| && inc[k].from == l;
    var inc' := SplitInc(f, header, nb, header, inc);
    assert inc'[k] in inc' && inc'[k].from == Moved(l, header, nb);
  }

  lemma NotInFroms(f: Func, region: set<Label>, header: Label, nb: Label, br: Id, g: Func, l: Label)
    requires IsSevered(f, region, header, nb, br, g) && l in f.blocks && l !in region
    ensures l !in Bypassing(f, region, header, nb)
  {
    hide Severed, UniqueIds;
    Labels(f, region, header, nb, br, g);
  }

  lemma InsideValue(f: Func, region: set<Label>, header: Label, nb: Label, br: Id, g: Func, l: Label,
                    st: State, st': State, j: nat)
    requires IsSevered(f, region, header, nb, br, g) && l in region && header in f.blocks[l].term.dests
    requires Related(PhisOf(f, header), br, st, st') && j < |PhisOf(f, header)|
    ensures var hs := PhisOf(f, header);
            var news := PhisOf(g, nb);
            && |news| == |hs| && news[|hs| - 1 - j].id == br + 1 + j
            && Eval(Pick(news[|hs| - 1 - j].inc, Moved(l, header, nb)), st') == Eval(Pick(hs[j].inc, l), st)
  {
    hide IsSevered, Related, PhiNames, SplitInc, SubstInc, Inside, Renaming;
    Labels(f, region, header, nb, br, g);
    var (s, r, m) := (PhiNames(f, header, br), NewRegion(region, header, nb), Moved(l, header, nb));
    var inc := SplitPhi(f, header, nb, j).inc;
    ShapeNewHeader(f, region, header, nb, br, g, j);
    var tail := SubstInc(s, Inside(inc, r));
    assert ([Incoming(header, Inst(PhisOf(f, header)[j].id))] + tail)[1..] == tail;
    PickInside(inc, r, m);
    OperandRelated(f, region, header, nb, br, g, l, header, j, st, st', Inside(inc, r));
  }

  // The new header takes over the values the header phis have in e.
  lemma EnterNew(hs: seq<Phi>, br: Id, news: seq<Phi>, m: Label, st': State, e: State)
    requires |news| == |hs| && (forall i <- PhiIds(hs) :: i < br)
    requires e.args == st'.args && e.mem == st'.mem
    requires forall i :: i < br && i !in PhiIds(hs) ==> Look(st'.env, i) == Look(e.env, i)
    requires forall k :: 0 <= k < |hs| ==> news[k].id == br + |hs| - k
    requires forall k :: 0 <= k < |hs| ==> Eval(Pick(news[k].inc, m), st') == Look(e.env, hs[|hs| - 1 - k].id)
    ensures Related(hs, br, e, Enter(news, m, st'))
  {
    hide Enter, Pick;
    var n := |hs|;
    var e' := Enter(news, m, st');
    assert Distinct(PhiIds(news)) by {
      forall i, j | 0 <= i < j < n ensures PhiIds(news)[i] != PhiIds(news)[j] {
        assert PhiIds(news)[i] == news[i].id && PhiIds(news)[j] == news[j].id;
      }
    }
    EnterFrame(news, m, st');
    EnterAt(news, m, st');
    forall i | i < br ensures i !in PhiIds(news) && Look(e'.env, i) == Look(st'.env, i) {
      forall k | 0 <= k < n ensures PhiIds(news)[k] != i { assert PhiIds(news)[k] == news[k].id; }
    }
    forall j | 0 <= j < n ensures Look(e'.env, br + 1 + j) == Look(e.env, hs[j].id) {
      var k := n - 1 - j;
      assert news[k].id == br + 1 + j && hs[n - 1 - k] == hs[j];
      assert Look(e'.env, news[k].id) == Eval(Pick(news[k].inc, m), st');
    }
  }

  // An edge from outside stops at the old header, which collects the phi values.
  lemma EdgeOutside(f: Func, region: set<Label>, header: Label, nb: Label, br: Id, g: Func, l: Label, st: State, st': State)
    requires IsSevered(f, region, header, nb, br, g) && l in f.blocks && l !in region && header in f.blocks[l].term.dests
    requires Related(PhisOf(f, header), br, st, st')
    ensures header in g.blocks && l !in Bypassing(f, region, header, nb)
    ensures Arriving(PhisOf(f, header), br, Enter(PhisOf(f, header), l, st), Enter(PhisOf(g, header), l, st'))
  {
    hide IsSevered, Related, PhiNames, Pick, Enter, SubstInc, SplitInc, Arriving, Inside, Outside, Renaming, Bypassing;
    Labels(f, region, header, nb, br, g);
    NotInFroms(f, region, header, nb, br, g, l);
    ShapeOldHeader(f, region, header, nb, br, g);
    IdsApart(f, region, header, nb, br, g, header);
    var (hs, olds, r) := (PhisOf(f, header), PhisOf(g, header), NewRegion(region, header, nb));
    forall j | 0 <= j < |hs|
      ensures olds[j].id == hs[j].id && Eval(Pick(olds[j].inc, l), st') == Eval(Pick(hs[j].inc, l), st)
    {
      var inc := SplitPhi(f, header, nb, j).inc;
      PickInside(inc, r, l);
      OperandRelated(f, region, header, nb, br, g, l, header, j, st, st', Outside(inc, r));
    }
    RelatedOthers(hs, br, st, st');
    EnterOld(hs, br, olds, l, st, st');
  }

  lemma EnterOld(hs: seq<Phi>, br: Id, olds: seq<Phi>, l: Label, st: State, st': State)
    requires |olds| == |hs| && Distinct(PhiIds(hs))
    requires st.args == st'.args && st.mem == st'.mem
    requires forall i :: i < br && i !in PhiIds(hs) ==> Look(st'.env, i) == Look(st.env, i)
    requires forall j :: 0 <= j < |hs| ==> olds[j].id == hs[j].id && Eval(Pick(olds[j].inc, l), st') == Eval(Pick(hs[j].inc, l), st)
    ensures Arriving(hs, br, Enter(hs, l, st), Enter(olds, l, st'))
  {
    hide Pick, Enter;
    assert PhiIds(olds) == PhiIds(hs);
    EnterAt(hs, l, st);
    EnterAt(olds, l, st');
    EnterFrame(hs, l, st);
    EnterFrame(olds, l, st');
    forall j | 0 <= j < |hs| ensures Look(Enter(olds, l, st').env, hs[j].id) == Look(Enter(hs, l, st).env, hs[j].id) {
      assert olds[j].id == hs[j].id;
    }
  }

  // The old header's only instruction leads to the new header.
  lemma Bridge(f: Func, region: set<Label>, header: Label, nb: Label, br: Id, g: Func, st: State, st': State)
    requires IsSevered(f, region, header, nb, br, g) && Arriving(PhisOf(f, header), br, st, st')
    ensures Step(g, At(header, 0, st')) == (At(nb, 0, Enter(PhisOf(g, nb), header, st')), [Went(br, 0)])
    ensures Related(PhisOf(f, header), br, st, Enter(PhisOf(g, nb), header, st'))
  {
    hide IsSevered, PhiNames, Enter, SubstInc, Inside, Related, Arriving, SplitInc, Renaming;
    Labels(f, region, header, nb, br, g);
    var (hs, news) := (PhisOf(f, header), PhisOf(g, nb));
    var n := |hs|;
    IdsApart(f, region, header, nb, br, g, header);
    ShapeOldHeader(f, region, header, nb, br, g);
    ShapeNewHeader(f, region, header, nb, br, g, 0);
    ArrivingValues(hs, br, st, st');
    forall k | 0 <= k < n
      ensures news[k].id == br + n - k && Eval(Pick(news[k].inc, header), st') == Look(st.env, hs[n - 1 - k].id)
    {
      ShapeNewHeader(f, region, header, nb, br, g, n - 1 - k);
    }
    EnterNew(hs, br, news, header, st', st);
  }

  // ---------- whole runs ----------

  ghost predicate SevRel(f: Func, header: Label, nb: Label, br: Id, c: Config, d: Config) {
    var hs := PhisOf(f, header);
    match c
    case Halt(st) => d.Halt? && Related(hs, br, st, d.st)
    case At(l, p, st) =>
      && l in f.blocks && d.At? && d.pos == p
      && if d.blk == header then l == header && p == 0 && Arriving(hs, br, st, d.st)
         else d.blk == Moved(l, header, nb) && Related(hs, br, st, d.st)
  }

  ghost function SevSlack(header: Label, d: Config): nat { if d.At? && d.blk == header then 1 else 0 }

  lemma SeveredKeys(f: Func, region: set<Label>, header: Label, nb: Label, br: Id, g: Func)
    requires IsSevered(f, region, header, nb, br, g)
    ensures g.blocks.Keys == f.blocks.Keys + {nb} && g.entry == f.entry && f.entry != header
    ensures forall l <- f.blocks, to <- f.blocks[l].term.dests :: to < nb
  {
    hide UniqueIds, PhisComplete;
    forall l, to | l in f.blocks && to in f.blocks[l].term.dests ensures to < nb {
      assert TermBelow(f.blocks[l].term, nb, br);
    }
  }

  lemma SevBody(f: Func, region: set<Label>, header: Label, nb: Label, br: Id, g: Func, c: Config, d: Config)
    requires IsSevered(f, region, header, nb, br, g) && SevRel(f, header, nb, br, c, d)
    requires c.At? && d.At? && d.blk != header && c.pos < |f.blocks[c.blk].body|
    ensures Step(g, d).1 == Step(f, c).1 && SevRel(f, header, nb, br, Step(f, c).0, Step(g, d).0)
    ensures forall e <- Step(f, c).1 :: e.id < br
  {
    hide IsSevered, Related, PhiNames, Arriving, Exec, InstrBelow, Step, SubstInstr, NewDests, Renaming;
    var hs := PhisOf(f, header);
    BelowInstr(f, region, header, nb, br, g, c.blk, c.pos);
    Labels(f, region, header, nb, br, g);
    ShapeCode(f, region, header, nb, br, g, c.blk);
    IdsApart(f, region, header, nb, br, g, c.blk);
    IdsApart(f, region, header, nb, br, g, header);
    var i := f.blocks[c.blk].body[c.pos];
    assert g.blocks[d.blk].body[d.pos] == SubstInstr(PhiNames(f, header, br), i);
    NamesAre(f, header, br);
    StepBody(f, c.blk, c.pos, c.st);
    StepBody(g, d.blk, d.pos, d.st);
    ExecRelated(hs, br, c.st, d.st, i);
    ExecId(i, c.st);
  }

  lemma NamesAre(f: Func, header: Label, br: Id)
    requires header in f.blocks
    ensures PhiNames(f, header, br) == Renaming(PhisOf(f, header), br + 1, |PhisOf(f, header)|)
  {
  }

  lemma ExecId(i: Instr, st: State)
    ensures Exec(i, st).1.id == i.id
  {
  }

  lemma BelowInstr(f: Func, region: set<Label>, header: Label, nb: Label, br: Id, g: Func, l: Label, k: nat)
    requires IsSevered(f, region, header, nb, br, g) && l in f.blocks
    ensures k < |f.blocks[l].body| ==> InstrBelow(f.blocks[l].body[k], br) && f.blocks[l].body[k].id < br
    ensures ValuesBelow(f.blocks[l].term.ops, br) && f.blocks[l].term.id < br
  {
    hide UniqueIds, PhisComplete, Severed;
    assert BlockBelow(f.blocks[l], nb, br);
  }

  // Where the edge with index w leads, in both functions.
  lemma SevEdge(f: Func, region: set<Label>, header: Label, nb: Label, br: Id, g: Func, l: Label, w: nat, st: State, st': State)
    requires IsSevered(f, region, header, nb, br, g) && Related(PhisOf(f, header), br, st, st')
    requires l in f.blocks && w < |f.blocks[l].term.dests|
    ensures |NewDests(f, region, header, nb, l)| == |f.blocks[l].term.dests|
    ensures SevRel(f, header, nb, br, Goto(f, l, f.blocks[l].term.dests[w], st),
                   Goto(g, Moved(l, header, nb), NewDests(f, region, header, nb, l)[w], st'))
    ensures LandsAt(region, header, nb, l, Goto(f, l, f.blocks[l].term.dests[w], st),
                    Goto(g, Moved(l, header, nb), NewDests(f, region, header, nb, l)[w], st'))
  {
    hide IsSevered, Related, PhiNames, Arriving, Enter, Bypassing;
    Labels(f, region, header, nb, br, g);
    SeveredKeys(f, region, header, nb, br, g);
    var to := f.blocks[l].term.dests[w];
    assert to in f.blocks[l].term.dests;
    if to == header && l in region {
      EdgeInside(f, region, header, nb, br, g, l, st, st');
    } else if to == header {
      EdgeOutside(f, region, header, nb, br, g, l, st, st');
    } else if to in f.blocks {
      EdgeElsewhere(f, region, header, nb, br, g, l, to, st, st');
    }
  }

  // An edge into the header leads to the new header from inside the region, else to the old one.
  ghost predicate LandsAt(region: set<Label>, header: Label, nb: Label, l: Label, c: Config, d: Config) {
    c.At? && c.blk == header ==> d.At? && d.blk == if l in region then nb else header
  }

  lemma SevTerm(f: Func, region: set<Label>, header: Label, nb: Label, br: Id, g: Func, c: Config, d: Config)
    requires IsSevered(f, region, header, nb, br, g) && SevRel(f, header, nb, br, c, d)
    requires c.At? && d.At? && d.blk != header && c.pos >= |f.blocks[c.blk].body|
    ensures Step(g, d).1 == Step(f, c).1 && SevRel(f, header, nb, br, Step(f, c).0, Step(g, d).0)
    ensures forall e <- Step(f, c).1 :: e.id < br
    ensures LandsAt(region, header, nb, c.blk, Step(f, c).0, Step(g, d).0)
  {
    hide IsSevered, Related, PhiNames, Arriving, Goto, Choice, NewDests, SubstBody;
    var hs := PhisOf(f, header);
    var (l, t) := (c.blk, f.blocks[c.blk].term);
    BelowInstr(f, region, header, nb, br, g, l, 0);
    Labels(f, region, header, nb, br, g);
    ShapeCode(f, region, header, nb, br, g, l);
    IdsApart(f, region, header, nb, br, g, header);
    NamesAre(f, header, br);
    var dests := NewDests(f, region, header, nb, l);
    NewDestsCount(f, region, header, nb, l);
    var t' := g.blocks[d.blk].term;
    assert t' == Term(t.id, SubstVs(PhiNames(f, header, br), t.ops), dests);
    assert |g.blocks[d.blk].body| == |f.blocks[l].body|;
    if t.dests != [] {
      ChoiceRelated(hs, br, c.st, d.st, t, dests);
      SevEdge(f, region, header, nb, br, g, l, Choice(t, c.st), c.st, d.st);
    }
  }

  lemma NewDestsCount(f: Func, region: set<Label>, header: Label, nb: Label, l: Label)
    requires header in f.blocks && f.blocks[header].phis != [] && l in f.blocks
    ensures |NewDests(f, region, header, nb, l)| == |f.blocks[l].term.dests|
  {
  }

  lemma SevStep(f: Func, region: set<Label>, header: Label, nb: Label, br: Id, g: Func,
                rel: (Config, Config) -> bool, slack: Config -> nat, c: Config, d: Config)
    requires IsSevered(f, region, header, nb, br, g) && SevRel(f, header, nb, br, c, d)
    requires forall x, y :: rel(x, y) <==> SevRel(f, header, nb, br, x, y)
    requires forall y :: slack(y) == SevSlack(header, y)
    ensures StepMatches(f, g, {br}, rel, slack, c, d)
    ensures c.At? && d.blk != header && c.pos >= |f.blocks[c.blk].body| ==> LandsAt(region, header, nb, c.blk, Step(f, c).0, Step(g, d).0)
  {
    hide IsSevered;
    if c.At? {
      if d.blk == header {
        SevBridge(f, region, header, nb, br, g, c, d);
      } else if c.pos < |f.blocks[c.blk].body| {
        SevBody(f, region, header, nb, br, g, c, d);
        EraseVisible(Step(f, c).1, br);
      } else {
        SevTerm(f, region, header, nb, br, g, c, d);
        EraseVisible(Step(f, c).1, br);
      }
    }
  }

  lemma SevBridge(f: Func, region: set<Label>, header: Label, nb: Label, br: Id, g: Func, c: Config, d: Config)
    requires IsSevered(f, region, header, nb, br, g) && SevRel(f, header, nb, br, c, d)
    requires c.At? && d.At? && d.blk == header
    ensures Erase(Step(g, d).1, {br}) == [] && SevRel(f, header, nb, br, c, Step(g, d).0)
    ensures Step(g, d).0.At? && Step(g, d).0.blk != header
  {
    hide IsSevered, Related, Arriving, Step, Enter;
    Labels(f, region, header, nb, br, g);
    Bridge(f, region, header, nb, br, g, c.st, d.st);
  }

  lemma {:induction false} EraseVisible(t: seq<Event>, br: Id)
    requires forall e <- t :: e.id < br
    ensures Erase(t, {br}) == t
  {
    if t != [] {
      assert forall e <- t[1..] :: e in t;
      EraseVisible(t[1..], br);
    }
  }

  // Severing keeps every run of the function, in both directions.
  lemma SeveringKeepsRuns(f: Func, region: set<Label>, header: Label, nb: Label, br: Id)
    requires Severable(f, region, header, nb, br)
    ensures nb != header && SameRuns(f, Severed(f, region, header, nb, br), {br})
  {
    SeverNames(f, nb, br, header);
    hide Severed, Below, UniqueIds, PhisComplete, Related, Step, StepMatches;
    var g := Severed(f, region, header, nb, br);
    var rel := (c, d) => SevRel(f, header, nb, br, c, d);
    var slack := d => SevSlack(header, d);
    forall c, d | rel(c, d) ensures StepMatches(f, g, {br}, rel, slack, c, d) {
      SevStep(f, region, header, nb, br, g, rel, slack, c, d);
    }
    forall st ensures rel(Start(f, st), Start(g, st)) {
      SevStart(f, region, header, nb, br, g, st);
    }
    SimulationGivesSameRuns(f, g, {br}, rel, slack);
  }

  lemma SeverNames(f: Func, nb: Label, br: Id, header: Label)
    requires Below(f, nb, br) && header in f.blocks
    ensures nb != header
  {
  }

  lemma SevStart(f: Func, region: set<Label>, header: Label, nb: Label, br: Id, g: Func, st: State)
    requires IsSevered(f, region, header, nb, br, g)
    ensures SevRel(f, header, nb, br, Start(f, st), Start(g, st))
  {
  }
}
