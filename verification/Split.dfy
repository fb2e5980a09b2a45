/** llvm::SplitBlock, the edit under the block separator, the return splitter and the
    phi severing: the tail of a block moves to a new block that the old one branches to. */
module Split {
  import opened Ssa

  // ---------- names in use ----------

  predicate ValueBelow(v: Value, n: Id) {
    match v
    case Const(_) => true
    case Arg(a) => a < n
    case Inst(i) => i < n
  }

  ghost predicate ValuesBelow(vs: seq<Value>, n: Id) { forall v <- vs :: ValueBelow(v, n) }

  ghost predicate PhiBelow(p: Phi, labels: Label, ids: Id) {
    p.id < ids && forall e <- p.inc :: e.from < labels && ValueBelow(e.val, ids)
  }

  ghost predicate InstrBelow(i: Instr, ids: Id) { i.id < ids && ValuesBelow(i.ops, ids) }

  ghost predicate TermBelow(t: Term, labels: Label, ids: Id) {
    t.id < ids && ValuesBelow(t.ops, ids) && forall d <- t.dests :: d < labels
  }

  ghost predicate BlockBelow(b: Block, labels: Label, ids: Id) {
    && (forall p <- b.phis :: PhiBelow(p, labels, ids))
    && (forall i <- b.body :: InstrBelow(i, ids))
    && TermBelow(b.term, labels, ids)
  }

  // Every label and every id that f mentions is below the bounds, so the bounds are fresh.
  ghost predicate Below(f: Func, labels: Label, ids: Id) {
    && f.entry < labels
    && forall l <- f.blocks :: l < labels && BlockBelow(f.blocks[l], labels, ids)
  }

  // ---------- renaming a predecessor in phis ----------

  function RenameInc(inc: seq<Incoming>, from: Label, to: Label): (r: seq<Incoming>)
    ensures |r| == |inc|
    ensures forall k :: 0 <= k < |inc| ==>
              r[k] == inc[k].(from := if inc[k].from == from then to else inc[k].from)
  {
    if inc == [] then []
    else [inc[0].(from := if inc[0].from == from then to else inc[0].from)] + RenameInc(inc[1..], from, to)
  }

  function RenamePhis(phis: seq<Phi>, from: Label, to: Label): (r: seq<Phi>)
    ensures |r| == |phis|
    ensures forall k :: 0 <= k < |phis| ==> r[k] == Phi(phis[k].id, RenameInc(phis[k].inc, from, to))
  {
    if phis == [] then []
    else [Phi(phis[0].id, RenameInc(phis[0].inc, from, to))] + RenamePhis(phis[1..], from, to)
  }

  lemma {:induction false} PickRenamed(inc: seq<Incoming>, from: Label, to: Label, p: Label)
    requires forall e <- inc :: e.from != to
    requires p != from
    ensures Pick(RenameInc(inc, from, to), if p == to then from else p) ==
            if p == to then Const(0) else Pick(inc, p)
    ensures Pick(RenameInc(inc, from, to), to) == Pick(inc, from)
  {
    if inc != [] {
      PickRenamed(inc[1..], from, to, p);
      assert forall e <- inc[1..] :: e in inc;
      assert RenameInc(inc, from, to)[1..] == RenameInc(inc[1..], from, to);
    }
  }

  lemma {:induction false} PhiValuesRenamed(phis: seq<Phi>, from: Label, to: Label, p: Label, st: State)
    requires forall x <- phis, e <- x.inc :: e.from != to
    requires p != from && p != to
    ensures PhiValues(RenamePhis(phis, from, to), p, st) == PhiValues(phis, p, st)
    ensures PhiValues(RenamePhis(phis, from, to), to, st) == PhiValues(phis, from, st)
  {
    if phis != [] {
      assert phis[0] in phis && forall x <- phis[1..] :: x in phis;
      PhiValuesRenamed(phis[1..], from, to, p, st);
      PickRenamed(phis[0].inc, from, to, p);
      assert RenamePhis(phis, from, to)[1..] == RenamePhis(phis[1..], from, to);
    }
  }

  // ---------- the split ----------

  // `k` is the position in the body of the first instruction to move; the terminator is at
  // |body|.  Phis stay, and the phis of the successors learn the new predecessor.
  function SplitBlock(f: Func, bb: Label, k: nat, nb: Label, br: Id): Func
    requires bb in f.blocks && k <= |f.blocks[bb].body|
  {
    var b := f.blocks[bb];
    var cut := f.blocks[bb := Block(b.phis, b.body[..k], Term(br, [], [nb]))]
                       [nb := Block([], b.body[k..], b.term)];
    Func(f.entry, f.params,
         map l | l in cut ::
           if l in b.term.dests then cut[l].(phis := RenamePhis(cut[l].phis, bb, nb)) else cut[l])
  }

  lemma RenamedPhisBelow(phis: seq<Phi>, bb: Label, nb: Label, br: Id)
    requires bb < nb && forall p <- phis :: PhiBelow(p, nb, br)
    ensures forall p <- phis :: PhiBelow(p, nb + 1, br + 1)
    ensures forall p <- RenamePhis(phis, bb, nb) :: PhiBelow(p, nb + 1, br + 1)
  {
    forall p <- RenamePhis(phis, bb, nb) ensures PhiBelow(p, nb + 1, br + 1) {
      var i :| 0 <= i < |phis| && RenamePhis(phis, bb, nb)[i] == p;
      assert PhiBelow(phis[i], nb, br);
      forall e <- p.inc ensures e.from < nb + 1 && ValueBelow(e.val, br + 1) {
        var j :| 0 <= j < |p.inc| && p.inc[j] == e;
        assert phis[i].inc[j] in phis[i].inc;
      }
    }
  }

  lemma BodyBelow(body: seq<Instr>, k: nat, br: Id)
    requires k <= |body|
    requires forall i <- body :: InstrBelow(i, br)
    ensures forall i <- body :: InstrBelow(i, br + 1)
    ensures forall i <- body[..k] :: InstrBelow(i, br + 1)
    ensures forall i <- body[k..] :: InstrBelow(i, br + 1)
  {
    forall i <- body ensures InstrBelow(i, br + 1) {
      assert InstrBelow(i, br);
    }
    forall i | i in body[..k] ensures i in body {}
    forall i | i in body[k..] ensures i in body {}
  }

  lemma SplitBelow(f: Func, bb: Label, k: nat, nb: Label, br: Id)
    requires bb in f.blocks && k <= |f.blocks[bb].body| && Below(f, nb, br)
    ensures Below(SplitBlock(f, bb, k, nb, br), nb + 1, br + 1)
  {
    hide PhiBelow, InstrBelow, ValuesBelow;
    var g := SplitBlock(f, bb, k, nb, br);
    forall l | l in g.blocks ensures l < nb + 1 && BlockBelow(g.blocks[l], nb + 1, br + 1) {
      var o := f.blocks[if l == nb then bb else l];
      assert BlockBelow(o, nb, br);
      RenamedPhisBelow(o.phis, bb, nb, br);
      BodyBelow(o.body, if l == bb || l == nb then k else 0, br);
      TermsBelow(o.term, nb, br);
      TermsBelow(f.blocks[bb].term, nb, br);
    }
  }

  lemma TermsBelow(t: Term, nb: Label, br: Id)
    requires TermBelow(t, nb, br)
    ensures TermBelow(t, nb + 1, br + 1)
    ensures TermBelow(Term(br, [], [nb]), nb + 1, br + 1)
  {
  }

  ghost predicate SplitRel(bb: Label, k: nat, nb: Label, c: Config, d: Config) {
    match c
    case Halt(_) => d == c
    case At(l, p, st) =>
      && l != nb
      && if l == bb && p >= k then d == At(nb, p - k, st) || (p == k && d == c) else d == c
  }

  ghost function SplitSlack(bb: Label, d: Config): nat { if d.At? && d.blk == bb then 1 else 0 }

  lemma SplitGoto(f: Func, bb: Label, k: nat, nb: Label, br: Id, from: Label, to: Label, st: State)
    requires bb in f.blocks && k <= |f.blocks[bb].body| && Below(f, nb, br)
    requires from in f.blocks && to in f.blocks[from].term.dests
    ensures var g := SplitBlock(f, bb, k, nb, br);
            Goto(g, if from == bb then nb else from, to, st) == Goto(f, from, to, st)
  {
    var g := SplitBlock(f, bb, k, nb, br);
    assert to < nb && from < nb;
    if to in f.blocks {
      var b := f.blocks[to];
      forall x <- b.phis, e <- x.inc ensures e.from != nb {
        assert PhiBelow(x, nb, br);
      }
      if from == bb {
        PhiValuesRenamed(b.phis, bb, nb, nb + 1, st);
      } else {
        PhiValuesRenamed(b.phis, bb, nb, from, st);
      }
    }
  }

  // The inserted branch is taken: g moves to the new block while f stands still.
  lemma SplitBridge(f: Func, bb: Label, k: nat, nb: Label, br: Id, st: State)
    requires bb in f.blocks && k <= |f.blocks[bb].body| && Below(f, nb, br)
    ensures Step(SplitBlock(f, bb, k, nb, br), At(bb, k, st)) == (At(nb, 0, st), [Went(br, 0)])
  {
    var g := SplitBlock(f, bb, k, nb, br);
    assert nb !in f.blocks[bb].term.dests;
    assert g.blocks[nb].phis == [];
    assert Enter([], bb, st) == st;
  }

  lemma SplitBody(f: Func, bb: Label, k: nat, nb: Label, br: Id, c: Config, d: Config)
    requires bb in f.blocks && k <= |f.blocks[bb].body| && Below(f, nb, br)
    requires SplitRel(bb, k, nb, c, d) && c.At? && c.blk in f.blocks && !(d.blk == bb && c.pos >= k)
    requires c.pos < |f.blocks[c.blk].body|
    ensures Step(SplitBlock(f, bb, k, nb, br), d).1 == Step(f, c).1
    ensures SplitRel(bb, k, nb, Step(f, c).0, Step(SplitBlock(f, bb, k, nb, br), d).0)
  {
    var g := SplitBlock(f, bb, k, nb, br);
    assert g.blocks[d.blk].body[d.pos] == f.blocks[c.blk].body[c.pos];
  }

  lemma SplitTerm(f: Func, bb: Label, k: nat, nb: Label, br: Id, c: Config, d: Config)
    requires bb in f.blocks && k <= |f.blocks[bb].body| && Below(f, nb, br)
    requires SplitRel(bb, k, nb, c, d) && c.At? && c.blk in f.blocks && !(d.blk == bb && c.pos >= k)
    requires c.pos >= |f.blocks[c.blk].body|
    ensures Step(SplitBlock(f, bb, k, nb, br), d).1 == Step(f, c).1
    ensures SplitRel(bb, k, nb, Step(f, c).0, Step(SplitBlock(f, bb, k, nb, br), d).0)
  {
    var g := SplitBlock(f, bb, k, nb, br);
    var t := f.blocks[c.blk].term;
    assert g.blocks[d.blk].term == t;
    if t.dests != [] {
      var w := Choice(t, c.st);
      SplitGoto(f, bb, k, nb, br, c.blk, t.dests[w], c.st);
      assert t.dests[w] in t.dests;
    }
  }

  lemma NotHidden(f: Func, nb: Label, br: Id, c: Config)
    requires Below(f, nb, br)
    ensures Erase(Step(f, c).1, {br}) == Step(f, c).1
  {
    if c.At? && c.blk in f.blocks {
      var b := f.blocks[c.blk];
      assert BlockBelow(b, nb, br);
      if c.pos < |b.body| {
        assert InstrBelow(b.body[c.pos], br);
      }
    }
  }

  lemma SplitStep(f: Func, bb: Label, k: nat, nb: Label, br: Id, rel: (Config, Config) -> bool, slack: Config -> nat,
                  c: Config, d: Config)
    requires bb in f.blocks && k <= |f.blocks[bb].body| && Below(f, nb, br)
    requires forall x, y :: rel(x, y) <==> SplitRel(bb, k, nb, x, y)
    requires forall y :: slack(y) == SplitSlack(bb, y)
    requires SplitRel(bb, k, nb, c, d)
    ensures StepMatches(f, SplitBlock(f, bb, k, nb, br), {br}, rel, slack, c, d)
  {
    NotHidden(f, nb, br, c);
    if c.At? && c.blk in f.blocks {
      if d.blk == bb && c.pos >= k {
        SplitBridge(f, bb, k, nb, br, c.st);
      } else if c.pos < |f.blocks[c.blk].body| {
        SplitBody(f, bb, k, nb, br, c, d);
      } else {
        SplitTerm(f, bb, k, nb, br, c, d);
      }
    }
  }

  // Splitting a block anywhere keeps every run of the function, in both directions; the
  // inserted branch is the only instruction an observer has to overlook.
  lemma SplitKeepsRuns(f: Func, bb: Label, k: nat, nb: Label, br: Id)
    requires bb in f.blocks && k <= |f.blocks[bb].body| && Below(f, nb, br)
    ensures SameRuns(f, SplitBlock(f, bb, k, nb, br), {br})
  {
    var rel := (c, d) => SplitRel(bb, k, nb, c, d);
    var slack := d => SplitSlack(bb, d);
    var g := SplitBlock(f, bb, k, nb, br);
    forall c, d | rel(c, d) ensures StepMatches(f, g, {br}, rel, slack, c, d) {
      SplitStep(f, bb, k, nb, br, rel, slack, c, d);
    }
    SimulationGivesSameRuns(f, g, {br}, rel, slack);
  }
}
