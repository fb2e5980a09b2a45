/** The clone as the extractor builds it: blocks are copied under new ids, the inputs are
    replaced one after another, branches out of the region are diverted, and only then are
    names remapped.  Done in this order the steps add up to `CloneBlock`. */
module CloneSteps {
  import opened Collections
  import opened Ssa
  import opened Rewrite
  import opened Partition
  import opened Clone

  // ---------- the steps, on one block ----------

  // llvm::CloneBasicBlock: new instructions with the old operands.
  function Duplicate(ids: map<Id, Id>, b: Block): Block {
    Block(seq(|b.phis|, k requires 0 <= k < |b.phis| => Phi(NewId(ids, b.phis[k].id), b.phis[k].inc)),
          seq(|b.body|, k requires 0 <= k < |b.body| => Instr(NewId(ids, b.body[k].id), b.body[k].code, b.body[k].ops)),
          Term(NewId(ids, b.term.id), b.term.ops, b.term.dests))
  }

  function DivertDests(region: seq<Label>, exit: Label, dests: seq<Label>): (r: seq<Label>)
    ensures |r| == |dests|
  {
    seq(|dests|, k requires 0 <= k < |dests| => if dests[k] in region then dests[k] else exit)
  }

  function Divert(region: seq<Label>, exit: Label, b: Block): Block {
    Block(b.phis, b.body, Term(b.term.id, b.term.ops, DivertDests(region, exit, b.term.dests)))
  }

  function RemapL(labels: map<Label, Label>, l: Label): Label { if l in labels then labels[l] else l }

  function RemapVs(ids: map<Id, Id>, vs: seq<Value>): (r: seq<Value>)
    ensures |r| == |vs|
  {
    seq(|vs|, k requires 0 <= k < |vs| => RemapV(ids, vs[k]))
  }

  function RemapInc(labels: map<Label, Label>, ids: map<Id, Id>, inc: seq<Incoming>): (r: seq<Incoming>)
    ensures |r| == |inc|
  {
    seq(|inc|, k requires 0 <= k < |inc| => Incoming(RemapL(labels, inc[k].from), RemapV(ids, inc[k].val)))
  }

  // llvm::RemapInstruction on every instruction of a block.
  function Remap(labels: map<Label, Label>, ids: map<Id, Id>, b: Block): Block {
    Block(seq(|b.phis|, k requires 0 <= k < |b.phis| => Phi(b.phis[k].id, RemapInc(labels, ids, b.phis[k].inc))),
          seq(|b.body|, k requires 0 <= k < |b.body| => Instr(b.body[k].id, b.body[k].code, RemapVs(ids, b.body[k].ops))),
          Term(b.term.id, RemapVs(ids, b.term.ops),
               seq(|b.term.dests|, k requires 0 <= k < |b.term.dests| => RemapL(labels, b.term.dests[k]))))
  }

  // Incoming blocks that are not in the new function become its root.
  function Reroot(blocks: set<Label>, root: Label, inc: seq<Incoming>): (r: seq<Incoming>)
    ensures |r| == |inc|
  {
    seq(|inc|, k requires 0 <= k < |inc| => if inc[k].from in blocks then inc[k] else Incoming(root, inc[k].val))
  }

  function RerootPhis(blocks: set<Label>, root: Label, b: Block): Block {
    Block(seq(|b.phis|, k requires 0 <= k < |b.phis| => Phi(b.phis[k].id, Reroot(blocks, root, b.phis[k].inc))), b.body, b.term)
  }

  // ---------- they add up ----------

  function Prepared(p: Plan, b: Block): Block { Remap(p.labels, p.ids, Divert(p.region, p.exit, SubstBlock(p.inputs, Duplicate(p.ids, b)))) }

  ghost predicate LabelsFresh(p: Plan, nl: Label) {
    && p.labels.Keys == (set l | l in p.region)
    && (forall l <- p.labels :: l < nl && p.labels[l] >= nl)
    && p.root >= nl && p.exit >= nl
  }

  lemma PreparedBody(p: Plan, b: Block)
    ensures Prepared(p, b).body == CloneBody(p, b.body)
  {
    forall k | 0 <= k < |b.body| ensures Prepared(p, b).body[k] == CloneBody(p, b.body)[k] {
      var ops := b.body[k].ops;
      assert RemapVs(p.ids, SubstVs(p.inputs, ops)) == CloneVs(p, ops);
    }
  }

  lemma PreparedTerm(p: Plan, b: Block, nl: Label)
    requires LabelsFresh(p, nl)
    ensures Prepared(p, b).term == CloneTerm(p, b.term)
  {
    assert RemapVs(p.ids, SubstVs(p.inputs, b.term.ops)) == CloneVs(p, b.term.ops);
    assert p.exit !in p.labels;
    var dests := Prepared(p, b).term.dests;
    forall k | 0 <= k < |dests| ensures dests[k] == CloneDests(p, b.term.dests)[k] {
      assert b.term.dests[k] in p.region <==> b.term.dests[k] in p.labels;
    }
  }

  lemma PreparedPhi(p: Plan, l: Label, b: Block, nl: Label, k: nat)
    requires LabelsFresh(p, nl) && k < |b.phis| && (forall e <- b.phis[k].inc :: e.from < nl)
    ensures l != p.header ==> Prepared(p, b).phis[k] == ClonePhis(p, l, b.phis)[k]
    ensures l == p.header ==>
              RerootPhis(p.labels.Values + {p.root, p.exit}, p.root, Prepared(p, b)).phis[k] == ClonePhis(p, l, b.phis)[k]
  {
    var (inc, q) := (b.phis[k].inc, Prepared(p, b).phis[k]);
    forall j | 0 <= j < |inc|
      ensures l != p.header ==> q.inc[j] == CloneInc(p, l, inc)[j]
      ensures l == p.header ==> Reroot(p.labels.Values + {p.root, p.exit}, p.root, q.inc)[j] == CloneInc(p, l, inc)[j]
    {
      assert inc[j] in inc;
      if inc[j].from in p.labels { assert p.labels[inc[j].from] in p.labels.Values; }
    }
  }

  // The header's phis are rerooted last; with that, the steps make the clone.
  lemma StepsMakeClone(p: Plan, l: Label, b: Block, nl: Label)
    requires LabelsFresh(p, nl) && forall x <- b.phis, e <- x.inc :: e.from < nl
    ensures (if l == p.header then RerootPhis(p.labels.Values + {p.root, p.exit}, p.root, Prepared(p, b)) else Prepared(p, b))
         == CloneBlock(p, l, b)
  {
    hide Prepared, LabelsFresh, Reroot;
    PreparedBody(p, b);
    PreparedTerm(p, b, nl);
    PreparedCount(p, b);
    var (r, c) := (RerootPhis(p.labels.Values + {p.root, p.exit}, p.root, Prepared(p, b)), CloneBlock(p, l, b));
    forall k | 0 <= k < |b.phis|
      ensures (if l == p.header then r.phis[k] else Prepared(p, b).phis[k]) == c.phis[k]
    {
      assert b.phis[k] in b.phis;
      PreparedPhi(p, l, b, nl, k);
    }
    assert (if l == p.header then r.phis else Prepared(p, b).phis) == c.phis;
  }

  lemma PreparedCount(p: Plan, b: Block)
    ensures |Prepared(p, b).phis| == |b.phis|
  {
  }

  // ---------- replacing one input after another ----------

  // A value already replaced has no uses left.
  function Extend(s: Subst, a: Value, b: Value): Subst { if a in s then s else s[a := b] }

  lemma SubstVsAgain(s: Subst, a: Value, b: Value, vs: seq<Value>)
    requires a in s && forall v <- s :: s[v] != a
    ensures SubstVs(map[a := b], SubstVs(s, vs)) == SubstVs(s, vs)
  {
  }

  lemma SubstBlockAgain(s: Subst, a: Value, b: Value, bb: Block)
    requires a in s && forall v <- s :: s[v] != a
    ensures SubstBlock(map[a := b], SubstBlock(s, bb)) == SubstBlock(s, bb)
  {
    var (m, c) := (map[a := b], SubstBlock(s, bb));
    assert SubstBody(m, c.body) == c.body by {
      forall k | 0 <= k < |c.body| ensures SubstBody(m, c.body)[k] == c.body[k] {
        SubstVsAgain(s, a, b, bb.body[k].ops);
      }
    }
    assert SubstPhis(m, c.phis) == c.phis by {
      forall k | 0 <= k < |c.phis| ensures SubstPhis(m, c.phis)[k] == c.phis[k] {
        assert SubstInc(m, c.phis[k].inc) == c.phis[k].inc;
      }
    }
    SubstVsAgain(s, a, b, bb.term.ops);
  }

  lemma SubstBlockMore(s: Subst, a: Value, b: Value, bb: Block)
    requires forall v <- s :: s[v] != a
    ensures SubstBlock(map[a := b], SubstBlock(s, bb)) == SubstBlock(Extend(s, a, b), bb)
  {
    hide SubstBlock;
    if a in s {
      SubstBlockAgain(s, a, b, bb);
    } else {
      SubstBlockTwice(s, a, b, bb);
    }
  }

  // ---------- new names ----------

  // xs[k] is named first + k, for k < n.
  function NameSome(ids: map<Id, Id>, xs: seq<Id>, first: Id, n: nat): map<Id, Id>
    requires n <= |xs|
  {
    if n == 0 then ids else NameSome(ids, xs, first, n - 1)[xs[n - 1] := first + (n - 1)]
  }

  lemma {:induction false} NameSomeKeys(ids: map<Id, Id>, xs: seq<Id>, first: Id, n: nat)
    requires n <= |xs|
    ensures NameSome(ids, xs, first, n).Keys == ids.Keys + Elements(xs[..n])
  {
    if n > 0 {
      NameSomeKeys(ids, xs, first, n - 1);
      assert xs[..n] == xs[..n - 1] + [xs[n - 1]];
    } else {
      assert Elements(xs[..n]) == {};
    }
  }

  lemma {:induction false} NameSomeAt(ids: map<Id, Id>, xs: seq<Id>, first: Id, n: nat, k: nat)
    requires k < n <= |xs| && Distinct(xs)
    ensures xs[k] in NameSome(ids, xs, first, n) && NameSome(ids, xs, first, n)[xs[k]] == first + k
  {
    if k < n - 1 { NameSomeAt(ids, xs, first, n - 1, k); }
  }

  lemma {:induction false} NameSomeElse(ids: map<Id, Id>, xs: seq<Id>, first: Id, n: nat, i: Id)
    requires n <= |xs| && i in ids && forall k :: 0 <= k < n ==> xs[k] != i
    ensures i in NameSome(ids, xs, first, n) && NameSome(ids, xs, first, n)[i] == ids[i]
  {
    if n > 0 { NameSomeElse(ids, xs, first, n - 1, i); }
  }

  lemma NameSomeIs(ids: map<Id, Id>, xs: seq<Id>, first: Id, n: nat)
    requires n <= |xs| && Distinct(xs)
    ensures NameSome(ids, xs, first, n).Keys == ids.Keys + Elements(xs[..n])
    ensures forall k :: 0 <= k < n ==> xs[k] in NameSome(ids, xs, first, n) && NameSome(ids, xs, first, n)[xs[k]] == first + k
    ensures forall i <- ids :: i !in xs[..n] ==> NameSome(ids, xs, first, n)[i] == ids[i]
  {
    hide NameSome, Distinct, Elements;
    NameSomeKeys(ids, xs, first, n);
    var m := NameSome(ids, xs, first, n);
    forall k | 0 <= k < n ensures xs[k] in m && m[xs[k]] == first + k { NameSomeAt(ids, xs, first, n, k); }
    forall i | i in ids && i !in xs[..n] ensures i in m && m[i] == ids[i] {
      forall k | 0 <= k < n ensures xs[k] != i { assert xs[..n][k] == xs[k]; }
      NameSomeElse(ids, xs, first, n, i);
    }
  }

  // One name for each id, in order of numbers, none used before.
  ghost predicate Numbered(ids: map<Id, Id>, from: Id, to: Id) {
    (forall i <- ids :: from <= ids[i] < to) && forall i <- ids, j <- ids :: ids[i] == ids[j] ==> i == j
  }

  lemma NameSomeNumbered(ids: map<Id, Id>, xs: seq<Id>, from: Id, first: Id, n: nat)
    requires n <= |xs| && Distinct(xs) && Numbered(ids, from, first) && from <= first && forall x <- xs :: x !in ids
    ensures Numbered(NameSome(ids, xs, first, n), from, first + n)
  {
    NameSomeIs(ids, xs, first, n);
    var m := NameSome(ids, xs, first, n);
    forall i | i in m ensures (i in ids && m[i] == ids[i]) || exists k :: 0 <= k < n && xs[k] == i && m[i] == first + k {
      if i !in ids { var k :| 0 <= k < n && xs[..n][k] == i; assert xs[k] == i; }
    }
  }

  lemma DuplicateSame(a: map<Id, Id>, b: map<Id, Id>, bb: Block)
    requires forall i <- Insts(bb) :: NewId(a, i) == NewId(b, i)
    ensures Duplicate(a, bb) == Duplicate(b, bb)
  {
    var xs := Insts(bb);
    forall k | 0 <= k < |bb.phis| ensures NewId(a, bb.phis[k].id) == NewId(b, bb.phis[k].id) { assert xs[k] == bb.phis[k].id; }
    forall k | 0 <= k < |bb.body| ensures NewId(a, bb.body[k].id) == NewId(b, bb.body[k].id) {
      assert xs[|bb.phis| + k] == bb.body[k].id;
    }
    assert xs[|xs| - 1] == bb.term.id;
  }

  lemma InstsAt(b: Block)
    ensures |Insts(b)| == |b.phis| + |b.body| + 1
    ensures forall k :: 0 <= k < |b.phis| ==> Insts(b)[k] == b.phis[k].id
    ensures forall k :: 0 <= k < |b.body| ==> Insts(b)[|b.phis| + k] == b.body[k].id
    ensures Insts(b)[|b.phis| + |b.body|] == b.term.id
  {
  }

  // Copying one block, instruction by instruction, with the map of names growing.
  method CloneBasicBlock(b: Block, ids0: map<Id, Id>, first: Id) returns (c: Block, ids: map<Id, Id>)
    requires Distinct(Insts(b))
    ensures ids == NameSome(ids0, Insts(b), first, |Insts(b)|) && c == Duplicate(ids, b)
  {
    hide Duplicate, Distinct, Insts;
    ghost var xs := Insts(b);
    InstsAt(b);
    var (p, n) := (|b.phis|, |b.body|);
    ids := ids0;
    var phis: seq<Phi> := [];
    var i := 0;
    while i < p
      invariant i <= p && ids == NameSome(ids0, xs, first, i) && |phis| == i
      invariant forall k :: 0 <= k < i ==> phis[k] == Phi(first + k, b.phis[k].inc)
    {
      assert xs[i] == b.phis[i].id;
      ids := ids[b.phis[i].id := first + i];
      phis := phis + [Phi(first + i, b.phis[i].inc)];
      i := i + 1;
    }
    var body: seq<Instr> := [];
    i := 0;
    while i < n
      invariant i <= n && ids == NameSome(ids0, xs, first, p + i) && |body| == i
      invariant forall k :: 0 <= k < i ==> body[k] == Instr(first + (p + k), b.body[k].code, b.body[k].ops)
    {
      assert xs[p + i] == b.body[i].id;
      ids := ids[b.body[i].id := first + (p + i)];
      body := body + [Instr(first + (p + i), b.body[i].code, b.body[i].ops)];
      i := i + 1;
    }
    ids := ids[b.term.id := first + (p + n)];
    c := Block(phis, body, Term(first + (p + n), b.term.ops, b.term.dests));
    CopyIs(b, c, ids0, first);
  }

  lemma CopyIs(b: Block, c: Block, ids0: map<Id, Id>, first: Id)
    requires Distinct(Insts(b)) && |c.phis| == |b.phis| && |c.body| == |b.body|
    requires forall k :: 0 <= k < |b.phis| ==> c.phis[k] == Phi(first + k, b.phis[k].inc)
    requires forall k :: 0 <= k < |b.body| ==> c.body[k] == Instr(first + (|b.phis| + k), b.body[k].code, b.body[k].ops)
    requires c.term == Term(first + (|b.phis| + |b.body|), b.term.ops, b.term.dests)
    ensures c == Duplicate(NameSome(ids0, Insts(b), first, |Insts(b)|), b)
  {
    hide NameSome, Distinct, Insts;
    InstsAt(b);
    var xs := Insts(b);
    var ids := NameSome(ids0, xs, first, |xs|);
    forall k | 0 <= k < |b.phis| ensures c.phis[k] == Duplicate(ids, b).phis[k] { NameSomeAt(ids0, xs, first, |xs|, k); }
    forall k | 0 <= k < |b.body| ensures c.body[k] == Duplicate(ids, b).body[k] { NameSomeAt(ids0, xs, first, |xs|, |b.phis| + k); }
    NameSomeAt(ids0, xs, first, |xs|, |b.phis| + |b.body|);
  }
}
