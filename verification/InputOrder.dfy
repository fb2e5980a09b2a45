/** The order in which inputs and outputs are collected: that of their first use, and of their
    definition, in the region. */
module InputOrder {
  import opened Collections
  import opened Ssa
  import opened Partition
  import opened Clone
  import opened InputsOutputs

  // The operands of instruction k of a block, phis first and the terminator last.
  ghost function OperandsAt(b: Block, k: nat): seq<Value> {
    if k < |b.phis| then seq(|b.phis[k].inc|, j requires 0 <= j < |b.phis[k].inc| => b.phis[k].inc[j].val)
    else if k < |b.phis| + |b.body| then b.body[k - |b.phis|].ops
    else if k == |b.phis| + |b.body| then b.term.ops
    else []
  }

  ghost function IdAt(b: Block, k: nat): Id {
    if k < |b.phis| then b.phis[k].id else if k < |b.phis| + |b.body| then b.body[k - |b.phis|].id else b.term.id
  }

  // Where the region uses a value: the position of the block in the region, of the instruction
  // in the block, and of the operand in the instruction.
  datatype Place = Place(block: nat, inst: nat, operand: nat)

  ghost predicate IsPlace(f: Func, region: seq<Label>, x: Place) {
    x.block < |region| && region[x.block] in f.blocks && x.operand < |OperandsAt(f.blocks[region[x.block]], x.inst)|
  }

  ghost predicate UsedAt(f: Func, region: seq<Label>, v: Value, x: Place) {
    IsPlace(f, region, x) && OperandsAt(f.blocks[region[x.block]], x.inst)[x.operand] == v
  }

  ghost predicate DefinedAt(f: Func, region: seq<Label>, v: Value, x: Place) {
    && x.block < |region| && region[x.block] in f.blocks && x.operand == 0
    && var b := f.blocks[region[x.block]]; x.inst <= |b.phis| + |b.body| && v == Inst(IdAt(b, x.inst))
  }

  ghost predicate Earlier(x: Place, y: Place) {
    x.block < y.block || (x.block == y.block && (x.inst < y.inst || (x.inst == y.inst && x.operand < y.operand)))
  }

  // v comes first in vs where w does not stand before it.
  ghost predicate FirstOf(vs: seq<Value>, v: Value, w: Value) { exists a :: 0 <= a < |vs| && vs[a] == v && w !in vs[..a] }

  lemma FirstOfMore(vs: seq<Value>, x: Value, v: Value, w: Value)
    ensures FirstOf(vs + [x], v, w) <==> FirstOf(vs, v, w) || (v == x && w !in vs)
  {
    var us := vs + [x];
    if FirstOf(us, v, w) {
      var a :| 0 <= a < |us| && us[a] == v && w !in us[..a];
      if a < |vs| { assert us[..a] == vs[..a]; } else { assert us[..a] == vs; }
    }
    if FirstOf(vs, v, w) {
      var a :| 0 <= a < |vs| && vs[a] == v && w !in vs[..a];
      assert us[..a] == vs[..a] && us[a] == v;
    }
    if v == x && w !in vs { assert us[..|vs|] == vs && us[|vs|] == v; }
  }

  lemma FirstOfHas(vs: seq<Value>, v: Value, w: Value)
    requires v != w && w !in vs
    ensures FirstOf(vs, v, w) <==> v in vs
  {
    if v in vs {
      var a :| 0 <= a < |vs| && vs[a] == v;
      assert w !in vs[..a];
    }
  }

  // Inserting keeps the order of first occurrence.
  lemma {:induction false} AddedInOrder(f: Func, region: seq<Label>, vs: seq<Value>, v: Value, w: Value)
    requires v != w && DefinedInCaller(f, region, v) && DefinedInCaller(f, region, w)
    ensures FirstOf(AddInputs(f, region, [], vs), v, w) <==> FirstOf(vs, v, w)
    ensures v in AddInputs(f, region, [], vs) <==> v in vs
    ensures w in AddInputs(f, region, [], vs) <==> w in vs
  {
    hide DefinedInCaller, FirstOf;
    if vs == [] {
      FirstOfHas(vs, v, w);
    } else {
      var (rest, x) := (vs[..|vs| - 1], vs[|vs| - 1]);
      assert vs == rest + [x];
      AddedInOrder(f, region, rest, v, w);
      var prior := AddInputs(f, region, [], rest);
      FirstOfMore(rest, x, v, w);
      FirstOfMore(prior, x, v, w);
      if v == x && v in prior && w !in prior { FirstOfHas(prior, v, w); }
    }
  }

  lemma {:induction false} AddedOutputsInOrder(f: Func, region: seq<Label>, xs: seq<Id>, v: Value, w: Value)
    requires v != w && v.Inst? && w.Inst? && UsedOutside(f, region, v) && UsedOutside(f, region, w)
    ensures FirstOf(AddOutputs(f, region, [], xs), v, w) <==> FirstOf(AsValues(xs), v, w)
    ensures v in AddOutputs(f, region, [], xs) <==> v in AsValues(xs)
    ensures w in AddOutputs(f, region, [], xs) <==> w in AsValues(xs)
  {
    hide UsedOutside, FirstOf;
    if xs == [] {
      FirstOfHas([], v, w);
      assert AsValues(xs) == [];
    } else {
      var (rest, x) := (xs[..|xs| - 1], Inst(xs[|xs| - 1]));
      assert AsValues(xs) == AsValues(rest) + [x];
      AddedOutputsInOrder(f, region, rest, v, w);
      var prior := AddOutputs(f, region, [], rest);
      FirstOfMore(AsValues(rest), x, v, w);
      FirstOfMore(prior, x, v, w);
      if v == x && v in prior && w !in prior { FirstOfHas(prior, v, w); }
    }
  }

  ghost function AsValues(xs: seq<Id>): seq<Value> { seq(|xs|, k requires 0 <= k < |xs| => Inst(xs[k])) }

  // Without repetition, coming first means standing before.
  lemma FirstIsBefore(vs: seq<Value>, i: nat, j: nat)
    requires Distinct(vs) && i < |vs| && j < |vs| && i != j
    ensures FirstOf(vs, vs[i], vs[j]) <==> i < j
  {
    if i < j {
      forall k | 0 <= k < i ensures vs[..i][k] != vs[j] { assert vs[..i][k] == vs[k]; }
      assert vs[j] !in vs[..i];
    }
    if FirstOf(vs, vs[i], vs[j]) {
      var a :| 0 <= a < |vs| && vs[a] == vs[i] && vs[j] !in vs[..a];
      forall k | 0 <= k < i ensures vs[k] != vs[j] { assert vs[..a][k] == vs[k]; }
    }
  }

  // ---------- places in the lists ----------

  // How many operands come before instruction k of a block.
  ghost function Skipped(b: Block, k: nat): nat { if k == 0 then 0 else Skipped(b, k - 1) + |OperandsAt(b, k - 1)| }

  ghost function Through(b: Block, k: nat): (r: seq<Value>)
    ensures |r| == Skipped(b, k)
  {
    if k == 0 then [] else Through(b, k - 1) + OperandsAt(b, k - 1)
  }

  lemma {:induction false} ThroughPhis(b: Block, n: nat)
    requires n <= |b.phis|
    ensures Through(b, n) == PhiUses(b.phis[..n])
  {
    if n == 0 {
      assert b.phis[..0] == [];
    } else {
      ThroughPhis(b, n - 1);
      assert b.phis[..n] == b.phis[..n - 1] + [b.phis[n - 1]];
      PhiUsesMore(b.phis[..n - 1], b.phis[n - 1]);
      assert OperandsAt(b, n - 1) == IncUses(b.phis[n - 1].inc);
    }
  }

  lemma {:induction false} PhiUsesMore(phis: seq<Phi>, x: Phi)
    ensures PhiUses(phis + [x]) == PhiUses(phis) + IncUses(x.inc)
  {
    if phis == [] {
      assert [x][1..] == [] && phis + [x] == [x];
    } else {
      assert (phis + [x])[1..] == phis[1..] + [x];
      PhiUsesMore(phis[1..], x);
    }
  }

  lemma {:induction false} ThroughBody(b: Block, n: nat)
    requires n <= |b.body|
    ensures Through(b, |b.phis| + n) == PhiUses(b.phis) + BodyUses(b.body[..n])
  {
    hide OperandsAt, PhiUses;
    if n == 0 {
      ThroughPhis(b, |b.phis|);
      assert b.phis[..|b.phis|] == b.phis && b.body[..0] == [];
    } else {
      ThroughBody(b, n - 1);
      assert b.body[..n] == b.body[..n - 1] + [b.body[n - 1]];
      BodyOperands(b, n - 1);
      hide BodyUses;
      BodyUsesMore(b.body[..n - 1], b.body[n - 1]);
    }
  }

  lemma BodyOperands(b: Block, n: nat)
    requires n < |b.body|
    ensures OperandsAt(b, |b.phis| + n) == b.body[n].ops
  {
  }

  lemma {:induction false} BodyUsesMore(body: seq<Instr>, x: Instr)
    ensures BodyUses(body + [x]) == BodyUses(body) + x.ops
  {
    if body == [] {
      assert [x][1..] == [] && body + [x] == [x];
    } else {
      assert (body + [x])[1..] == body[1..] + [x];
      BodyUsesMore(body[1..], x);
    }
  }

  lemma UsesThrough(b: Block)
    ensures Uses(b) == Through(b, |b.phis| + |b.body| + 1)
  {
    hide PhiUses, BodyUses;
    ThroughBody(b, |b.body|);
    assert b.body[..|b.body|] == b.body;
  }

  lemma {:induction false} SkippedUp(b: Block, k: nat, m: nat)
    requires k <= m
    ensures Skipped(b, k) <= Skipped(b, m)
  {
    if k < m { SkippedUp(b, k, m - 1); }
  }

  lemma {:induction false} ThroughAt(b: Block, n: nat, k: nat, j: nat)
    requires k < n && j < |OperandsAt(b, k)|
    ensures Skipped(b, k) + j < Skipped(b, n) && Through(b, n)[Skipped(b, k) + j] == OperandsAt(b, k)[j]
  {
    hide OperandsAt;
    if k < n - 1 { ThroughAt(b, n - 1, k, j); }
  }

  lemma {:induction false} ThroughOnto(b: Block, n: nat, a: nat) returns (k: nat, j: nat)
    requires a < Skipped(b, n)
    ensures k < n && j < |OperandsAt(b, k)| && a == Skipped(b, k) + j
  {
    hide OperandsAt;
    if a < Skipped(b, n - 1) {
      k, j := ThroughOnto(b, n - 1, a);
    } else {
      k, j := n - 1, a - Skipped(b, n - 1);
    }
  }

  // Where a place stands in the uses of the region.
  ghost function RankOf(f: Func, region: seq<Label>, x: Place): nat
    requires IsPlace(f, region, x) && forall l <- region :: l in f.blocks
  {
    |RegionUses(f, region[..x.block])| + Skipped(f.blocks[region[x.block]], x.inst) + x.operand
  }

  lemma LastInstruction(b: Block, k: nat, j: nat)
    requires j < |OperandsAt(b, k)|
    ensures k < |b.phis| + |b.body| + 1
  {
  }

  lemma {:induction false} RankAt(f: Func, region: seq<Label>, x: Place)
    requires IsPlace(f, region, x) && forall l <- region :: l in f.blocks
    ensures RankOf(f, region, x) < |RegionUses(f, region)|
    ensures RegionUses(f, region)[RankOf(f, region, x)] == OperandsAt(f.blocks[region[x.block]], x.inst)[x.operand]
  {
    hide OperandsAt, Uses;
    var (rest, b) := (region[..|region| - 1], f.blocks[region[x.block]]);
    if x.block < |rest| {
      assert rest[x.block] == region[x.block] && rest[..x.block] == region[..x.block];
      RankAt(f, rest, x);
    } else {
      LastInstruction(b, x.inst, x.operand);
      UsesThrough(b);
      ThroughAt(b, |b.phis| + |b.body| + 1, x.inst, x.operand);
    }
  }

  lemma {:induction false} RankOnto(f: Func, region: seq<Label>, a: nat) returns (x: Place)
    requires (forall l <- region :: l in f.blocks) && a < |RegionUses(f, region)|
    ensures IsPlace(f, region, x) && RankOf(f, region, x) == a
  {
    hide OperandsAt, Uses;
    var n := |region| - 1;
    var (rest, b) := (region[..n], f.blocks[region[n]]);
    if a < |RegionUses(f, rest)| {
      x := RankOnto(f, rest, a);
      assert rest[x.block] == region[x.block] && rest[..x.block] == region[..x.block];
    } else {
      UsesThrough(b);
      var k, j := ThroughOnto(b, |b.phis| + |b.body| + 1, a - |RegionUses(f, rest)|);
      x := Place(n, k, j);
    }
  }

  lemma {:induction false} RegionUsesUp(f: Func, region: seq<Label>, m: nat, n: nat)
    requires m <= n <= |region| && forall l <- region :: l in f.blocks
    ensures |RegionUses(f, region[..m])| <= |RegionUses(f, region[..n])|
  {
    hide Uses;
    if m < n {
      assert region[..n][..n - 1] == region[..n - 1];
      RegionUsesUp(f, region, m, n - 1);
    }
  }

  lemma RankUp(f: Func, region: seq<Label>, x: Place, y: Place)
    requires (forall l <- region :: l in f.blocks) && IsPlace(f, region, x) && IsPlace(f, region, y) && Earlier(x, y)
    ensures RankOf(f, region, x) < RankOf(f, region, y)
  {
    hide OperandsAt, Uses;
    var b := f.blocks[region[x.block]];
    if x.block < y.block {
      LastInstruction(b, x.inst, x.operand);
      UsesThrough(b);
      ThroughAt(b, |b.phis| + |b.body| + 1, x.inst, x.operand);
      assert region[..x.block + 1][..x.block] == region[..x.block];
      RegionUsesUp(f, region, x.block + 1, y.block);
    } else if x.inst < y.inst {
      ThroughAt(b, y.inst, x.inst, x.operand);
    }
  }

  // The first use of v comes before every use of w.
  ghost predicate UsedFirst(f: Func, region: seq<Label>, v: Value, w: Value) {
    exists x :: UsedAt(f, region, v, x) && forall y :: UsedAt(f, region, w, y) ==> Earlier(x, y)
  }

  lemma FirstUse(f: Func, region: seq<Label>, v: Value, w: Value)
    requires (forall l <- region :: l in f.blocks) && v != w
    ensures FirstOf(RegionUses(f, region), v, w) <==> UsedFirst(f, region, v, w)
  {
    hide OperandsAt, RegionUses, RankOf, Earlier;
    var us := RegionUses(f, region);
    if FirstOf(us, v, w) {
      var a :| 0 <= a < |us| && us[a] == v && w !in us[..a];
      var x := RankOnto(f, region, a);
      RankAt(f, region, x);
      assert UsedAt(f, region, v, x);
      forall k | 0 <= k < a ensures us[k] != w { assert us[..a][k] == us[k]; }
      forall y | UsedAt(f, region, w, y) ensures Earlier(x, y) {
        RankAt(f, region, y);
        PlacesOrdered(f, region, x, y);
      }
    }
    if UsedFirst(f, region, v, w) {
      var x :| UsedAt(f, region, v, x) && forall y :: UsedAt(f, region, w, y) ==> Earlier(x, y);
      RankAt(f, region, x);
      var a := RankOf(f, region, x);
      forall c | 0 <= c < a ensures us[..a][c] != w {
        var y := RankOnto(f, region, c);
        RankAt(f, region, y);
        assert us[..a][c] == us[c];
        if us[c] == w { RankUp(f, region, x, y); }
      }
      assert us[a] == v && w !in us[..a];
    }
  }

  lemma PlacesOrdered(f: Func, region: seq<Label>, x: Place, y: Place)
    requires (forall l <- region :: l in f.blocks) && IsPlace(f, region, x) && IsPlace(f, region, y)
    ensures x == y || Earlier(x, y) || RankOf(f, region, y) < RankOf(f, region, x)
  {
    hide OperandsAt, RankOf;
    if Earlier(y, x) { RankUp(f, region, y, x); }
  }

  // One input stands before another exactly when the region uses it first, and so is passed first.
  lemma InputsInOrder(f: Func, region: seq<Label>, i: nat, j: nat)
    requires (forall l <- region :: l in f.blocks) && i < |InputsOf(f, region)| && j < |InputsOf(f, region)| && i != j
    ensures i < j <==> UsedFirst(f, region, InputsOf(f, region)[i], InputsOf(f, region)[j])
  {
    hide UsedFirst, FirstOf, RegionUses, DefinedInCaller;
    var vs := InputsOf(f, region);
    AddInputsIs(f, region, [], RegionUses(f, region));
    assert vs[i] in vs && vs[j] in vs && vs[i] != vs[j];
    AddedInOrder(f, region, RegionUses(f, region), vs[i], vs[j]);
    FirstIsBefore(vs, i, j);
    FirstUse(f, region, vs[i], vs[j]);
  }

  // ---------- the same for outputs ----------

  ghost predicate DefinedFirst(f: Func, region: seq<Label>, v: Value, w: Value) {
    exists x :: DefinedAt(f, region, v, x) && forall y :: DefinedAt(f, region, w, y) ==> Earlier(x, y)
  }

  ghost function DefRank(f: Func, region: seq<Label>, x: Place): nat
    requires x.block < |region| && forall l <- region :: l in f.blocks
  {
    |RegionInsts(f, region[..x.block])| + x.inst
  }

  lemma InstsAre(b: Block)
    ensures |Insts(b)| == |b.phis| + |b.body| + 1 && forall k :: 0 <= k < |Insts(b)| ==> Insts(b)[k] == IdAt(b, k)
  {
  }

  lemma {:induction false} DefRankAt(f: Func, region: seq<Label>, v: Value, x: Place)
    requires (forall l <- region :: l in f.blocks) && DefinedAt(f, region, v, x)
    ensures DefRank(f, region, x) < |RegionInsts(f, region)| && Inst(RegionInsts(f, region)[DefRank(f, region, x)]) == v
  {
    hide Insts, IdAt;
    var rest := region[..|region| - 1];
    InstsAre(f.blocks[region[x.block]]);
    if x.block < |rest| {
      assert rest[x.block] == region[x.block] && rest[..x.block] == region[..x.block];
      DefRankAt(f, rest, v, x);
    }
  }

  lemma {:induction false} DefRankOnto(f: Func, region: seq<Label>, a: nat) returns (x: Place)
    requires (forall l <- region :: l in f.blocks) && a < |RegionInsts(f, region)|
    ensures DefinedAt(f, region, Inst(RegionInsts(f, region)[a]), x) && DefRank(f, region, x) == a
  {
    hide Insts, IdAt;
    var n := |region| - 1;
    var rest := region[..n];
    InstsAre(f.blocks[region[n]]);
    if a < |RegionInsts(f, rest)| {
      x := DefRankOnto(f, rest, a);
      assert rest[x.block] == region[x.block] && rest[..x.block] == region[..x.block];
    } else {
      x := Place(n, a - |RegionInsts(f, rest)|, 0);
    }
  }

  lemma {:induction false} RegionInstsUp(f: Func, region: seq<Label>, m: nat, n: nat)
    requires m <= n <= |region| && forall l <- region :: l in f.blocks
    ensures |RegionInsts(f, region[..m])| <= |RegionInsts(f, region[..n])|
  {
    hide Insts;
    if m < n {
      assert region[..n][..n - 1] == region[..n - 1];
      RegionInstsUp(f, region, m, n - 1);
    }
  }

  lemma DefRankUp(f: Func, region: seq<Label>, v: Value, w: Value, x: Place, y: Place)
    requires (forall l <- region :: l in f.blocks) && DefinedAt(f, region, v, x) && DefinedAt(f, region, w, y) && Earlier(x, y)
    ensures DefRank(f, region, x) < DefRank(f, region, y)
  {
    hide Insts, IdAt;
    if x.block < y.block {
      InstsAre(f.blocks[region[x.block]]);
      assert region[..x.block + 1][..x.block] == region[..x.block];
      RegionInstsUp(f, region, x.block + 1, y.block);
    }
  }

  lemma DefsOrdered(f: Func, region: seq<Label>, v: Value, w: Value, x: Place, y: Place)
    requires (forall l <- region :: l in f.blocks) && DefinedAt(f, region, v, x) && DefinedAt(f, region, w, y)
    ensures x == y || Earlier(x, y) || DefRank(f, region, y) < DefRank(f, region, x)
  {
    hide IdAt, DefRank;
    if Earlier(y, x) { DefRankUp(f, region, w, v, y, x); }
  }

  lemma FirstDefined(f: Func, region: seq<Label>, v: Value, w: Value)
    requires (forall l <- region :: l in f.blocks) && v != w
    ensures FirstOf(AsValues(RegionInsts(f, region)), v, w) <==> DefinedFirst(f, region, v, w)
  {
    hide DefinedAt, RegionInsts, DefRank, Earlier;
    var us := AsValues(RegionInsts(f, region));
    if FirstOf(us, v, w) {
      var a :| 0 <= a < |us| && us[a] == v && w !in us[..a];
      var x := DefRankOnto(f, region, a);
      forall k | 0 <= k < a ensures us[k] != w { assert us[..a][k] == us[k]; }
      forall y | DefinedAt(f, region, w, y) ensures Earlier(x, y) {
        DefRankAt(f, region, w, y);
        BlockOf(f, region, w, y);
        assert us[DefRank(f, region, y)] == w;
        DefsOrdered(f, region, v, w, x, y);
      }
    }
    if DefinedFirst(f, region, v, w) {
      var x :| DefinedAt(f, region, v, x) && forall y :: DefinedAt(f, region, w, y) ==> Earlier(x, y);
      DefRankAt(f, region, v, x);
      BlockOf(f, region, v, x);
      var a := DefRank(f, region, x);
      forall c | 0 <= c < a ensures us[..a][c] != w {
        var y := DefRankOnto(f, region, c);
        assert us[..a][c] == us[c];
        if us[c] == w { DefRankUp(f, region, v, w, x, y); }
      }
      assert us[a] == v && w !in us[..a];
    }
  }

  lemma BlockOf(f: Func, region: seq<Label>, v: Value, x: Place)
    requires DefinedAt(f, region, v, x)
    ensures x.block < |region|
  {
  }

  // One output stands before another exactly when the region defines it first.
  lemma OutputsInOrder(f: Func, region: seq<Label>, i: nat, j: nat)
    requires (forall l <- region :: l in f.blocks) && i < |OutputsOf(f, region)| && j < |OutputsOf(f, region)| && i != j
    ensures i < j <==> DefinedFirst(f, region, OutputsOf(f, region)[i], OutputsOf(f, region)[j])
  {
    hide DefinedFirst, FirstOf, RegionInsts, UsedOutside;
    var vs := OutputsOf(f, region);
    AddOutputsIs(f, region, [], RegionInsts(f, region));
    assert vs[i] in vs && vs[j] in vs && vs[i] != vs[j];
    AddedOutputsInOrder(f, region, RegionInsts(f, region), vs[i], vs[j]);
    FirstIsBefore(vs, i, j);
    FirstDefined(f, region, vs[i], vs[j]);
  }
}
