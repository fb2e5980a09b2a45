/** What a region takes in and gives out, and the pairing of loop-carried inputs with the
    outputs that feed them. */
module InputsOutputs {
  import opened Collections
  import opened Ssa
  import opened Partition
  import opened Clone

  // ---------- definedInRegion, definedInCaller ----------

  predicate DefinedInRegion(f: Func, region: seq<Label>, v: Value) {
    v.Inst? && exists l <- region :: l in f.blocks && v.id in Insts(f.blocks[l])
  }

  predicate DefinedInCaller(f: Func, region: seq<Label>, v: Value) { v.Arg? || (v.Inst? && !DefinedInRegion(f, region, v)) }

  lemma DefinedAgrees(f: Func, region: seq<Label>, v: Value)
    ensures DefinedInRegion(f, region, v) <==> Defined(f, region, v)
  {
    if DefinedInRegion(f, region, v) {
      var l :| l in region && l in f.blocks && v.id in Insts(f.blocks[l]);
    }
  }

  // ---------- collecting them ----------

  // SetVector::insert.
  function Insert(xs: seq<Value>, x: Value): seq<Value> { if x in xs then xs else xs + [x] }

  // An instruction and its operands.
  datatype User = User(id: Id, ops: seq<Value>)

  function PhiUsers(phis: seq<Phi>): (r: seq<User>)
    ensures |r| == |phis|
  {
    seq(|phis|, k requires 0 <= k < |phis| => User(phis[k].id, IncUses(phis[k].inc)))
  }

  function BodyUsers(body: seq<Instr>): (r: seq<User>)
    ensures |r| == |body|
  {
    seq(|body|, k requires 0 <= k < |body| => User(body[k].id, body[k].ops))
  }

  function Users(b: Block): seq<User> { PhiUsers(b.phis) + BodyUsers(b.body) + [User(b.term.id, b.term.ops)] }

  function AddInputs(f: Func, region: seq<Label>, acc: seq<Value>, vs: seq<Value>): seq<Value> {
    if vs == [] then acc
    else
      var prior := AddInputs(f, region, acc, vs[..|vs| - 1]);
      if DefinedInCaller(f, region, vs[|vs| - 1]) then Insert(prior, vs[|vs| - 1]) else prior
  }

  predicate UsedOutside(f: Func, region: seq<Label>, v: Value) { exists l <- f.blocks :: l !in region && v in Uses(f.blocks[l]) }

  function AddOutputs(f: Func, region: seq<Label>, acc: seq<Value>, xs: seq<Id>): seq<Value> {
    if xs == [] then acc
    else
      var prior := AddOutputs(f, region, acc, xs[..|xs| - 1]);
      if UsedOutside(f, region, Inst(xs[|xs| - 1])) then Insert(prior, Inst(xs[|xs| - 1])) else prior
  }

  function RegionUses(f: Func, region: seq<Label>): seq<Value>
    requires forall l <- region :: l in f.blocks
  {
    if region == [] then [] else RegionUses(f, region[..|region| - 1]) + Uses(f.blocks[region[|region| - 1]])
  }

  function RegionInsts(f: Func, region: seq<Label>): seq<Id>
    requires forall l <- region :: l in f.blocks
  {
    if region == [] then [] else RegionInsts(f, region[..|region| - 1]) + Insts(f.blocks[region[|region| - 1]])
  }

  function InputsOf(f: Func, region: seq<Label>): seq<Value>
    requires forall l <- region :: l in f.blocks
  {
    AddInputs(f, region, [], RegionUses(f, region))
  }

  function OutputsOf(f: Func, region: seq<Label>): seq<Value>
    requires forall l <- region :: l in f.blocks
  {
    AddOutputs(f, region, [], RegionInsts(f, region))
  }

  lemma {:induction false} AddInputsConcat(f: Func, region: seq<Label>, acc: seq<Value>, a: seq<Value>, b: seq<Value>)
    ensures AddInputs(f, region, acc, a + b) == AddInputs(f, region, AddInputs(f, region, acc, a), b)
  {
    hide DefinedInCaller;
    if b == [] {
      assert a + b == a;
    } else {
      assert (a + b)[..|a + b| - 1] == a + b[..|b| - 1];
      AddInputsConcat(f, region, acc, a, b[..|b| - 1]);
    }
  }

  lemma {:induction false} AddOutputsConcat(f: Func, region: seq<Label>, acc: seq<Value>, a: seq<Id>, b: seq<Id>)
    ensures AddOutputs(f, region, acc, a + b) == AddOutputs(f, region, AddOutputs(f, region, acc, a), b)
  {
    hide UsedOutside;
    if b == [] {
      assert a + b == a;
    } else {
      assert (a + b)[..|a + b| - 1] == a + b[..|b| - 1];
      AddOutputsConcat(f, region, acc, a, b[..|b| - 1]);
    }
  }

  // The users of a block, in order, name its instructions and use its operands.
  function OpsOf(us: seq<User>): seq<Value> { if us == [] then [] else OpsOf(us[..|us| - 1]) + us[|us| - 1].ops }

  function IdsOf(us: seq<User>): seq<Id> { seq(|us|, k requires 0 <= k < |us| => us[k].id) }

  lemma {:induction false} OpsConcat(a: seq<User>, b: seq<User>)
    ensures OpsOf(a + b) == OpsOf(a) + OpsOf(b)
  {
    if b == [] {
      assert a + b == a;
    } else {
      assert (a + b)[..|a + b| - 1] == a + b[..|b| - 1];
      OpsConcat(a, b[..|b| - 1]);
    }
  }

  lemma {:induction false} PhiOps(phis: seq<Phi>)
    ensures OpsOf(PhiUsers(phis)) == PhiUses(phis)
  {
    if phis != [] {
      var us := PhiUsers(phis);
      PhiOps(phis[1..]);
      assert us == [us[0]] + PhiUsers(phis[1..]);
      OpsConcat([us[0]], PhiUsers(phis[1..]));
      OneOps(us[0]);
    }
  }

  lemma {:induction false} BodyOps(body: seq<Instr>)
    ensures OpsOf(BodyUsers(body)) == BodyUses(body)
  {
    if body != [] {
      var us := BodyUsers(body);
      BodyOps(body[1..]);
      assert us == [us[0]] + BodyUsers(body[1..]);
      OpsConcat([us[0]], BodyUsers(body[1..]));
      OneOps(us[0]);
    }
  }

  lemma OneOps(u: User)
    ensures OpsOf([u]) == u.ops
  {
    assert [u][..0] == [];
  }

  lemma UsersOf(b: Block)
    ensures OpsOf(Users(b)) == Uses(b) && IdsOf(Users(b)) == Insts(b)
  {
    var (p, x, t) := (PhiUsers(b.phis), BodyUsers(b.body), [User(b.term.id, b.term.ops)]);
    PhiOps(b.phis);
    BodyOps(b.body);
    OneOps(t[0]);
    OpsConcat(p + x, t);
    OpsConcat(p, x);
  }

  // One block's instructions: their operands may be inputs, they may themselves be outputs.
  method ScanBlock(f: Func, region: seq<Label>, b: Block, inputs0: seq<Value>, outputs0: seq<Value>)
    returns (inputs: seq<Value>, outputs: seq<Value>)
    ensures inputs == AddInputs(f, region, inputs0, Uses(b)) && outputs == AddOutputs(f, region, outputs0, Insts(b))
  {
    hide DefinedInCaller, UsedOutside, Uses, Insts, Users;
    inputs, outputs := inputs0, outputs0;
    var us := Users(b);
    var n := 0;
    while n < |us|
      invariant n <= |us|
      invariant inputs == AddInputs(f, region, inputs0, OpsOf(us[..n]))
      invariant outputs == AddOutputs(f, region, outputs0, IdsOf(us[..n]))
    {
      assert us[..n + 1][..n] == us[..n];
      var ops := us[n].ops;
      ghost var prior := inputs;
      var k := 0;
      while k < |ops|
        invariant k <= |ops| && inputs == AddInputs(f, region, prior, ops[..k])
      {
        assert ops[..k + 1][..k] == ops[..k];
        if DefinedInCaller(f, region, ops[k]) {
          inputs := Insert(inputs, ops[k]);
        }
        k := k + 1;
      }
      assert ops[..k] == ops;
      AddInputsConcat(f, region, inputs0, OpsOf(us[..n]), ops);
      assert IdsOf(us[..n + 1]) == IdsOf(us[..n]) + [us[n].id];
      assert IdsOf(us[..n + 1])[..n] == IdsOf(us[..n]);
      if UsedOutside(f, region, Inst(us[n].id)) {
        outputs := Insert(outputs, Inst(us[n].id));
      }
      n := n + 1;
    }
    assert us[..n] == us;
    UsersOf(b);
  }

  method FindInputsOutputs(f: Func, region: seq<Label>) returns (inputs: seq<Value>, outputs: seq<Value>)
    requires forall l <- region :: l in f.blocks
    ensures inputs == InputsOf(f, region) && outputs == OutputsOf(f, region)
  {
    hide DefinedInCaller, UsedOutside, Uses, Insts;
    inputs, outputs := [], [];
    var n := 0;
    while n < |region|
      invariant n <= |region|
      invariant inputs == AddInputs(f, region, [], RegionUses(f, region[..n]))
      invariant outputs == AddOutputs(f, region, [], RegionInsts(f, region[..n]))
    {
      assert region[..n + 1][..n] == region[..n];
      var b := f.blocks[region[n]];
      AddInputsConcat(f, region, [], RegionUses(f, region[..n]), Uses(b));
      AddOutputsConcat(f, region, [], RegionInsts(f, region[..n]), Insts(b));
      inputs, outputs := ScanBlock(f, region, b, inputs, outputs);
      n := n + 1;
    }
    assert region[..n] == region;
  }

  // ---------- what was collected ----------

  lemma {:induction false} AddInputsIs(f: Func, region: seq<Label>, acc: seq<Value>, vs: seq<Value>)
    requires Distinct(acc)
    ensures Distinct(AddInputs(f, region, acc, vs))
    ensures forall v :: v in AddInputs(f, region, acc, vs) <==> v in acc || (v in vs && DefinedInCaller(f, region, v))
  {
    hide DefinedInCaller;
    if vs != [] {
      AddInputsIs(f, region, acc, vs[..|vs| - 1]);
      assert vs == vs[..|vs| - 1] + [vs[|vs| - 1]];
    }
  }

  lemma {:induction false} AddOutputsIs(f: Func, region: seq<Label>, acc: seq<Value>, xs: seq<Id>)
    requires Distinct(acc)
    ensures Distinct(AddOutputs(f, region, acc, xs))
    ensures forall v :: v in AddOutputs(f, region, acc, xs) <==> v in acc || (v.Inst? && v.id in xs && UsedOutside(f, region, v))
  {
    hide UsedOutside;
    if xs != [] {
      AddOutputsIs(f, region, acc, xs[..|xs| - 1]);
      assert xs == xs[..|xs| - 1] + [xs[|xs| - 1]];
    }
  }

  lemma {:induction false} RegionUsesHas(f: Func, region: seq<Label>, v: Value)
    requires forall l <- region :: l in f.blocks
    ensures v in RegionUses(f, region) <==> exists l <- region :: v in Uses(f.blocks[l])
  {
    hide Uses;
    if region != [] {
      RegionUsesHas(f, region[..|region| - 1], v);
      assert region == region[..|region| - 1] + [region[|region| - 1]];
    }
  }

  lemma {:induction false} RegionInstsHas(f: Func, region: seq<Label>, i: Id)
    requires forall l <- region :: l in f.blocks
    ensures i in RegionInsts(f, region) <==> exists l <- region :: i in Insts(f.blocks[l])
  {
    hide Insts;
    if region != [] {
      RegionInstsHas(f, region[..|region| - 1], i);
      assert region == region[..|region| - 1] + [region[|region| - 1]];
    }
  }

  // Inputs: exactly what the region uses and the caller defines, once each.
  lemma InputsAre(f: Func, region: seq<Label>)
    requires forall l <- region :: l in f.blocks
    ensures Distinct(InputsOf(f, region))
    ensures forall v :: v in InputsOf(f, region) <==>
              (v.Arg? || (v.Inst? && !Defined(f, region, v))) && exists l <- region :: v in Uses(f.blocks[l])
  {
    hide Uses, Defined, DefinedInRegion;
    AddInputsIs(f, region, [], RegionUses(f, region));
    forall v ensures v in InputsOf(f, region) <==>
              (v.Arg? || (v.Inst? && !Defined(f, region, v))) && exists l <- region :: v in Uses(f.blocks[l])
    {
      RegionUsesHas(f, region, v);
      DefinedAgrees(f, region, v);
    }
  }

  // Outputs: exactly what the region defines and the rest of the function uses, once each.
  lemma OutputsAre(f: Func, region: seq<Label>)
    requires forall l <- region :: l in f.blocks
    ensures Distinct(OutputsOf(f, region))
    ensures forall v :: v in OutputsOf(f, region) <==>
              Defined(f, region, v) && exists l <- f.blocks :: l !in region && v in Uses(f.blocks[l])
  {
    hide Uses, Insts, RegionInsts;
    AddOutputsIs(f, region, [], RegionInsts(f, region));
    forall v ensures v in OutputsOf(f, region) <==>
              Defined(f, region, v) && exists l <- f.blocks :: l !in region && v in Uses(f.blocks[l])
    {
      if v.Inst? { RegionInstsHas(f, region, v.id); }
      DefinedAgrees(f, region, v);
    }
  }
}
