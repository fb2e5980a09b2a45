/** Replacing uses of values: one use map applied to every operand at once, and the fact that
    replacing one value after another amounts to that. */
module Rewrite {
  import opened Ssa

  type Subst = map<Value, Value>

  function SubstV(s: Subst, v: Value): Value { if v in s then s[v] else v }

  function SubstVs(s: Subst, vs: seq<Value>): (r: seq<Value>)
    ensures |r| == |vs|
  {
    seq(|vs|, k requires 0 <= k < |vs| => SubstV(s, vs[k]))
  }

  function SubstInc(s: Subst, inc: seq<Incoming>): (r: seq<Incoming>)
    ensures |r| == |inc|
  {
    seq(|inc|, k requires 0 <= k < |inc| => Incoming(inc[k].from, SubstV(s, inc[k].val)))
  }

  function SubstPhi(s: Subst, p: Phi): Phi { Phi(p.id, SubstInc(s, p.inc)) }

  function SubstPhis(s: Subst, phis: seq<Phi>): (r: seq<Phi>)
    ensures |r| == |phis|
  {
    seq(|phis|, k requires 0 <= k < |phis| => SubstPhi(s, phis[k]))
  }

  function SubstInstr(s: Subst, i: Instr): Instr { Instr(i.id, i.code, SubstVs(s, i.ops)) }

  function SubstBody(s: Subst, body: seq<Instr>): (r: seq<Instr>)
    ensures |r| == |body|
  {
    seq(|body|, k requires 0 <= k < |body| => SubstInstr(s, body[k]))
  }

  function SubstTerm(s: Subst, t: Term): Term { Term(t.id, SubstVs(s, t.ops), t.dests) }

  function SubstBlock(s: Subst, b: Block): Block {
    Block(SubstPhis(s, b.phis), SubstBody(s, b.body), SubstTerm(s, b.term))
  }

  // Value::replaceAllUsesWith when s is a single pair.
  function SubstFunc(s: Subst, f: Func): Func {
    Func(f.entry, f.params, map l | l in f.blocks :: SubstBlock(s, f.blocks[l]))
  }

  // ---------- one after another ----------

  // None of the replacements is itself replaced when `a` is.
  predicate Clear(s: Subst, a: Value) { a !in s && forall v <- s :: s[v] != a }

  lemma SubstVTwice(s: Subst, a: Value, b: Value, v: Value)
    requires Clear(s, a)
    ensures SubstV(map[a := b], SubstV(s, v)) == SubstV(s[a := b], v)
  {
  }

  lemma SubstVsTwice(s: Subst, a: Value, b: Value, vs: seq<Value>)
    requires Clear(s, a)
    ensures SubstVs(map[a := b], SubstVs(s, vs)) == SubstVs(s[a := b], vs)
  {
    forall k | 0 <= k < |vs| ensures SubstVs(map[a := b], SubstVs(s, vs))[k] == SubstVs(s[a := b], vs)[k] {
      SubstVTwice(s, a, b, vs[k]);
    }
  }

  lemma SubstIncTwice(s: Subst, a: Value, b: Value, inc: seq<Incoming>)
    requires Clear(s, a)
    ensures SubstInc(map[a := b], SubstInc(s, inc)) == SubstInc(s[a := b], inc)
  {
    forall k | 0 <= k < |inc| ensures SubstInc(map[a := b], SubstInc(s, inc))[k] == SubstInc(s[a := b], inc)[k] {
      SubstVTwice(s, a, b, inc[k].val);
    }
  }

  lemma SubstPhisTwice(s: Subst, a: Value, b: Value, phis: seq<Phi>)
    requires Clear(s, a)
    ensures SubstPhis(map[a := b], SubstPhis(s, phis)) == SubstPhis(s[a := b], phis)
  {
    forall k | 0 <= k < |phis| ensures SubstPhis(map[a := b], SubstPhis(s, phis))[k] == SubstPhis(s[a := b], phis)[k] {
      SubstIncTwice(s, a, b, phis[k].inc);
    }
  }

  lemma SubstBodyTwice(s: Subst, a: Value, b: Value, body: seq<Instr>)
    requires Clear(s, a)
    ensures SubstBody(map[a := b], SubstBody(s, body)) == SubstBody(s[a := b], body)
  {
    forall k | 0 <= k < |body| ensures SubstBody(map[a := b], SubstBody(s, body))[k] == SubstBody(s[a := b], body)[k] {
      SubstVsTwice(s, a, b, body[k].ops);
    }
  }

  lemma SubstBlockTwice(s: Subst, a: Value, b: Value, bb: Block)
    requires Clear(s, a)
    ensures SubstBlock(map[a := b], SubstBlock(s, bb)) == SubstBlock(s[a := b], bb)
  {
    SubstPhisTwice(s, a, b, bb.phis);
    SubstBodyTwice(s, a, b, bb.body);
    SubstVsTwice(s, a, b, bb.term.ops);
  }

  lemma SubstBlockNothing(bb: Block)
    ensures SubstBlock(map[], bb) == bb
  {
    assert SubstBody(map[], bb.body) == bb.body by {
      forall k | 0 <= k < |bb.body| ensures SubstBody(map[], bb.body)[k] == bb.body[k] {
        assert SubstVs(map[], bb.body[k].ops) == bb.body[k].ops;
      }
    }
    assert SubstPhis(map[], bb.phis) == bb.phis by {
      forall k | 0 <= k < |bb.phis| ensures SubstPhis(map[], bb.phis)[k] == bb.phis[k] {
        assert SubstInc(map[], bb.phis[k].inc) == bb.phis[k].inc;
      }
    }
    assert SubstVs(map[], bb.term.ops) == bb.term.ops;
  }

  // ---------- evaluating what was replaced ----------

  lemma {:induction false} PickSubst(s: Subst, inc: seq<Incoming>, from: Label)
    requires Const(0) !in s
    ensures Pick(SubstInc(s, inc), from) == SubstV(s, Pick(inc, from))
  {
    if inc != [] {
      assert SubstInc(s, inc)[1..] == SubstInc(s, inc[1..]);
      PickSubst(s, inc[1..], from);
    }
  }
}
