/** The SSA form the passes rewrite, and what it means to run it.

    A run is a sequence of instruction-sized steps.  Taking an edge evaluates all the phis
    of the destination at once, in the state at the end of the predecessor. */
module Ssa {
  import opened Collections

  type Label = nat
  type Id = nat

  // Constants stand for literals and globals.  Arguments and instructions are named apart
  // across the whole module, so an `Arg` of one function never names an `Arg` of another.
  datatype Value = Const(w: int) | Arg(arg: Id) | Inst(id: Id)

  // What an instruction does with the values of its operands; `f` is the meaning of any
  // opcode that neither touches memory nor allocates.
  datatype Code = Compute(f: seq<int> -> int) | Load | Store | Alloca

  datatype Instr = Instr(id: Id, code: Code, ops: seq<Value>)
  datatype Incoming = Incoming(from: Label, val: Value)
  datatype Phi = Phi(id: Id, inc: seq<Incoming>)

  // No destination: a return.  One destination and no operand: an unconditional branch.
  // Otherwise a conditional branch or a switch.
  datatype Term = Term(id: Id, ops: seq<Value>, dests: seq<Label>)
  datatype Block = Block(phis: seq<Phi>, body: seq<Instr>, term: Term)
  datatype Func = Func(entry: Label, params: seq<Id>, blocks: map<Label, Block>)

  predicate IsUnconditional(t: Term) { t.ops == [] && |t.dests| == 1 }

  // ---------- running ----------

  datatype State = State(args: map<Id, int>, env: map<Id, int>, mem: map<int, int>)
  datatype Event =
    | Computed(id: Id, val: int)
    | Read(id: Id, addr: int, val: int)
    | Wrote(id: Id, addr: int, val: int)
    | Went(id: Id, which: nat)
  datatype Config = At(blk: Label, pos: nat, st: State) | Halt(st: State)

  function Look<K>(m: map<K, int>, k: K): int { if k in m then m[k] else 0 }

  function Eval(v: Value, st: State): int {
    match v
    case Const(w) => w
    case Arg(a) => Look(st.args, a)
    case Inst(i) => Look(st.env, i)
  }

  function EvalAll(vs: seq<Value>, st: State): seq<int> {
    seq(|vs|, k requires 0 <= k < |vs| => Eval(vs[k], st))
  }

  function Nth(xs: seq<int>, k: nat): int { if k < |xs| then xs[k] else 0 }

  function Exec(i: Instr, st: State): (State, Event) {
    var vals := EvalAll(i.ops, st);
    match i.code
    case Compute(f) =>
      var r := f(vals);
      (st.(env := st.env[i.id := r]), Computed(i.id, r))
    case Load =>
      var r := Look(st.mem, Nth(vals, 0));
      (st.(env := st.env[i.id := r]), Read(i.id, Nth(vals, 0), r))
    case Store =>
      (st.(mem := st.mem[Nth(vals, 0) := Nth(vals, 1)]), Wrote(i.id, Nth(vals, 0), Nth(vals, 1)))
    case Alloca =>
      // every alloca owns one frame slot
      var r := -1 - i.id;
      (st.(env := st.env[i.id := r]), Computed(i.id, r))
  }

  function Pick(inc: seq<Incoming>, from: Label): Value {
    if inc == [] then Const(0)
    else if inc[0].from == from then inc[0].val
    else Pick(inc[1..], from)
  }

  function PhiValues(phis: seq<Phi>, from: Label, st: State): map<Id, int> {
    if phis == [] then map[]
    else PhiValues(phis[1..], from, st)[phis[0].id := Eval(Pick(phis[0].inc, from), st)]
  }

  function Enter(phis: seq<Phi>, from: Label, st: State): State {
    st.(env := st.env + PhiValues(phis, from, st))
  }

  function PhiIds(phis: seq<Phi>): seq<Id> { seq(|phis|, k requires 0 <= k < |phis| => phis[k].id) }

  lemma {:induction false} PhiValuesKeys(phis: seq<Phi>, from: Label, st: State, i: Id)
    ensures i in PhiValues(phis, from, st) <==> i in PhiIds(phis)
  {
    if phis != [] {
      PhiValuesKeys(phis[1..], from, st, i);
      assert PhiIds(phis) == [phis[0].id] + PhiIds(phis[1..]);
    }
  }

  lemma {:induction false} PhiValuesAt(phis: seq<Phi>, from: Label, st: State, k: nat)
    requires k < |phis| && forall j :: 0 <= j < k ==> phis[j].id != phis[k].id
    ensures phis[k].id in PhiValues(phis, from, st)
    ensures PhiValues(phis, from, st)[phis[k].id] == Eval(Pick(phis[k].inc, from), st)
  {
    if k > 0 { PhiValuesAt(phis[1..], from, st, k - 1); }
  }

  // With one phi per id, every phi gets its value and nothing else changes.
  lemma EnterAt(phis: seq<Phi>, from: Label, st: State)
    requires Distinct(PhiIds(phis))
    ensures forall k :: 0 <= k < |phis| ==> Look(Enter(phis, from, st).env, phis[k].id) == Eval(Pick(phis[k].inc, from), st)
    ensures forall i :: i !in PhiIds(phis) ==> Look(Enter(phis, from, st).env, i) == Look(st.env, i)
  {
    forall k | 0 <= k < |phis|
      ensures Look(Enter(phis, from, st).env, phis[k].id) == Eval(Pick(phis[k].inc, from), st)
    {
      forall j | 0 <= j < k ensures phis[j].id != phis[k].id {
        assert PhiIds(phis)[j] != PhiIds(phis)[k];
      }
      PhiValuesAt(phis, from, st, k);
    }
    forall i | i !in PhiIds(phis) ensures Look(Enter(phis, from, st).env, i) == Look(st.env, i) {
      PhiValuesKeys(phis, from, st, i);
    }
  }

  // The first operand selects the successor; anything out of range selects the first one.
  function Choice(t: Term, st: State): nat
    requires t.dests != []
    ensures Choice(t, st) < |t.dests|
  {
    if t.ops != [] && 0 <= Eval(t.ops[0], st) < |t.dests| then Eval(t.ops[0], st) else 0
  }

  function Goto(f: Func, from: Label, to: Label, st: State): Config {
    if to in f.blocks then At(to, 0, Enter(f.blocks[to].phis, from, st)) else Halt(st)
  }

  function Step(f: Func, c: Config): (Config, seq<Event>) {
    if c.Halt? || c.blk !in f.blocks then (Halt(c.st), [])
    else
      var b := f.blocks[c.blk];
      if c.pos < |b.body| then
        var (st, e) := Exec(b.body[c.pos], c.st);
        (At(c.blk, c.pos + 1, st), [e])
      else if b.term.dests == [] then (Halt(c.st), [])
      else
        var w := Choice(b.term, c.st);
        (Goto(f, c.blk, b.term.dests[w], c.st), [Went(b.term.id, w)])
  }

  lemma StepBody(f: Func, l: Label, p: nat, st: State)
    requires l in f.blocks && p < |f.blocks[l].body|
    ensures Step(f, At(l, p, st)) == (At(l, p + 1, Exec(f.blocks[l].body[p], st).0), [Exec(f.blocks[l].body[p], st).1])
  {
  }

  function Run(f: Func, c: Config, n: nat): (Config, seq<Event>) {
    if n == 0 then (c, [])
    else
      var (d, t) := Run(f, c, n - 1);
      var (d', e) := Step(f, d);
      (d', t + e)
  }

  // A call: nothing of the function has been computed yet.
  function Start(f: Func, st: State): Config { At(f.entry, 0, st.(env := map[])) }

  lemma {:induction false} RunAdd(f: Func, c: Config, m: nat, n: nat)
    ensures Run(f, c, m + n).0 == Run(f, Run(f, c, m).0, n).0
    ensures Run(f, c, m + n).1 == Run(f, c, m).1 + Run(f, Run(f, c, m).0, n).1
  {
    hide Step;
    if n != 0 {
      RunAdd(f, c, m, n - 1);
      var mid := Run(f, c, m);
      var pen := Run(f, mid.0, n - 1);
      assert Run(f, c, m + n - 1) == (pen.0, mid.1 + pen.1) by { assert m + n - 1 == m + (n - 1); }
      assert Run(f, mid.0, n).1 == pen.1 + Step(f, pen.0).1;
    }
  }

  // ---------- same runs up to hidden instructions ----------

  function Erase(t: seq<Event>, hidden: set<Id>): seq<Event> {
    if t == [] then []
    else (if t[0].id in hidden then [] else [t[0]]) + Erase(t[1..], hidden)
  }

  lemma {:induction false} EraseConcat(a: seq<Event>, b: seq<Event>, hidden: set<Id>)
    ensures Erase(a + b, hidden) == Erase(a, hidden) + Erase(b, hidden)
  {
    if a == [] {
      assert a + b == b;
    } else {
      assert (a + b)[1..] == a[1..] + b;
      EraseConcat(a[1..], b, hidden);
    }
  }

  lemma {:induction false} EraseTwice(t: seq<Event>, h1: set<Id>, h2: set<Id>)
    ensures Erase(Erase(t, h2), h1) == Erase(t, h1 + h2)
  {
    if t != [] {
      EraseTwice(t[1..], h1, h2);
      var rest := Erase(t[1..], h2);
      EraseConcat(if t[0].id in h2 then [] else [t[0]], rest, h1);
    }
  }

  // n steps of f and m steps of g from the same start show an observer the same thing:
  // the events that are not hidden, the memory, and whether the function has returned.
  ghost predicate SameSoFar(f: Func, g: Func, hidden: set<Id>, st: State, n: nat, m: nat) {
    var (c, t) := Run(f, Start(f, st), n);
    var (d, u) := Run(g, Start(g, st), m);
    t == Erase(u, hidden) && c.st.mem == d.st.mem && (c.Halt? <==> d.Halt?)
  }

  ghost predicate Kept(f: Func, g: Func, hidden: set<Id>, st: State, n: nat) {
    exists m: nat :: n <= m && SameSoFar(f, g, hidden, st, n, m)
  }

  ghost predicate Genuine(f: Func, g: Func, hidden: set<Id>, st: State, m: nat) {
    exists n: nat :: n <= m && SameSoFar(f, g, hidden, st, n, m)
  }

  // Every run of f, of any length, is kept by g, and every run of g is a genuine run of f.
  ghost predicate SameRuns(f: Func, g: Func, hidden: set<Id>) {
    && (forall st, n: nat :: Kept(f, g, hidden, st, n))
    && (forall st, m: nat :: Genuine(f, g, hidden, st, m))
  }

  lemma {:induction false} EraseNothing(t: seq<Event>)
    ensures Erase(t, {}) == t
  {
    if t != [] { EraseNothing(t[1..]); }
  }

  lemma SameRunsReflexive(f: Func)
    ensures SameRuns(f, f, {})
  {
    forall st, n: nat ensures Kept(f, f, {}, st, n) && Genuine(f, f, {}, st, n) {
      EraseNothing(Run(f, Start(f, st), n).1);
      assert SameSoFar(f, f, {}, st, n, n);
    }
  }

  lemma SameSoFarTransitive(f: Func, g: Func, k: Func, h1: set<Id>, h2: set<Id>, st: State, n: nat, m: nat, p: nat)
    requires SameSoFar(f, g, h1, st, n, m) && SameSoFar(g, k, h2, st, m, p)
    ensures SameSoFar(f, k, h1 + h2, st, n, p)
  {
    EraseTwice(Run(k, Start(k, st), p).1, h1, h2);
  }

  lemma SameRunsTransitive(f: Func, g: Func, k: Func, h1: set<Id>, h2: set<Id>)
    requires SameRuns(f, g, h1) && SameRuns(g, k, h2)
    ensures SameRuns(f, k, h1 + h2)
  {
    forall st, n: nat ensures Kept(f, k, h1 + h2, st, n) {
      assert Kept(f, g, h1, st, n);
      var m: nat :| n <= m && SameSoFar(f, g, h1, st, n, m);
      assert Kept(g, k, h2, st, m);
      var p: nat :| m <= p && SameSoFar(g, k, h2, st, m, p);
      SameSoFarTransitive(f, g, k, h1, h2, st, n, m, p);
    }
    forall st, p: nat ensures Genuine(f, k, h1 + h2, st, p) {
      assert Genuine(g, k, h2, st, p);
      var m: nat :| m <= p && SameSoFar(g, k, h2, st, m, p);
      assert Genuine(f, g, h1, st, m);
      var n: nat :| n <= m && SameSoFar(f, g, h1, st, n, m);
      SameSoFarTransitive(f, g, k, h1, h2, st, n, m, p);
    }
  }

  // ---------- proving runs the same ----------

  // One step of g either matches one step of f or is hidden; hidden steps use up `slack`.
  ghost predicate StepMatches(f: Func, g: Func, hidden: set<Id>,
                              rel: (Config, Config) -> bool, slack: Config -> nat, c: Config, d: Config)
  {
    var (c1, e) := Step(f, c);
    var (d1, u) := Step(g, d);
    && c.st.mem == d.st.mem
    && (c.Halt? <==> d.Halt?)
    && ((Erase(u, hidden) == e && rel(c1, d1)) || (Erase(u, hidden) == [] && rel(c, d1) && slack(d1) < slack(d)))
  }

  ghost predicate Simulates(f: Func, g: Func, hidden: set<Id>,
                            rel: (Config, Config) -> bool, slack: Config -> nat)
  {
    forall c, d :: rel(c, d) ==> StepMatches(f, g, hidden, rel, slack, c, d)
  }

  lemma {:induction false} NextMatch(f: Func, g: Func, hidden: set<Id>,
                                     rel: (Config, Config) -> bool, slack: Config -> nat, c: Config, d: Config)
    returns (m: nat)
    requires Simulates(f, g, hidden, rel, slack) && rel(c, d)
    ensures m >= 1 && rel(Step(f, c).0, Run(g, d, m).0) && Erase(Run(g, d, m).1, hidden) == Step(f, c).1
    decreases slack(d)
  {
    hide Step;
    assert StepMatches(f, g, hidden, rel, slack, c, d);
    var (d1, u) := Step(g, d);
    assert Run(g, d, 0) == (d, []);
    assert Run(g, d, 1) == (d1, [] + u) && [] + u == u;
    if Erase(u, hidden) == Step(f, c).1 && rel(Step(f, c).0, d1) {
      m := 1;
    } else {
      var k := NextMatch(f, g, hidden, rel, slack, c, d1);
      m := 1 + k;
      RunAdd(g, d, 1, k);
      EraseConcat(u, Run(g, d1, k).1, hidden);
    }
  }

  lemma {:induction false} Forward(f: Func, g: Func, hidden: set<Id>,
                                   rel: (Config, Config) -> bool, slack: Config -> nat, c: Config, d: Config, n: nat)
    returns (m: nat)
    requires Simulates(f, g, hidden, rel, slack) && rel(c, d)
    ensures n <= m && rel(Run(f, c, n).0, Run(g, d, m).0)
    ensures Erase(Run(g, d, m).1, hidden) == Run(f, c, n).1
  {
    hide Step;
    if n == 0 {
      m := 0;
    } else {
      var k := Forward(f, g, hidden, rel, slack, c, d, n - 1);
      var d1 := Run(g, d, k).0;
      var j := NextMatch(f, g, hidden, rel, slack, Run(f, c, n - 1).0, d1);
      m := k + j;
      RunAdd(g, d, k, j);
      EraseConcat(Run(g, d, k).1, Run(g, d1, j).1, hidden);
    }
  }

  lemma {:induction false} Backward(f: Func, g: Func, hidden: set<Id>,
                                    rel: (Config, Config) -> bool, slack: Config -> nat, c: Config, d: Config, m: nat)
    returns (n: nat)
    requires Simulates(f, g, hidden, rel, slack) && rel(c, d)
    ensures n <= m && rel(Run(f, c, n).0, Run(g, d, m).0)
    ensures Erase(Run(g, d, m).1, hidden) == Run(f, c, n).1
  {
    hide Step;
    if m == 0 {
      n := 0;
    } else {
      n := Backward(f, g, hidden, rel, slack, c, d, m - 1);
      var (c0, d0) := (Run(f, c, n).0, Run(g, d, m - 1).0);
      assert StepMatches(f, g, hidden, rel, slack, c0, d0);
      EraseConcat(Run(g, d, m - 1).1, Step(g, d0).1, hidden);
      if Erase(Step(g, d0).1, hidden) == Step(f, c0).1 && rel(Step(f, c0).0, Step(g, d0).0) {
        n := n + 1;
      }
    }
  }

  lemma SimulationGivesSameRuns(f: Func, g: Func, hidden: set<Id>,
                                rel: (Config, Config) -> bool, slack: Config -> nat)
    requires Simulates(f, g, hidden, rel, slack)
    requires forall st :: rel(Start(f, st), Start(g, st))
    ensures SameRuns(f, g, hidden)
  {
    forall st, n: nat ensures Kept(f, g, hidden, st, n) {
      var m := Forward(f, g, hidden, rel, slack, Start(f, st), Start(g, st), n);
      assert StepMatches(f, g, hidden, rel, slack, Run(f, Start(f, st), n).0, Run(g, Start(g, st), m).0);
      assert SameSoFar(f, g, hidden, st, n, m);
    }
    forall st, m: nat ensures Genuine(f, g, hidden, st, m) {
      var n := Backward(f, g, hidden, rel, slack, Start(f, st), Start(g, st), m);
      assert StepMatches(f, g, hidden, rel, slack, Run(f, Start(f, st), n).0, Run(g, Start(g, st), m).0);
      assert SameSoFar(f, g, hidden, st, n, m);
    }
  }
}
