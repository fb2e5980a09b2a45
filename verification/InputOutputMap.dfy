/** mapInputsOutputs: which output feeds which input on the next iteration, and which cell the
    two therefore share. */
module InputOutputMap {
  import opened Collections
  import opened Ssa

  // The values a phi takes; only phis are keys.
  type Incomings = map<Value, seq<Value>>

  // std::find: the first position, or the length.
  function Find(xs: seq<Value>, x: Value): (k: nat)
    ensures k <= |xs| && (k < |xs| ==> xs[k] == x) && (k < |xs| <==> x in xs)
    ensures forall j :: 0 <= j < k ==> xs[j] != x
  {
    if xs == [] then 0 else if xs[0] == x then 0 else 1 + Find(xs[1..], x)
  }

  // The last of the values that is an output.
  function LastOutput(vs: seq<Value>, outputs: seq<Value>): Option<Value> {
    if vs == [] then None
    else if vs[|vs| - 1] in outputs then Some(vs[|vs| - 1])
    else LastOutput(vs[..|vs| - 1], outputs)
  }

  // The last of the inputs that takes o.
  function LastTaker(inputs: seq<Value>, incs: Incomings, o: Value): Option<Value> {
    if inputs == [] then None
    else
      var v := inputs[|inputs| - 1];
      if v in incs && o in incs[v] then Some(v) else LastTaker(inputs[..|inputs| - 1], incs, o)
  }

  // The output of an input: itself when it is one, else the last one it takes.
  function OutputFor(v: Value, outputs: seq<Value>, incs: Incomings): Option<Value> {
    if v in outputs then Some(v) else if v in incs then LastOutput(incs[v], outputs) else None
  }

  function InputFor(o: Value, inputs: seq<Value>, incs: Incomings): Option<Value> {
    if o in inputs then Some(o) else LastTaker(inputs, incs, o)
  }

  function IOMap(inputs: seq<Value>, outputs: seq<Value>, incs: Incomings): map<Value, nat> {
    map v | v in inputs && OutputFor(v, outputs, incs).Some? :: Find(outputs, OutputFor(v, outputs, incs).value)
  }

  function OIMap(inputs: seq<Value>, outputs: seq<Value>, incs: Incomings): map<Value, Value> {
    map o | o in outputs && InputFor(o, inputs, incs).Some? :: InputFor(o, inputs, incs).value
  }

  // ---------- the loops ----------

  function PhisIO(inputs: seq<Value>, outputs: seq<Value>, incs: Incomings): map<Value, nat> {
    map v | v in inputs && v in incs && LastOutput(incs[v], outputs).Some? :: Find(outputs, LastOutput(incs[v], outputs).value)
  }

  function PhisOI(inputs: seq<Value>, outputs: seq<Value>, incs: Incomings): map<Value, Value> {
    map o | o in outputs && LastTaker(inputs, incs, o).Some? :: LastTaker(inputs, incs, o).value
  }

  function OutputsTaken(vs: seq<Value>, outputs: seq<Value>): set<Value> { set x | x in vs && x in outputs }

  // After phi v, whose values are vs.
  function PhiIO(io: map<Value, nat>, v: Value, vs: seq<Value>, outputs: seq<Value>): map<Value, nat> {
    if LastOutput(vs, outputs).Some? then io[v := Find(outputs, LastOutput(vs, outputs).value)] else io
  }

  function PhiOI(oi: map<Value, Value>, v: Value, vs: seq<Value>, outputs: seq<Value>): map<Value, Value> {
    map o | o in oi.Keys + OutputsTaken(vs, outputs) :: if o in OutputsTaken(vs, outputs) then v else oi[o]
  }

  lemma PhiMore(io: map<Value, nat>, oi: map<Value, Value>, v: Value, vs: seq<Value>, x: Value, outputs: seq<Value>)
    ensures PhiIO(io, v, vs + [x], outputs) == (if x in outputs then PhiIO(io, v, vs, outputs)[v := Find(outputs, x)] else PhiIO(io, v, vs, outputs))
    ensures PhiOI(oi, v, vs + [x], outputs) == (if x in outputs then PhiOI(oi, v, vs, outputs)[x := v] else PhiOI(oi, v, vs, outputs))
  {
    hide Find, PhiOI, OutputsTaken;
    assert (vs + [x])[..|vs|] == vs;
    PhiOIMore(oi, v, vs, x, outputs);
  }

  lemma PhiOIMore(oi: map<Value, Value>, v: Value, vs: seq<Value>, x: Value, outputs: seq<Value>)
    ensures PhiOI(oi, v, vs + [x], outputs) == (if x in outputs then PhiOI(oi, v, vs, outputs)[x := v] else PhiOI(oi, v, vs, outputs))
  {
    assert OutputsTaken(vs + [x], outputs) == OutputsTaken(vs, outputs) + if x in outputs then {x} else {};
    hide OutputsTaken;
  }

  method MapPhi(v: Value, vs: seq<Value>, outputs: seq<Value>, io0: map<Value, nat>, oi0: map<Value, Value>)
    returns (io: map<Value, nat>, oi: map<Value, Value>)
    ensures io == PhiIO(io0, v, vs, outputs) && oi == PhiOI(oi0, v, vs, outputs)
  {
    io, oi := io0, oi0;
    assert vs[..0] == [] && PhiOI(oi0, v, [], outputs) == oi0;
    hide *;
    var i := 0;
    while i < |vs|
      invariant i <= |vs| && io == PhiIO(io0, v, vs[..i], outputs) && oi == PhiOI(oi0, v, vs[..i], outputs)
    {
      assert vs[..i + 1] == vs[..i] + [vs[i]];
      PhiMore(io0, oi0, v, vs[..i], vs[i], outputs);
      var found := Find(outputs, vs[i]);
      if found != |outputs| {
        io := io[v := found];
        oi := oi[vs[i] := v];
      }
      i := i + 1;
    }
    assert vs[..i] == vs;
  }

  lemma PhisMore(inputs: seq<Value>, v: Value, outputs: seq<Value>, incs: Incomings)
    requires v !in inputs
    ensures PhisIO(inputs + [v], outputs, incs) ==
            if v in incs then PhiIO(PhisIO(inputs, outputs, incs), v, incs[v], outputs) else PhisIO(inputs, outputs, incs)
    ensures PhisOI(inputs + [v], outputs, incs) ==
            if v in incs then PhiOI(PhisOI(inputs, outputs, incs), v, incs[v], outputs) else PhisOI(inputs, outputs, incs)
  {
    hide LastOutput, Find;
    assert (inputs + [v])[..|inputs|] == inputs;
  }

  // After the outputs that are themselves inputs.
  function SelfIO(io: map<Value, nat>, inputs: seq<Value>, outputs: seq<Value>, all: seq<Value>): map<Value, nat> {
    map v | v in io.Keys + OutputsTaken(inputs, outputs) :: if v in OutputsTaken(inputs, outputs) then Find(all, v) else io[v]
  }

  function SelfOI(oi: map<Value, Value>, inputs: seq<Value>, outputs: seq<Value>): map<Value, Value> {
    map o | o in oi.Keys + OutputsTaken(inputs, outputs) :: if o in OutputsTaken(inputs, outputs) then o else oi[o]
  }

  lemma SelfMore(io: map<Value, nat>, oi: map<Value, Value>, inputs: seq<Value>, outputs: seq<Value>, x: Value, all: seq<Value>)
    ensures SelfIO(io, inputs, outputs + [x], all) ==
            if x in inputs then SelfIO(io, inputs, outputs, all)[x := Find(all, x)] else SelfIO(io, inputs, outputs, all)
    ensures SelfOI(oi, inputs, outputs + [x]) == if x in inputs then SelfOI(oi, inputs, outputs)[x := x] else SelfOI(oi, inputs, outputs)
  {
    hide SelfIO, SelfOI, Find;
    SelfIOMore(io, inputs, outputs, x, all);
    SelfOIMore(oi, inputs, outputs, x);
  }

  lemma SelfIOMore(io: map<Value, nat>, inputs: seq<Value>, outputs: seq<Value>, x: Value, all: seq<Value>)
    ensures SelfIO(io, inputs, outputs + [x], all) ==
            if x in inputs then SelfIO(io, inputs, outputs, all)[x := Find(all, x)] else SelfIO(io, inputs, outputs, all)
  {
    hide Find, OutputsTaken;
    TakenMore(inputs, outputs, x);
    var t := OutputsTaken(inputs, outputs);
    assert t + {} == t;
    assert SelfIO(io, inputs, outputs, all) == FoundOver(io, t, all);
    assert SelfIO(io, inputs, outputs + [x], all) == FoundOver(io, t + if x in inputs then {x} else {}, all);
    hide SelfIO;
    FoundMore(io, t, x, all);
  }

  function FoundOver(io: map<Value, nat>, taken: set<Value>, all: seq<Value>): map<Value, nat> {
    map v | v in io.Keys + taken :: if v in taken then Find(all, v) else io[v]
  }

  lemma FoundMore(io: map<Value, nat>, taken: set<Value>, x: Value, all: seq<Value>)
    ensures FoundOver(io, taken + {x}, all) == FoundOver(io, taken, all)[x := Find(all, x)]
  {
    hide Find;
  }

  lemma SelfOIMore(oi: map<Value, Value>, inputs: seq<Value>, outputs: seq<Value>, x: Value)
    ensures SelfOI(oi, inputs, outputs + [x]) == if x in inputs then SelfOI(oi, inputs, outputs)[x := x] else SelfOI(oi, inputs, outputs)
  {
    hide OutputsTaken;
    TakenMore(inputs, outputs, x);
    var (a, b) := (SelfOI(oi, inputs, outputs + [x]), SelfOI(oi, inputs, outputs));
    assert a.Keys == if x in inputs then b.Keys + {x} else b.Keys;
    forall v | v in a ensures a[v] == if x in inputs && v == x then x else b[v] {}
  }

  lemma TakenMore(vs: seq<Value>, outputs: seq<Value>, x: Value)
    ensures OutputsTaken(vs, outputs + [x]) == OutputsTaken(vs, outputs) + if x in vs then {x} else {}
  {
  }

  lemma SelfNone(io: map<Value, nat>, oi: map<Value, Value>, inputs: seq<Value>, all: seq<Value>)
    ensures SelfIO(io, inputs, [], all) == io && SelfOI(oi, inputs, []) == oi
  {
  }

  lemma PhisNone(outputs: seq<Value>, incs: Incomings)
    ensures PhisIO([], outputs, incs) == map[] && PhisOI([], outputs, incs) == map[]
  {
  }

  lemma SelfAll(inputs: seq<Value>, outputs: seq<Value>, incs: Incomings)
    ensures SelfIO(PhisIO(inputs, outputs, incs), inputs, outputs, outputs) == IOMap(inputs, outputs, incs)
    ensures SelfOI(PhisOI(inputs, outputs, incs), inputs, outputs) == OIMap(inputs, outputs, incs)
  {
    hide LastOutput, LastTaker, Find, PhisOI, OIMap, SelfOI;
    SelfAllOI(inputs, outputs, incs);
    var (a, b) := (SelfIO(PhisIO(inputs, outputs, incs), inputs, outputs, outputs), IOMap(inputs, outputs, incs));
    assert a.Keys == b.Keys;
  }

  lemma SelfAllOI(inputs: seq<Value>, outputs: seq<Value>, incs: Incomings)
    ensures SelfOI(PhisOI(inputs, outputs, incs), inputs, outputs) == OIMap(inputs, outputs, incs)
  {
    hide LastTaker;
    var (a, b) := (SelfOI(PhisOI(inputs, outputs, incs), inputs, outputs), OIMap(inputs, outputs, incs));
    assert a.Keys == b.Keys;
  }

  lemma FindAt(xs: seq<Value>, i: nat)
    requires Distinct(xs) && i < |xs|
    ensures Find(xs, xs[i]) == i
  {
    hide Find;
    assert xs[Find(xs, xs[i])] == xs[i];
  }

  method MapInputsOutputs(inputs: seq<Value>, outputs: seq<Value>, incs: Incomings)
    returns (io: map<Value, nat>, oi: map<Value, Value>)
    requires Distinct(inputs) && Distinct(outputs)
    ensures io == IOMap(inputs, outputs, incs) && oi == OIMap(inputs, outputs, incs)
  {
    hide Find, LastOutput, PhisIO, PhisOI, SelfIO, SelfOI, IOMap, OIMap, PhiIO, PhiOI, OutputsTaken;
    io, oi := map[], map[];
    assert inputs[..0] == [] && outputs[..0] == [];
    PhisNone(outputs, incs);
    var k := 0;
    while k < |inputs|
      invariant k <= |inputs|
      invariant io == PhisIO(inputs[..k], outputs, incs) && oi == PhisOI(inputs[..k], outputs, incs)
    {
      var v := inputs[k];
      assert inputs[..k + 1] == inputs[..k] + [v] && v !in inputs[..k];
      PhisMore(inputs[..k], v, outputs, incs);
      if v in incs {
        io, oi := MapPhi(v, incs[v], outputs, io, oi);
      }
      k := k + 1;
    }
    assert inputs[..k] == inputs;
    ghost var (io1, oi1) := (io, oi);
    SelfNone(io, oi, inputs, outputs);
    var i := 0;
    while i < |outputs|
      invariant i <= |outputs|
      invariant io == SelfIO(io1, inputs, outputs[..i], outputs) && oi == SelfOI(oi1, inputs, outputs[..i])
    {
      assert outputs[..i + 1] == outputs[..i] + [outputs[i]];
      SelfMore(io1, oi1, inputs, outputs[..i], outputs[i], outputs);
      FindAt(outputs, i);
      if outputs[i] in inputs {
        var found := Find(inputs, outputs[i]);
        io := io[inputs[found] := i];
        oi := oi[outputs[i] := inputs[found]];
      }
      i := i + 1;
    }
    assert outputs[..i] == outputs;
    SelfAll(inputs, outputs, incs);
  }

  // ---------- what the maps are good for ----------

  // IsBidirectional.
  predicate Bidirectional(oi: map<Value, Value>, v: Value) { exists o <- oi :: o == v || oi[o] == v }

  predicate Takes(incs: Incomings, v: Value, o: Value) { v in incs && o in incs[v] }

  lemma {:induction false} LastOutputIs(vs: seq<Value>, outputs: seq<Value>)
    ensures LastOutput(vs, outputs).Some? ==> LastOutput(vs, outputs).value in vs && LastOutput(vs, outputs).value in outputs
    ensures LastOutput(vs, outputs).None? ==> forall x <- vs :: x !in outputs
  {
    if vs != [] {
      LastOutputIs(vs[..|vs| - 1], outputs);
      assert vs == vs[..|vs| - 1] + [vs[|vs| - 1]];
    }
  }

  lemma {:induction false} LastTakerIs(inputs: seq<Value>, incs: Incomings, o: Value)
    ensures LastTaker(inputs, incs, o).None? ==> forall v <- inputs :: !Takes(incs, v, o)
    ensures LastTaker(inputs, incs, o).Some? ==>
              exists j :: 0 <= j < |inputs| && inputs[j] == LastTaker(inputs, incs, o).value && Takes(incs, inputs[j], o)
                && forall k :: j < k < |inputs| ==> !Takes(incs, inputs[k], o)
  {
    if inputs != [] {
      var n := |inputs| - 1;
      LastTakerIs(inputs[..n], incs, o);
      if Takes(incs, inputs[n], o) {
        assert LastTaker(inputs, incs, o) == Some(inputs[n]);
      } else if LastTaker(inputs[..n], incs, o).Some? {
        var j :| 0 <= j < n && inputs[..n][j] == LastTaker(inputs[..n], incs, o).value && Takes(incs, inputs[..n][j], o)
                 && forall k :: j < k < n ==> !Takes(incs, inputs[..n][k], o);
        assert forall k :: j < k < n ==> inputs[..n][k] == inputs[k];
      } else {
        assert inputs == inputs[..n] + [inputs[n]];
      }
    }
  }

  // Every bidirectional input has the number of an output, which is itself or a value it takes.
  lemma InRange(inputs: seq<Value>, outputs: seq<Value>, incs: Incomings, v: Value)
    requires v in inputs && Bidirectional(OIMap(inputs, outputs, incs), v)
    ensures var io := IOMap(inputs, outputs, incs);
            v in io && io[v] < |outputs| && (outputs[io[v]] == v || Takes(incs, v, outputs[io[v]]))
  {
    hide Find, LastOutput, LastTaker;
    var oi := OIMap(inputs, outputs, incs);
    var o :| o in oi && (o == v || oi[o] == v);
    LastTakerIs(inputs, incs, o);
    if v in incs { LastOutputIs(incs[v], outputs); }
  }

  // ---------- in terms of the phis alone ----------

  // Input v is the last to take some output.
  ghost predicate OwnsOutput(inputs: seq<Value>, outputs: seq<Value>, incs: Incomings, v: Value) {
    exists o <- outputs :: LastTaker(inputs, incs, o) == Some(v)
  }

  // The last output v takes, if it takes any.
  function LastTaken(outputs: seq<Value>, incs: Incomings, v: Value): Option<Value> {
    if v in incs then LastOutput(incs[v], outputs) else None
  }

  lemma {:induction false} LastOutputAt(vs: seq<Value>, outputs: seq<Value>, k: nat)
    requires k < |vs| && vs[k] in outputs && forall m :: k < m < |vs| ==> vs[m] !in outputs
    ensures LastOutput(vs, outputs) == Some(vs[k])
  {
    if k < |vs| - 1 { LastOutputAt(vs[..|vs| - 1], outputs, k); }
  }

  lemma {:induction false} LastTakerAt(inputs: seq<Value>, incs: Incomings, o: Value, j: nat)
    requires j < |inputs| && inputs[j] in incs && o in incs[inputs[j]]
    requires forall m :: j < m < |inputs| && inputs[m] in incs ==> o !in incs[inputs[m]]
    ensures LastTaker(inputs, incs, o) == Some(inputs[j])
  {
    if j < |inputs| - 1 { LastTakerAt(inputs[..|inputs| - 1], incs, o, j); }
  }

  // When no output is an input: the cell of an input is that of the last output among the values
  // of its phi,
  lemma PairedWithLast(inputs: seq<Value>, outputs: seq<Value>, incs: Incomings, v: Value, k: nat)
    requires v in inputs && v in incs && forall o <- outputs :: o !in inputs
    requires k < |incs[v]| && incs[v][k] in outputs && forall m :: k < m < |incs[v]| ==> incs[v][m] !in outputs
    ensures v in IOMap(inputs, outputs, incs) && IOMap(inputs, outputs, incs)[v] < |outputs|
    ensures outputs[IOMap(inputs, outputs, incs)[v]] == incs[v][k]
  {
    LastOutputAt(incs[v], outputs, k);
  }

  // and an output belongs to the last input whose phi takes it.
  lemma PairedBackWithLast(inputs: seq<Value>, outputs: seq<Value>, incs: Incomings, o: Value, j: nat)
    requires o in outputs && forall x <- outputs :: x !in inputs
    requires j < |inputs| && inputs[j] in incs && o in incs[inputs[j]]
    requires forall m :: j < m < |inputs| && inputs[m] in incs ==> o !in incs[inputs[m]]
    ensures o in OIMap(inputs, outputs, incs) && OIMap(inputs, outputs, incs)[o] == inputs[j]
  {
    LastTakerAt(inputs, incs, o, j);
  }

  // When no output is an input, an input is bidirectional exactly when it is the last to take
  // some output, and then its cell is that of the last output it takes.
  lemma BidirectionalIff(inputs: seq<Value>, outputs: seq<Value>, incs: Incomings, v: Value)
    requires v in inputs && forall o <- outputs :: o !in inputs
    ensures Bidirectional(OIMap(inputs, outputs, incs), v) <==> OwnsOutput(inputs, outputs, incs, v)
  {
    hide LastTaker;
    var oi := OIMap(inputs, outputs, incs);
    if o :| o in outputs && LastTaker(inputs, incs, o) == Some(v) {
      assert o in oi && oi[o] == v;
    }
  }

  lemma CellOfLast(inputs: seq<Value>, outputs: seq<Value>, incs: Incomings, v: Value)
    requires v in inputs && forall o <- outputs :: o !in inputs
    ensures v in IOMap(inputs, outputs, incs) <==> LastTaken(outputs, incs, v).Some?
    ensures v in IOMap(inputs, outputs, incs) ==>
              LastTaken(outputs, incs, v).value in outputs
              && IOMap(inputs, outputs, incs)[v] < |outputs| && outputs[IOMap(inputs, outputs, incs)[v]] == LastTaken(outputs, incs, v).value
  {
    hide Find, LastOutput;
    if v in incs { LastOutputIs(incs[v], outputs); }
  }

  // Two inputs with a cell have the same one exactly when they take the same output last.
  lemma SameCellIff(inputs: seq<Value>, outputs: seq<Value>, incs: Incomings, v: Value, w: Value)
    requires v in inputs && w in inputs && forall o <- outputs :: o !in inputs
    requires v in IOMap(inputs, outputs, incs) && w in IOMap(inputs, outputs, incs)
    ensures IOMap(inputs, outputs, incs)[v] == IOMap(inputs, outputs, incs)[w] <==> LastTaken(outputs, incs, v) == LastTaken(outputs, incs, w)
  {
    hide LastTaken, IOMap;
    CellOfLast(inputs, outputs, incs, v);
    CellOfLast(inputs, outputs, incs, w);
    CellDetermined(inputs, outputs, incs, v, w);
  }

  lemma CellDetermined(inputs: seq<Value>, outputs: seq<Value>, incs: Incomings, v: Value, w: Value)
    requires v in inputs && w in inputs && forall o <- outputs :: o !in inputs
    requires v in IOMap(inputs, outputs, incs) && w in IOMap(inputs, outputs, incs)
    ensures LastTaken(outputs, incs, v) == LastTaken(outputs, incs, w) ==> IOMap(inputs, outputs, incs)[v] == IOMap(inputs, outputs, incs)[w]
  {
    hide Find, LastOutput;
  }

  ghost predicate CellsAreApart(inputs: seq<Value>, outputs: seq<Value>, incs: Incomings) {
    var (io, oi) := (IOMap(inputs, outputs, incs), OIMap(inputs, outputs, incs));
    forall v <- inputs, w <- inputs ::
      Bidirectional(oi, v) && Bidirectional(oi, w) && v in io && w in io && io[v] == io[w] ==> v == w
  }

  ghost predicate LastsDiffer(inputs: seq<Value>, outputs: seq<Value>, incs: Incomings) {
    forall v <- inputs, w <- inputs :: OwnsOutput(inputs, outputs, incs, v) && OwnsOutput(inputs, outputs, incs, w) ==>
      LastTaken(outputs, incs, v) == LastTaken(outputs, incs, w) ==> v == w
  }

  // All bidirectional inputs have cells of their own exactly when no two inputs, each the last
  // to take some output, take the same output last.
  lemma CellsApartIff(inputs: seq<Value>, outputs: seq<Value>, incs: Incomings)
    requires forall o <- outputs :: o !in inputs
    ensures CellsAreApart(inputs, outputs, incs) <==> LastsDiffer(inputs, outputs, incs)
  {
    hide IOMap, OIMap, Bidirectional, OwnsOutput, LastTaken;
    var (io, oi) := (IOMap(inputs, outputs, incs), OIMap(inputs, outputs, incs));
    forall v, w | v in inputs && w in inputs
      ensures (Bidirectional(oi, v) && Bidirectional(oi, w) && v in io && w in io && io[v] == io[w]) <==>
              (OwnsOutput(inputs, outputs, incs, v) && OwnsOutput(inputs, outputs, incs, w)
               && LastTaken(outputs, incs, v) == LastTaken(outputs, incs, w))
    {
      BidirectionalIff(inputs, outputs, incs, v);
      BidirectionalIff(inputs, outputs, incs, w);
      if Bidirectional(oi, v) { InRange(inputs, outputs, incs, v); }
      if Bidirectional(oi, w) { InRange(inputs, outputs, incs, w); }
      if v in io && w in io { SameCellIff(inputs, outputs, incs, v, w); }
    }
  }

  // The pairing of an input can be undone exactly when no later input takes the output that it
  // takes last.
  lemma InverseIff(inputs: seq<Value>, outputs: seq<Value>, incs: Incomings, i: nat)
    requires Distinct(inputs) && i < |inputs| && LastTaken(outputs, incs, inputs[i]).Some?
    requires forall o <- outputs :: o !in inputs
    ensures var (io, oi) := (IOMap(inputs, outputs, incs), OIMap(inputs, outputs, incs));
            && inputs[i] in io && io[inputs[i]] < |outputs| && outputs[io[inputs[i]]] in oi
            && (oi[outputs[io[inputs[i]]]] == inputs[i] <==>
                forall j :: i < j < |inputs| ==> !Takes(incs, inputs[j], LastTaken(outputs, incs, inputs[i]).value))
  {
    hide Find, LastOutput, LastTaker;
    var v := inputs[i];
    CellOfLast(inputs, outputs, incs, v);
    LastOutputIs(incs[v], outputs);
    var o := LastTaken(outputs, incs, v).value;
    LastTakerIs(inputs, incs, o);
    assert Takes(incs, v, o);
    var j :| 0 <= j < |inputs| && inputs[j] == LastTaker(inputs, incs, o).value && Takes(incs, inputs[j], o)
             && forall k :: j < k < |inputs| ==> !Takes(incs, inputs[k], o);
    if j > i { assert inputs[j] != inputs[i]; }
  }

  // No phi among the inputs takes two different outputs.
  ghost predicate SingleOutputs(inputs: seq<Value>, outputs: seq<Value>, incs: Incomings) {
    forall v <- inputs, a <- outputs, b <- outputs :: Takes(incs, v, a) && Takes(incs, v, b) ==> a == b
  }

  // Then the maps are inverse to each other on the bidirectional inputs,
  lemma MutualInverse(inputs: seq<Value>, outputs: seq<Value>, incs: Incomings, v: Value)
    requires SingleOutputs(inputs, outputs, incs)
    requires v in inputs && Bidirectional(OIMap(inputs, outputs, incs), v)
    ensures var (io, oi) := (IOMap(inputs, outputs, incs), OIMap(inputs, outputs, incs));
            v in io && io[v] < |outputs| && outputs[io[v]] in oi && oi[outputs[io[v]]] == v
  {
    hide Find, LastOutput, LastTaker, SingleOutputs;
    InRange(inputs, outputs, incs, v);
    var (io, oi) := (IOMap(inputs, outputs, incs), OIMap(inputs, outputs, incs));
    var o :| o in oi && (o == v || oi[o] == v);
    LastTakerIs(inputs, incs, o);
    if v !in outputs {
      OneOutput(inputs, outputs, incs, v, o, outputs[io[v]]);
    }
  }

  lemma OneOutput(inputs: seq<Value>, outputs: seq<Value>, incs: Incomings, v: Value, a: Value, b: Value)
    requires SingleOutputs(inputs, outputs, incs) && v in inputs && a in outputs && b in outputs && Takes(incs, v, a) && Takes(incs, v, b)
    ensures a == b
  {
  }

  // and back, when no output is an input;
  lemma MutualInverseBack(inputs: seq<Value>, outputs: seq<Value>, incs: Incomings, o: Value)
    requires SingleOutputs(inputs, outputs, incs) && Distinct(outputs) && (forall x <- outputs :: x !in inputs)
    requires o in OIMap(inputs, outputs, incs)
    ensures var (io, oi) := (IOMap(inputs, outputs, incs), OIMap(inputs, outputs, incs));
            oi[o] in inputs && oi[o] in io && io[oi[o]] < |outputs| && outputs[io[oi[o]]] == o
  {
    hide Find, LastOutput, LastTaker, SingleOutputs;
    LastTakerIs(inputs, incs, o);
    var v := OIMap(inputs, outputs, incs)[o];
    assert Bidirectional(OIMap(inputs, outputs, incs), v);
    InRange(inputs, outputs, incs, v);
    OneOutput(inputs, outputs, incs, v, o, outputs[IOMap(inputs, outputs, incs)[v]]);
  }

  // and all of them have cells of their own.
  lemma CellsApart(inputs: seq<Value>, outputs: seq<Value>, incs: Incomings)
    requires SingleOutputs(inputs, outputs, incs)
    ensures CellsAreApart(inputs, outputs, incs)
  {
    hide IOMap, OIMap, SingleOutputs, Bidirectional;
    var (io, oi) := (IOMap(inputs, outputs, incs), OIMap(inputs, outputs, incs));
    forall v, w | v in inputs && w in inputs && Bidirectional(oi, v) && Bidirectional(oi, w) && v in io && w in io && io[v] == io[w]
      ensures v == w
    {
      MutualInverse(inputs, outputs, incs, v);
      MutualInverse(inputs, outputs, incs, w);
    }
  }
}
