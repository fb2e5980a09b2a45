/** The severing, done one phi at a time the way the extractor does it, adds up to the
    severed function; and what the severed function's headers look like from outside. */
module SeverSteps {
  import opened Collections
  import opened Ssa
  import opened Rewrite
  import opened Sever

  // ---------- sorting incoming values ----------

  lemma SubstIncCons(s: Subst, e: Incoming, inc: seq<Incoming>)
    ensures SubstInc(s, [e] + inc) == [Incoming(e.from, SubstV(s, e.val))] + SubstInc(s, inc)
    ensures SubstInc(s, [e] + inc)[1..] == SubstInc(s, inc)
  {
  }

  lemma {:induction false} SortSubst(s: Subst, inc: seq<Incoming>, region: set<Label>)
    ensures Outside(SubstInc(s, inc), region) == SubstInc(s, Outside(inc, region))
    ensures Inside(SubstInc(s, inc), region) == SubstInc(s, Inside(inc, region))
  {
    if inc != [] {
      SortSubst(s, inc[1..], region);
      var (o, i) := (Outside(inc[1..], region), Inside(inc[1..], region));
      SubstIncCons(s, inc[0], inc[1..]);
      SubstIncCons(s, inc[0], o);
      SubstIncCons(s, inc[0], i);
      assert [inc[0]] + inc[1..] == inc;
      assert [] + o == o && [] + i == i;
    }
  }

  lemma {:induction false} SortConcat(a: seq<Incoming>, b: seq<Incoming>, region: set<Label>)
    ensures Outside(a + b, region) == Outside(a, region) + Outside(b, region)
    ensures Inside(a + b, region) == Inside(a, region) + Inside(b, region)
  {
    if a == [] {
      assert a + b == b;
    } else {
      assert (a + b)[1..] == a[1..] + b;
      SortConcat(a[1..], b, region);
      var (o, i) := if a[0].from in region then ([], [a[0]]) else ([a[0]], []);
      assert Outside(a, region) == o + Outside(a[1..], region) && Inside(a, region) == i + Inside(a[1..], region);
      assert Outside(a + b, region) == o + (Outside(a[1..], region) + Outside(b, region));
      assert Inside(a + b, region) == i + (Inside(a[1..], region) + Inside(b, region));
    }
  }

  // The inner loop: entries from the region leave the old phi and join the new one.
  method MoveIncoming(inc0: seq<Incoming>, region: set<Label>) returns (inc: seq<Incoming>, moved: seq<Incoming>)
    ensures inc == Outside(inc0, region) && moved == Inside(inc0, region)
  {
    inc, moved := inc0, [];
    var i := 0;
    while i != |inc|
      invariant i <= |inc|
      invariant inc[..i] + Outside(inc[i..], region) == Outside(inc0, region)
      invariant moved + Inside(inc[i..], region) == Inside(inc0, region)
      decreases |inc| - i
    {
      if inc[i].from in region {
        moved := moved + [inc[i]];
        assert inc[..i] + inc[i + 1..] == (inc[..i] + inc[i + 1..])[..i] + (inc[..i] + inc[i + 1..])[i..];
        assert (inc[..i] + inc[i + 1..])[i..] == inc[i..][1..];
        inc := inc[..i] + inc[i + 1..];
      } else {
        assert inc[..i + 1] == inc[..i] + [inc[i]] && inc[i + 1..] == inc[i..][1..];
        i := i + 1;
      }
    }
  }

  // The counting loop over the first phi.
  method CountIncoming(inc: seq<Incoming>, region: set<Label>) returns (inside: nat, outside: nat)
    ensures inside == |Inside(inc, region)| && outside == |Outside(inc, region)|
  {
    inside, outside := 0, 0;
    var i := 0;
    while i < |inc|
      invariant i <= |inc|
      invariant inside == |Inside(inc[..i], region)| && outside == |Outside(inc[..i], region)|
    {
      SortConcat(inc[..i], [inc[i]], region);
      assert inc[..i + 1] == inc[..i] + [inc[i]];
      if inc[i].from in region {
        inside := inside + 1;
      } else {
        outside := outside + 1;
      }
      i := i + 1;
    }
    assert inc[..i] == inc;
  }

  // ---------- leading branches past the old header ----------

  lemma RedirectMore(f: Func, which: set<Label>, l: Label, from: Label, to: Label)
    requires from != to
    ensures Redirect(Redirect(f, which, from, to), {l}, from, to) == Redirect(f, which + {l}, from, to)
  {
    var (a, b) := (Redirect(Redirect(f, which, from, to), {l}, from, to), Redirect(f, which + {l}, from, to));
    assert a.blocks.Keys == b.blocks.Keys;
    forall m | m in a.blocks ensures a.blocks[m] == b.blocks[m] {
      assert a.blocks[m].term.dests == b.blocks[m].term.dests;
    }
  }

  lemma RedirectNone(f: Func, from: Label, to: Label)
    ensures Redirect(f, {}, from, to) == f
  {
    assert Redirect(f, {}, from, to).blocks == f.blocks;
  }

  // ---------- one phi ----------

  // What the loop does to phi n: uses of it move to the new phi, then its entries from the
  // region do.
  function SeverPhi(f: Func, header: Label, nb: Label, region: set<Label>, n: nat, id: Id): Func
    requires header in f.blocks && nb in f.blocks && n < |f.blocks[header].phis|
  {
    var p := f.blocks[header].phis[n];
    var g := SubstFunc(map[Inst(p.id) := Inst(id)], f);
    var q := g.blocks[header].phis[n];
    var prior := g.blocks[header];
    var now := g.blocks[nb];
    g.(blocks := g.blocks[header := prior.(phis := prior.phis[n := Phi(q.id, Outside(q.inc, region))])]
                         [nb := now.(phis := [Phi(id, [Incoming(header, Inst(p.id))] + Inside(q.inc, region))] + now.phis)])
  }

  lemma RenamingClear(phis: seq<Phi>, first: Id, n: nat)
    requires n < |phis| && Distinct(PhiIds(phis)) && forall i <- PhiIds(phis) :: i < first
    ensures Clear(Renaming(phis, first, n), Inst(phis[n].id))
    ensures Renaming(phis, first, n + 1) == Renaming(phis, first, n)[Inst(phis[n].id) := Inst(first + n)]
  {
    var s := Renaming(phis, first, n);
    RenamingAt(phis, first, n);
    assert PhiIds(phis)[n] == phis[n].id && phis[n].id in PhiIds(phis);
    forall v <- s ensures v != Inst(phis[n].id) && s[v] != Inst(phis[n].id) {
      var j :| 0 <= j < n && v == Inst(phis[j].id);
      assert PhiIds(phis)[j] != PhiIds(phis)[n];
    }
  }

  lemma OldPhisStep(phis: seq<Phi>, s: Subst, b: Value, region: set<Label>, n: nat)
    requires n < |phis| && Clear(s, Inst(phis[n].id))
    ensures var m := map[Inst(phis[n].id) := b];
            var t := s[Inst(phis[n].id) := b];
            var q := SubstPhis(m, OldPhis(phis, s, region, n))[n];
            && q == SubstPhi(t, phis[n]) && OldPhis(phis, s, region, n)[n].id == phis[n].id
            && SubstPhis(m, OldPhis(phis, s, region, n))[n := Phi(q.id, Outside(q.inc, region))] == OldPhis(phis, t, region, n + 1)
  {
    var a := Inst(phis[n].id);
    var (m, t) := (map[a := b], s[a := b]);
    var olds := SubstPhis(m, OldPhis(phis, s, region, n));
    SortSubst(t, phis[n].inc, region);
    SubstIncTwice(s, a, b, phis[n].inc);
    forall j | 0 <= j < |phis|
      ensures olds[j] == Phi(phis[j].id, SubstInc(t, if j < n then Outside(phis[j].inc, region) else phis[j].inc))
    {
      SubstIncTwice(s, a, b, if j < n then Outside(phis[j].inc, region) else phis[j].inc);
    }
  }

  lemma NewPhiSubst(p: Phi, s: Subst, a: Value, b: Value, region: set<Label>, id: Id, header: Label)
    requires Clear(s, a) && a != Inst(p.id)
    ensures SubstPhi(map[a := b], NewPhi(p, s, region, id, header)) == NewPhi(p, s[a := b], region, id, header)
  {
    SubstIncCons(map[a := b], Incoming(header, Inst(p.id)), SubstInc(s, Inside(p.inc, region)));
    SubstIncTwice(s, a, b, Inside(p.inc, region));
  }

  lemma NewPhisStep(phis: seq<Phi>, s: Subst, b: Value, region: set<Label>, first: Id, n: nat, header: Label)
    requires n < |phis| && Clear(s, Inst(phis[n].id)) && Distinct(PhiIds(phis))
    ensures var m := map[Inst(phis[n].id) := b];
            var t := s[Inst(phis[n].id) := b];
            [NewPhi(phis[n], t, region, first + n, header)] + SubstPhis(m, NewPhis(phis, s, region, first, n, header))
              == NewPhis(phis, t, region, first, n + 1, header)
  {
    var a := Inst(phis[n].id);
    var (m, t) := (map[a := b], s[a := b]);
    var news := SubstPhis(m, NewPhis(phis, s, region, first, n, header));
    forall k | 0 <= k < n ensures news[k] == NewPhi(phis[n - 1 - k], t, region, first + (n - 1 - k), header) {
      assert PhiIds(phis)[n - 1 - k] != PhiIds(phis)[n];
      NewPhiSubst(phis[n - 1 - k], s, a, b, region, first + (n - 1 - k), header);
    }
    var all := NewPhis(phis, t, region, first, n + 1, header);
    forall k | 0 <= k < n ensures all[k + 1] == news[k] {
      assert n + 1 - 1 - (k + 1) == n - 1 - k;
    }
  }

  // Doing phi n by itself takes the function from n phis done to n + 1 phis done.
  lemma SeverPhiStep(f: Func, header: Label, nb: Label, region: set<Label>, first: Id, n: nat)
    requires header in f.blocks && nb in f.blocks && header != nb && n < |f.blocks[header].phis|
    requires Distinct(PhiIds(f.blocks[header].phis)) && forall i <- PhiIds(f.blocks[header].phis) :: i < first
    ensures SeverPhi(Severing(f, header, nb, region, first, n), header, nb, region, n, first + n)
         == Severing(f, header, nb, region, first, n + 1)
  {
    hide Renaming, SubstPhis, SubstBody, SubstVs, SubstInc, OldPhis, NewPhis, NewPhi, OldPhi, Outside, Inside;
    var phis := f.blocks[header].phis;
    var s := Renaming(phis, first, n);
    var (a, b) := (Inst(phis[n].id), Inst(first + n));
    RenamingClear(phis, first, n);
    OldPhisStep(phis, s, b, region, n);
    NewPhisStep(phis, s, b, region, first, n, header);
    NewPhiIs(phis[n], s[a := b], region, first + n, header);
    var (g, h) := (SeverPhi(Severing(f, header, nb, region, first, n), header, nb, region, n, first + n),
                   Severing(f, header, nb, region, first, n + 1));
    assert g.blocks.Keys == h.blocks.Keys;
    forall l | l in g.blocks ensures g.blocks[l] == h.blocks[l] {
      SubstBlockTwice(s, a, b, f.blocks[l]);
      SubstBodyTwice(s, a, b, f.blocks[l].body);
      SubstVsTwice(s, a, b, f.blocks[l].term.ops);
      if l == header {
        assert g.blocks[l].phis == h.blocks[l].phis;
      } else if l == nb {
        assert g.blocks[l].phis == h.blocks[l].phis;
      }
    }
  }

  lemma NewPhiIs(p: Phi, t: Subst, region: set<Label>, id: Id, header: Label)
    ensures Phi(id, [Incoming(header, Inst(p.id))] + Inside(SubstInc(t, p.inc), region)) == NewPhi(p, t, region, id, header)
  {
    SortSubst(t, p.inc, region);
  }
}
