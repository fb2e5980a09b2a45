/** Choosing the blocks of a loop to extract: the longest prefix of its reverse post order that
    is all payload, with inner loops taken whole; and putting a choice back in that order. */
module Selector {
  import opened Collections
  import opened Ssa
  import opened PayloadTree

  // A loop with its blocks in reverse post order, and the same for each loop inside it, by header.
  datatype Nest = Nest(rpo: seq<Label>, header: Label, latches: seq<Label>, inner: map<Label, seq<Label>>)

  ghost predicate Before(xs: seq<Label>, a: Label, b: Label) { exists i, j :: 0 <= i < j < |xs| && xs[i] == a && xs[j] == b }

  // A reducible loop nest: every loop is entered at its header, inner loops nest, and an edge
  // that is not a back edge goes forward.
  ghost predicate Reducible(f: Func, n: Nest) {
    && Distinct(n.rpo) && n.rpo != [] && n.rpo[0] == n.header
    && (forall h <- n.inner :: h in n.rpo && h != n.header && h in n.inner[h] && n.header !in n.inner[h] && forall b <- n.inner[h] :: b in n.rpo)
    && (forall p <- f.blocks, b <- Succs(f, p) :: b in n.rpo && b != n.header ==>
          p in n.rpo && (Before(n.rpo, p, b) || (b in n.inner && p in n.inner[b])))
    && (forall h <- n.inner, p <- f.blocks, b <- Succs(f, p) :: b in n.inner[h] && p !in n.inner[h] ==> b == h)
    && forall h <- n.inner, m <- n.inner :: m in n.inner[h] ==> forall b <- n.inner[m] :: b in n.inner[h]
  }

  // ---------- erase(remove(...)) ----------

  lemma {:induction false} RemovedKeepsOrder(xs: seq<Label>, x: Label)
    requires Distinct(xs)
    ensures Distinct(Remove(xs, x)) && forall a, b :: Before(Remove(xs, x), a, b) <==> Before(xs, a, b) && a != x && b != x
  {
    if xs != [] {
      assert forall i, j :: 0 <= i < j < |xs[1..]| ==> xs[1..][i] == xs[i + 1] && xs[1..][j] == xs[j + 1];
      RemovedKeepsOrder(xs[1..], x);
      forall a, b ensures Before(xs, a, b) <==> (a == xs[0] && b in xs[1..]) || Before(xs[1..], a, b) { BeforeFirst(xs, a, b); }
      if xs[0] != x {
        var r := Remove(xs, x);
        assert r[1..] == Remove(xs[1..], x) && r[0] == xs[0];
        forall a, b ensures Before(r, a, b) <==> (a == r[0] && b in r[1..]) || Before(r[1..], a, b) { BeforeFirst(r, a, b); }
        assert xs[0] !in xs[1..];
        forall i, j | 0 <= i < j < |r| ensures r[i] != r[j] {
          if i == 0 { assert r[j] in r[1..]; } else { assert r[i] == r[1..][i - 1] && r[j] == r[1..][j - 1]; }
        }
      } else {
        assert Remove(xs, x) == Remove(xs[1..], x);
      }
    }
  }

  lemma BeforeFirst(xs: seq<Label>, a: Label, b: Label)
    requires xs != []
    ensures Before(xs, a, b) <==> (a == xs[0] && b in xs[1..]) || Before(xs[1..], a, b)
  {
    if Before(xs, a, b) {
      var i, j :| 0 <= i < j < |xs| && xs[i] == a && xs[j] == b;
      assert xs[1..][j - 1] == b;
      if i > 0 { assert xs[1..][i - 1] == a; }
    }
    if a == xs[0] && b in xs[1..] {
      var j :| 0 <= j < |xs[1..]| && xs[1..][j] == b;
      assert xs[j + 1] == b;
    }
    if Before(xs[1..], a, b) {
      var i, j :| 0 <= i < j < |xs[1..]| && xs[1..][i] == a && xs[1..][j] == b;
      assert xs[i + 1] == a && xs[j + 1] == b;
    }
  }

  // The blocks considered: those of the loop but the header and the latches, in the same order.
  ghost predicate IsCandidates(n: Nest, blocks: seq<Label>) {
    && Distinct(blocks)
    && (forall b :: b in blocks <==> b in n.rpo && b != n.header && b !in n.latches)
    && forall a, b :: Before(blocks, a, b) <==> Before(n.rpo, a, b) && a in blocks && b in blocks
  }

  method Candidates(n: Nest) returns (blocks: seq<Label>)
    requires Distinct(n.rpo)
    ensures IsCandidates(n, blocks)
  {
    hide Before, Distinct;
    RemovedKeepsOrder(n.rpo, n.header);
    blocks := Remove(n.rpo, n.header);
    var k := 0;
    while k < |n.latches|
      invariant k <= |n.latches| && Distinct(blocks)
      invariant forall b :: b in blocks <==> b in n.rpo && b != n.header && b !in n.latches[..k]
      invariant forall a, b :: Before(blocks, a, b) <==>
                  Before(n.rpo, a, b) && a != n.header && b != n.header && a !in n.latches[..k] && b !in n.latches[..k]
    {
      assert n.latches[..k + 1] == n.latches[..k] + [n.latches[k]];
      RemovedKeepsOrder(blocks, n.latches[k]);
      blocks := Remove(blocks, n.latches[k]);
      k := k + 1;
    }
    assert n.latches[..k] == n.latches;
    forall a, b ensures Before(n.rpo, a, b) ==> a in n.rpo && b in n.rpo { BeforeHas(n.rpo, a, b); }
  }

  lemma BeforeHas(xs: seq<Label>, a: Label, b: Label)
    ensures Before(xs, a, b) ==> a in xs && b in xs
  {
  }

  // ---------- the choice ----------

  // May block b, met in order, be taken?
  predicate MayTake(n: Nest, payload: seq<Label>, payloadLoops: set<Label>, b: Label) {
    if b in n.inner then b in payloadLoops else b in payload
  }

  // What taking b adds.
  function Taken(n: Nest, b: Label): set<Label> { if b in n.inner then set x | x in n.inner[b] else {b} }

  // Everything before position k has been taken, inner loops whole, and nothing else has.
  ghost predicate IsChoice(n: Nest, payload: seq<Label>, payloadLoops: set<Label>, blocks: seq<Label>, k: nat, selected: seq<Label>) {
    && k <= |blocks| && Distinct(selected)
    && (forall b <- blocks[..k], x <- Taken(n, b) :: x in selected)
    && forall x <- selected :: exists b <- blocks[..k] :: MayTake(n, payload, payloadLoops, b) && x in Taken(n, b)
  }

  // SetVector::insert, one after another.
  method InsertAll(selected0: seq<Label>, xs: seq<Label>) returns (selected: seq<Label>)
    requires Distinct(selected0)
    ensures Distinct(selected) && forall x :: x in selected <==> x in selected0 || x in xs
  {
    selected := selected0;
    var i := 0;
    while i < |xs|
      invariant i <= |xs| && Distinct(selected)
      invariant forall x :: x in selected <==> x in selected0 || x in xs[..i]
    {
      assert xs[..i + 1] == xs[..i] + [xs[i]];
      if xs[i] !in selected {
        selected := selected + [xs[i]];
      }
      i := i + 1;
    }
    assert xs[..i] == xs;
  }

  // The choice stops at the first candidate that may not be taken and has not been absorbed by
  // an inner loop.
  ghost predicate StopsAt(n: Nest, payload: seq<Label>, payloadLoops: set<Label>, blocks: seq<Label>, k: nat, selected: seq<Label>) {
    && IsCandidates(n, blocks) && IsChoice(n, payload, payloadLoops, blocks, k, selected)
    && (k < |blocks| ==> !MayTake(n, payload, payloadLoops, blocks[k]) && blocks[k] !in selected)
  }

  ghost predicate IsLongestPrefix(n: Nest, payload: seq<Label>, payloadLoops: set<Label>, selected: seq<Label>) {
    exists blocks, k :: StopsAt(n, payload, payloadLoops, blocks, k, selected)
  }

  method Calculate(f: Func, n: Nest, payload: seq<Label>, payloadLoops: set<Label>) returns (selected: seq<Label>)
    requires Reducible(f, n)
    ensures IsLongestPrefix(n, payload, payloadLoops, selected)
  {
    hide Before, IsCandidates, MayTake, Succs;
    var candidates := Candidates(n);
    ghost var blocks := candidates;
    CandidateFacts(f, n, blocks);
    selected := [];
    var i := 0;
    ChoiceStart(n, payload, payloadLoops, blocks);
    while i < |candidates|
      invariant i <= |candidates| && IsChoice(n, payload, payloadLoops, blocks, i, selected)
    {
      var bb := candidates[i];
      if bb in selected {
        ChoiceAbsorbed(f, n, payload, payloadLoops, blocks, i, selected);
        i := i + 1;
        continue;
      }
      ghost var before := selected;
      if bb in n.inner {
        if bb !in payloadLoops {
          break;
        }
        selected := InsertAll(selected, n.inner[bb]);
      } else {
        if bb !in payload {
          break;
        }
        selected := selected + [bb];
      }
      ChoiceMore(n, payload, payloadLoops, blocks, i, before, selected);
      i := i + 1;
    }
    MayTakeAt(n, payload, payloadLoops, if i < |blocks| then blocks[i] else 0);
    assert StopsAt(n, payload, payloadLoops, blocks, i, selected);
  }

  lemma MayTakeAt(n: Nest, payload: seq<Label>, payloadLoops: set<Label>, b: Label)
    ensures MayTake(n, payload, payloadLoops, b) <==> if b in n.inner then b in payloadLoops else b in payload
  {
  }

  lemma CandidateFacts(f: Func, n: Nest, blocks: seq<Label>)
    requires Reducible(f, n) && IsCandidates(n, blocks)
    ensures Distinct(blocks)
  {
  }

  lemma ChoiceStart(n: Nest, payload: seq<Label>, payloadLoops: set<Label>, blocks: seq<Label>)
    ensures IsChoice(n, payload, payloadLoops, blocks, 0, [])
  {
  }

  // An absorbed block brings nothing: if it is a header, its loop lies in the one that absorbed it.
  lemma ChoiceAbsorbed(f: Func, n: Nest, payload: seq<Label>, payloadLoops: set<Label>, blocks: seq<Label>, i: nat, selected: seq<Label>)
    requires Reducible(f, n) && i < |blocks| && IsChoice(n, payload, payloadLoops, blocks, i, selected) && blocks[i] in selected
    ensures IsChoice(n, payload, payloadLoops, blocks, i + 1, selected)
  {
    hide Before, Succs, MayTake;
    assert blocks[..i + 1] == blocks[..i] + [blocks[i]];
    var b :| b in blocks[..i] && MayTake(n, payload, payloadLoops, b) && blocks[i] in Taken(n, b);
    forall x | x in Taken(n, blocks[i]) ensures x in selected {
      assert x in Taken(n, b);
    }
    forall x | x in selected ensures exists c <- blocks[..i + 1] :: MayTake(n, payload, payloadLoops, c) && x in Taken(n, c) {
      var c :| c in blocks[..i] && MayTake(n, payload, payloadLoops, c) && x in Taken(n, c);
      assert c in blocks[..i + 1];
    }
  }

  lemma ChoiceMore(n: Nest, payload: seq<Label>, payloadLoops: set<Label>, blocks: seq<Label>, i: nat, before: seq<Label>, selected: seq<Label>)
    requires i < |blocks| && IsChoice(n, payload, payloadLoops, blocks, i, before) && Distinct(selected)
    requires if blocks[i] in n.inner then blocks[i] in payloadLoops else blocks[i] in payload
    requires forall x :: x in selected <==> x in before || x in Taken(n, blocks[i])
    ensures IsChoice(n, payload, payloadLoops, blocks, i + 1, selected)
  {
    hide Taken, Distinct;
    assert blocks[..i + 1] == blocks[..i] + [blocks[i]];
    assert blocks[i] in blocks[..i + 1] && MayTake(n, payload, payloadLoops, blocks[i]);
    forall x | x in selected ensures exists c <- blocks[..i + 1] :: MayTake(n, payload, payloadLoops, c) && x in Taken(n, c) {
      if x in before {
        var c :| c in blocks[..i] && MayTake(n, payload, payloadLoops, c) && x in Taken(n, c);
        assert c in blocks[..i + 1];
      }
    }
  }

  // Block b, or the inner loop it is the header of, is all payload and brings x.
  ghost predicate Brings(n: Nest, payload: seq<Label>, payloadLoops: set<Label>, b: Label, x: Label) {
    if b in n.inner then b in payloadLoops && x in n.inner[b] else b in payload && x == b
  }

  // Said of the blocks themselves: the candidates before position k are taken, inner loops whole;
  // each chosen block is brought by one of them that is all payload; and the candidate at k is not.
  lemma ChoiceIs(f: Func, n: Nest, payload: seq<Label>, payloadLoops: set<Label>, selected: seq<Label>) returns (blocks: seq<Label>, k: nat)
    requires Reducible(f, n) && IsLongestPrefix(n, payload, payloadLoops, selected)
    ensures IsCandidates(n, blocks) && k <= |blocks|
    ensures forall i :: 0 <= i < k ==> blocks[i] in selected && (blocks[i] in n.inner ==> forall x <- n.inner[blocks[i]] :: x in selected)
    ensures forall x <- selected :: exists i :: 0 <= i < k && Brings(n, payload, payloadLoops, blocks[i], x)
    ensures k < |blocks| ==> blocks[k] !in selected && if blocks[k] in n.inner then blocks[k] !in payloadLoops else blocks[k] !in payload
  {
    hide *;
    blocks, k := ChoiceOf(n, payload, payloadLoops, selected);
    forall i | 0 <= i < k
      ensures blocks[i] in selected && (blocks[i] in n.inner ==> forall x <- n.inner[blocks[i]] :: x in selected)
    {
      TakenAt(f, n, payload, payloadLoops, blocks, k, selected, i);
    }
    forall x | x in selected ensures exists i :: 0 <= i < k && Brings(n, payload, payloadLoops, blocks[i], x) {
      var i := BroughtBy(n, payload, payloadLoops, blocks, k, selected, x);
    }
  }

  lemma ChoiceOf(n: Nest, payload: seq<Label>, payloadLoops: set<Label>, selected: seq<Label>) returns (blocks: seq<Label>, k: nat)
    requires IsLongestPrefix(n, payload, payloadLoops, selected)
    ensures IsCandidates(n, blocks) && k <= |blocks| && IsChoice(n, payload, payloadLoops, blocks, k, selected)
    ensures k < |blocks| ==> blocks[k] !in selected && if blocks[k] in n.inner then blocks[k] !in payloadLoops else blocks[k] !in payload
  {
    hide IsCandidates, Taken, Distinct;
    blocks, k :| StopsAt(n, payload, payloadLoops, blocks, k, selected);
  }

  lemma TakenAt(f: Func, n: Nest, payload: seq<Label>, payloadLoops: set<Label>, blocks: seq<Label>, k: nat, selected: seq<Label>, i: nat)
    requires Reducible(f, n) && k <= |blocks| && IsChoice(n, payload, payloadLoops, blocks, k, selected) && i < k
    ensures blocks[i] in selected && (blocks[i] in n.inner ==> forall x <- n.inner[blocks[i]] :: x in selected)
  {
    hide Reducible, Taken, Distinct, MayTake;
    assert blocks[..k][i] == blocks[i];
    TakesItself(f, n, blocks[i]);
    TakesWhole(n, blocks[i]);
  }

  lemma BroughtBy(n: Nest, payload: seq<Label>, payloadLoops: set<Label>, blocks: seq<Label>, k: nat, selected: seq<Label>, x: Label)
    returns (i: nat)
    requires k <= |blocks| && IsChoice(n, payload, payloadLoops, blocks, k, selected) && x in selected
    ensures i < k && Brings(n, payload, payloadLoops, blocks[i], x)
  {
    hide Taken, Distinct, MayTake, Brings;
    var b :| b in blocks[..k] && MayTake(n, payload, payloadLoops, b) && x in Taken(n, b);
    i :| 0 <= i < k && blocks[..k][i] == b;
    TakenIsBrought(n, payload, payloadLoops, b, x);
  }

  lemma TakesWhole(n: Nest, b: Label)
    ensures b in n.inner ==> forall x <- n.inner[b] :: x in Taken(n, b)
  {
  }

  lemma TakenIsBrought(n: Nest, payload: seq<Label>, payloadLoops: set<Label>, b: Label, x: Label)
    requires MayTake(n, payload, payloadLoops, b) && x in Taken(n, b)
    ensures Brings(n, payload, payloadLoops, b, x)
  {
  }

  // ---------- where the choice can be entered ----------

  // Every edge into the chosen blocks from outside comes from the header of the loop or from
  // one of its latches.
  lemma EnteredFromEnds(f: Func, n: Nest, payload: seq<Label>, payloadLoops: set<Label>, selected: seq<Label>, p: Label, b: Label)
    requires Reducible(f, n) && IsLongestPrefix(n, payload, payloadLoops, selected)
    requires p in f.blocks && b in Succs(f, p) && b in selected && p !in selected
    ensures p == n.header || p in n.latches
  {
    hide Reducible, Succs, MayTake, Before, IsCandidates, Taken;
    var blocks, k :| StopsAt(n, payload, payloadLoops, blocks, k, selected);
    var t :| t in blocks[..k] && MayTake(n, payload, payloadLoops, t) && b in Taken(n, t);
    TakenInLoop(f, n, blocks, k, t);
    EntersAtHead(f, n, t, p, b);
    TakesItself(f, n, p);
    if p != n.header && p !in n.latches {
      EarlierTaken(n, blocks, k, p, t);
    }
  }

  // An edge into what t brings in comes from it or from something before t.
  lemma EntersAtHead(f: Func, n: Nest, t: Label, p: Label, b: Label)
    requires Reducible(f, n) && t in n.rpo && t != n.header && p in f.blocks && b in Succs(f, p) && b in Taken(n, t)
    ensures p in Taken(n, t) || (p in n.rpo && Before(n.rpo, p, t))
  {
    hide Succs, Before;
  }

  lemma TakesItself(f: Func, n: Nest, p: Label)
    requires Reducible(f, n)
    ensures p in Taken(n, p)
  {
    hide Succs, Before;
  }

  lemma TakenInLoop(f: Func, n: Nest, blocks: seq<Label>, k: nat, t: Label)
    requires Reducible(f, n) && IsCandidates(n, blocks) && k <= |blocks| && t in blocks[..k]
    ensures t in n.rpo && t != n.header
  {
    hide Succs, Before;
    assert t in blocks;
  }

  lemma EarlierTaken(n: Nest, blocks: seq<Label>, k: nat, p: Label, t: Label)
    requires IsCandidates(n, blocks) && k <= |blocks| && t in blocks[..k] && Before(n.rpo, p, t)
    requires p in n.rpo && p != n.header && p !in n.latches
    ensures p in blocks[..k]
  {
    assert t in blocks && p in blocks && Before(blocks, p, t);
    var i, j :| 0 <= i < j < |blocks| && blocks[i] == p && blocks[j] == t;
    var m :| 0 <= m < k && blocks[..k][m] == t;
    assert m == j;
    assert blocks[..k][i] == p;
  }
}
