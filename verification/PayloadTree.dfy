/** SelectPayloadTrees: groups of payload blocks grown from the blocks that iterator blocks
    lead to, with one blacklist shared by all of them. */
module PayloadTree {
  import opened Ssa

  function Succs(f: Func, b: Label): seq<Label> { if b in f.blocks then f.blocks[b].term.dests else [] }

  // What is known of the loop: its blocks, header and latch, and the blocks of each loop
  // inside it by header.
  datatype LoopShape = LoopShape(blocks: seq<Label>, header: Label, latches: set<Label>, inner: map<Label, set<Label>>)

  // ---------- the blocks that may be taken, and where to start ----------

  function IteratorBlocks(lp: LoopShape, payload: set<Label>): set<Label> { set b | b in lp.blocks && b !in payload }

  function Blacklist(lp: LoopShape, payload: set<Label>): set<Label> {
    IteratorBlocks(lp, payload) + lp.latches + {lp.header}
    + InnerBlocks(lp, IteratorBlocks(lp, payload))
  }

  // The blocks of the inner loops with these headers.
  function InnerBlocks(lp: LoopShape, headers: set<Label>): set<Label> {
    set h, b | h in lp.inner && h in headers && b in lp.inner[h] :: b
  }

  function Allowed(lp: LoopShape, payload: set<Label>): set<Label> { payload - Blacklist(lp, payload) }

  function Roots(f: Func, lp: LoopShape, payload: set<Label>): set<Label> {
    set e | e in Allowed(lp, payload) && exists p <- f.blocks :: p in IteratorBlocks(lp, payload) && e in Succs(f, p)
  }

  // ---------- reachability ----------

  ghost predicate IsPath(f: Func, allowed: set<Label>, p: seq<Label>) {
    && p != [] && (forall b <- p :: b in allowed)
    && forall k :: 0 <= k < |p| - 1 ==> p[k + 1] in Succs(f, p[k])
  }

  ghost predicate Reachable(f: Func, allowed: set<Label>, from: set<Label>, b: Label) {
    exists p :: IsPath(f, allowed, p) && p[0] in from && p[|p| - 1] == b
  }

  lemma ReachStart(f: Func, allowed: set<Label>, from: set<Label>, b: Label)
    requires b in from && b in allowed
    ensures Reachable(f, allowed, from, b)
  {
    assert IsPath(f, allowed, [b]);
  }

  lemma ReachStep(f: Func, allowed: set<Label>, from: set<Label>, a: Label, b: Label)
    requires Reachable(f, allowed, from, a) && b in Succs(f, a) && b in allowed
    ensures Reachable(f, allowed, from, b)
  {
    var p :| IsPath(f, allowed, p) && p[0] in from && p[|p| - 1] == a;
    var q := p + [b];
    forall k | 0 <= k < |q| - 1 ensures q[k + 1] in Succs(f, q[k]) {
      if k < |p| - 1 { assert p[k + 1] in Succs(f, p[k]); }
    }
    assert IsPath(f, allowed, q) && q[0] == p[0] && q[|q| - 1] == b;
  }

  lemma ReachMore(f: Func, allowed: set<Label>, more: set<Label>, from: set<Label>, b: Label)
    requires Reachable(f, allowed, from, b) && allowed <= more
    ensures Reachable(f, more, from, b)
  {
    var p :| IsPath(f, allowed, p) && p[0] in from && p[|p| - 1] == b;
    assert IsPath(f, more, p);
  }

  // A closed set that has the starting points has everything reachable from them.
  lemma {:induction false} ClosedHas(f: Func, allowed: set<Label>, from: set<Label>, seen: set<Label>, p: seq<Label>, n: nat)
    requires IsPath(f, allowed, p) && p[0] in from && from <= seen && n < |p|
    requires forall b <- seen, s <- Succs(f, b) :: s in allowed ==> s in seen
    ensures p[n] in seen
  {
    if n > 0 {
      ClosedHas(f, allowed, from, seen, p, n - 1);
      assert p[n] in Succs(f, p[n - 1]);
    }
  }

  lemma ReachedIsSeen(f: Func, allowed: set<Label>, from: set<Label>, seen: set<Label>)
    requires from <= seen && forall b <- seen, s <- Succs(f, b) :: s in allowed ==> s in seen
    ensures forall b :: Reachable(f, allowed, from, b) ==> b in seen
  {
    forall b | Reachable(f, allowed, from, b) ensures b in seen {
      var p :| IsPath(f, allowed, p) && p[0] in from && p[|p| - 1] == b;
      ClosedHas(f, allowed, from, seen, p, |p| - 1);
    }
  }

  // ---------- the result ----------

  // Every block of a group is reached from the root inside the group.
  ghost predicate Rooted(f: Func, groups: map<Label, set<Label>>) {
    forall r <- groups :: r in groups[r] && forall b <- groups[r] :: Reachable(f, groups[r], {r}, b)
  }

  // Two groups share at most their roots, so a block that is not a root is in one group at
  // most, and a root in its own and at most one other.
  ghost predicate Sparse(groups: map<Label, set<Label>>) {
    forall q <- groups, r <- groups :: q != r ==> forall b <- groups[q] :: b in groups[r] ==> b == q || b == r
  }

  // A root that another group has absorbed has nothing left to add.
  ghost predicate Absorbed(groups: map<Label, set<Label>>) {
    forall q <- groups, r <- groups :: q != r && r in groups[q] ==> groups[r] == {r}
  }

  ghost function Union(groups: map<Label, set<Label>>): set<Label> { set r, b | r in groups && b in groups[r] :: b }

  // ---------- growing one group ----------

  // `seen` are the blocks of the groups grown so far.  Everything the seen blocks lead to is
  // settled when no worklist is pending.
  ghost predicate Settled(f: Func, allowed: set<Label>, seen: set<Label>, pending: set<Label>) {
    forall b <- seen, s <- Succs(f, b) :: s in allowed ==> s in seen || s in pending
  }

  method EnqueueSuccessors(succs: seq<Label>, payload: set<Label>, blacklisted: set<Label>, worklist0: set<Label>) returns (worklist: set<Label>)
    ensures worklist == worklist0 + set s | s in succs && s !in blacklisted && s in payload
  {
    worklist := worklist0;
    var n := 0;
    while n < |succs|
      invariant n <= |succs| && worklist == worklist0 + set s | s in succs[..n] && s !in blacklisted && s in payload
    {
      assert succs[..n + 1] == succs[..n] + [succs[n]];
      if succs[n] !in blacklisted && succs[n] in payload {
        worklist := worklist + {succs[n]};
      }
      n := n + 1;
    }
    assert succs[..n] == succs;
  }

  // The worklist loop for one root, which may have been absorbed by an earlier group.
  method GrowGroup(f: Func, payload: set<Label>, ghost initial: set<Label>, blacklisted0: set<Label>, root: Label)
    returns (blacklisted: set<Label>, group: set<Label>)
    requires initial <= blacklisted0 && root in payload && root !in initial
    requires Settled(f, payload - initial, blacklisted0 - initial, {})
    ensures blacklisted == blacklisted0 + group && root in group && group <= payload - initial
    ensures Settled(f, payload - initial, blacklisted - initial, {})
    ensures forall b <- group :: b == root || b !in blacklisted0
    ensures forall b <- group :: Reachable(f, group, {root}, b)
    ensures root in blacklisted0 ==> group == {root}
  {
    hide Reachable, Succs, Settled, Growing, AllReached;
    var worklist := {root};
    ghost var started := false;
    blacklisted, group := blacklisted0, {root};
    GrowthStarts(f, payload, initial, blacklisted0, root);
    while worklist != {}
      invariant Growing(f, payload, initial, blacklisted0, root, blacklisted, group, worklist, started)
      invariant AllReached(f, root, group, worklist)
      decreases |(payload - initial) - blacklisted|, if started then 0 else 1
    {
      var bb :| bb in worklist;
      ghost var (black1, group1, work1) := (blacklisted, group, worklist);
      worklist := worklist - {bb};
      blacklisted := blacklisted + {bb};
      group := group + {bb};
      worklist := EnqueueSuccessors(Succs(f, bb), payload, blacklisted, worklist);
      GrowthKept(f, payload, initial, blacklisted0, root, black1, group1, work1, started, bb, worklist);
      GrowthReached(f, payload, root, black1 + {bb}, group1, work1, bb, worklist);
      Shrinks(payload - initial, black1, bb);
      started := true;
    }
    GrowthEnds(f, payload, initial, blacklisted0, root, blacklisted, group, started);
  }

  // Where the worklist loop stands: before its first turn, or with everything visited on the
  // blacklist and everything else it leads to on the worklist.
  ghost predicate Growing(f: Func, payload: set<Label>, initial: set<Label>, black0: set<Label>, root: Label,
                          black: set<Label>, group: set<Label>, work: set<Label>, started: bool)
  {
    && work <= payload - initial && group <= payload - initial && root in group && initial <= black0
    && (if started then black == black0 + group && work !! black
        else black == black0 && group == {root} && work == {root} && Settled(f, payload - initial, black - initial, {}))
    && Settled(f, payload - initial, black - initial, work)
    && (forall b <- group :: b == root || b !in black0)
    && (started && root in black0 ==> group == {root} && work == {})
  }

  ghost predicate AllReached(f: Func, root: Label, group: set<Label>, work: set<Label>) {
    forall b <- group + work :: Reachable(f, group + work, {root}, b)
  }

  lemma GrowthStarts(f: Func, payload: set<Label>, initial: set<Label>, black0: set<Label>, root: Label)
    requires initial <= black0 && root in payload && root !in initial && Settled(f, payload - initial, black0 - initial, {})
    ensures Growing(f, payload, initial, black0, root, black0, {root}, {root}, false) && AllReached(f, root, {root}, {root})
  {
    ReachStart(f, {root}, {root}, root);
    assert {root} + {root} == {root};
  }

  lemma GrowthEnds(f: Func, payload: set<Label>, initial: set<Label>, black0: set<Label>, root: Label,
                   black: set<Label>, group: set<Label>, started: bool)
    requires Growing(f, payload, initial, black0, root, black, group, {}, started) && AllReached(f, root, group, {})
    ensures started && black == black0 + group && root in group && group <= payload - initial
    ensures Settled(f, payload - initial, black - initial, {})
    ensures forall b <- group :: b == root || b !in black0
    ensures forall b <- group :: Reachable(f, group, {root}, b)
    ensures root in black0 ==> group == {root}
  {
    hide Reachable, Settled;
    assert group + {} == group;
  }

  lemma Shrinks(allowed: set<Label>, black: set<Label>, bb: Label)
    ensures |allowed - (black + {bb})| <= |allowed - black|
    ensures bb in allowed && bb !in black ==> |allowed - (black + {bb})| < |allowed - black|
  {
    var (a, b) := (allowed - black, allowed - (black + {bb}));
    if bb in a {
      assert a == b + {bb};
    } else {
      assert a == b;
    }
  }

  // An absorbed root leads only to blocks that have been seen.
  lemma NothingLeft(f: Func, payload: set<Label>, initial: set<Label>, black: set<Label>, root: Label)
    requires Settled(f, payload - initial, black - initial, {}) && root in black && root !in initial && initial <= black
    ensures forall s <- Succs(f, root) :: s in payload ==> s in black
  {
    assert root in black - initial;
    forall s | s in Succs(f, root) && s in payload ensures s in black {
      assert s !in initial ==> s in payload - initial;
    }
  }

  lemma GrowthKept(f: Func, payload: set<Label>, initial: set<Label>, black0: set<Label>, root: Label,
                   black: set<Label>, group: set<Label>, work: set<Label>, started: bool, bb: Label, work1: set<Label>)
    requires Growing(f, payload, initial, black0, root, black, group, work, started) && bb in work
    requires work1 == (work - {bb}) + set s | s in Succs(f, bb) && s !in black + {bb} && s in payload
    ensures Growing(f, payload, initial, black0, root, black + {bb}, group + {bb}, work1, true)
    ensures bb in payload - initial && (started ==> bb !in black)
  {
    hide Succs;
    if !started && root in black0 { NothingLeft(f, payload, initial, black0, root); }
  }

  lemma GrowthReached(f: Func, payload: set<Label>, root: Label, black: set<Label>, group: set<Label>, work: set<Label>, bb: Label, work1: set<Label>)
    requires AllReached(f, root, group, work) && bb in work
    requires work1 == (work - {bb}) + set s | s in Succs(f, bb) && s !in black && s in payload
    ensures AllReached(f, root, group + {bb}, work1)
  {
    hide Reachable, Succs;
    var (old1, new1) := (group + work, (group + {bb}) + work1);
    forall b | b in new1 ensures Reachable(f, new1, {root}, b) {
      if b in old1 {
        ReachMore(f, old1, new1, {root}, b);
      } else {
        ReachMore(f, old1, new1, {root}, bb);
        ReachStep(f, new1, {root}, bb, b);
      }
    }
  }

  // ---------- the whole selection ----------

  // The sets before any group has grown.
  method FindIteratorBlocks(lp: LoopShape, payload: set<Label>) returns (iterators: set<Label>)
    ensures iterators == IteratorBlocks(lp, payload)
  {
    iterators := {};
    var n := 0;
    while n < |lp.blocks|
      invariant n <= |lp.blocks| && iterators == set b | b in lp.blocks[..n] && b !in payload
    {
      var e := lp.blocks[n];
      assert lp.blocks[..n + 1] == lp.blocks[..n] + [e];
      if e !in payload {
        iterators := iterators + {e};
      }
      n := n + 1;
    }
    assert lp.blocks[..n] == lp.blocks;
  }

  method FindBlacklist(lp: LoopShape, payload: set<Label>) returns (iterators: set<Label>, blacklisted: set<Label>)
    ensures iterators == IteratorBlocks(lp, payload) && blacklisted == Blacklist(lp, payload)
  {
    hide IteratorBlocks, InnerBlocks;
    iterators := FindIteratorBlocks(lp, payload);
    blacklisted := iterators + lp.latches;
    blacklisted := blacklisted + {lp.header};
    ghost var base := blacklisted;
    var rest := iterators;
    NoInner(lp);
    assert iterators - rest == {};
    while rest != {}
      invariant rest <= iterators && blacklisted == base + InnerBlocks(lp, iterators - rest)
      decreases |rest|
    {
      var bb :| bb in rest;
      if bb in lp.inner {
        blacklisted := blacklisted + lp.inner[bb];
      }
      InnerMore(lp, iterators - rest, bb);
      assert iterators - (rest - {bb}) == (iterators - rest) + {bb};
      rest := rest - {bb};
    }
    assert iterators - rest == iterators;
  }

  lemma NoInner(lp: LoopShape)
    ensures InnerBlocks(lp, {}) == {}
  {
  }

  lemma InnerMore(lp: LoopShape, headers: set<Label>, h: Label)
    ensures InnerBlocks(lp, headers + {h}) == InnerBlocks(lp, headers) + if h in lp.inner then lp.inner[h] else {}
  {
  }

  method FindRoots(f: Func, lp: LoopShape, payload: set<Label>, iterators: set<Label>, blacklisted: set<Label>) returns (roots: set<Label>)
    requires iterators == IteratorBlocks(lp, payload) && blacklisted == Blacklist(lp, payload)
    ensures roots == Roots(f, lp, payload)
  {
    hide Blacklist, IteratorBlocks, Succs, Roots;
    roots := {};
    forall e | e in Roots(f, lp, payload) ensures e in payload { RootIs(f, lp, payload, e); }
    var rest := payload;
    while rest != {}
      invariant rest <= payload && roots == Roots(f, lp, payload) * (payload - rest)
      decreases |rest|
    {
      var e :| e in rest;
      RootIs(f, lp, payload, e);
      if e !in blacklisted && exists p <- f.blocks :: p in iterators && e in Succs(f, p) {
        roots := roots + {e};
      }
      rest := rest - {e};
    }
  }

  lemma RootIs(f: Func, lp: LoopShape, payload: set<Label>, e: Label)
    ensures e in Roots(f, lp, payload) <==>
              e in payload && e !in Blacklist(lp, payload) && exists p <- f.blocks :: p in IteratorBlocks(lp, payload) && e in Succs(f, p)
  {
    hide Blacklist, IteratorBlocks, Succs;
  }

  // The groups grown so far, of the roots in `done`.
  ghost predicate Grown(f: Func, payload: set<Label>, initial: set<Label>, black: set<Label>, groups: map<Label, set<Label>>, done: set<Label>) {
    && done <= groups.Keys && black == initial + UnionOf(groups, done) && Settled(f, payload - initial, black - initial, {})
    && GroupsGrown(f, payload - initial, groups, done) && GroupsApart(groups, done)
  }

  ghost predicate GroupsGrown(f: Func, allowed: set<Label>, groups: map<Label, set<Label>>, done: set<Label>) {
    forall r <- groups ::
      && r in allowed && r in groups[r] && groups[r] <= allowed && (r !in done ==> groups[r] == {r})
      && forall b <- groups[r] :: Reachable(f, groups[r], {r}, b)
  }

  ghost predicate GroupsApart(groups: map<Label, set<Label>>, done: set<Label>) {
    forall q <- groups, r <- groups :: q != r && q in done && r in done ==>
      (forall b <- groups[q] :: b in groups[r] ==> b == q || b == r) && (r in groups[q] ==> groups[r] == {r})
  }

  ghost function UnionOf(groups: map<Label, set<Label>>, done: set<Label>): set<Label> {
    set r, b | r in groups && r in done && b in groups[r] :: b
  }

  lemma GrownStarts(f: Func, payload: set<Label>, initial: set<Label>, roots: set<Label>)
    requires roots <= payload - initial
    ensures Grown(f, payload, initial, initial, map r | r in roots :: {r}, {})
  {
    hide Reachable;
    forall r | r in roots ensures Reachable(f, {r}, {r}, r) { ReachStart(f, {r}, {r}, r); }
  }

  lemma UnionMore(groups: map<Label, set<Label>>, done: set<Label>, r: Label, group: set<Label>)
    requires r in groups && r !in done && done <= groups.Keys
    ensures UnionOf(groups[r := group], done + {r}) == UnionOf(groups, done) + group
  {
    var (a, b) := (UnionOf(groups[r := group], done + {r}), UnionOf(groups, done) + group);
    forall x | x in a ensures x in b {
      var q :| q in groups && q in done + {r} && x in groups[r := group][q];
    }
    forall x | x in b ensures x in a {
      if x in group {
        assert x in groups[r := group][r];
      } else {
        var q :| q in groups && q in done && x in groups[q];
        assert x in groups[r := group][q];
      }
    }
  }

  lemma ApartMore(groups: map<Label, set<Label>>, done: set<Label>, r: Label, group: set<Label>, black: set<Label>)
    requires GroupsApart(groups, done) && r in groups && r !in done && done <= groups.Keys && UnionOf(groups, done) <= black
    requires (forall b <- group :: b == r || b !in black) && (r in black ==> group == {r})
    requires forall q <- groups :: q in groups[q]
    ensures GroupsApart(groups[r := group], done + {r})
  {
    forall q, b | q in done && b in groups[q] ensures b in black {
      assert b in UnionOf(groups, done);
    }
    hide UnionOf;
  }

  lemma GrownMore(f: Func, payload: set<Label>, initial: set<Label>, black: set<Label>, groups: map<Label, set<Label>>, done: set<Label>,
                  r: Label, black1: set<Label>, group: set<Label>)
    requires Grown(f, payload, initial, black, groups, done) && r in groups && r !in done
    requires black1 == black + group && r in group && group <= payload - initial && Settled(f, payload - initial, black1 - initial, {})
    requires (forall b <- group :: b == r || b !in black) && (r in black ==> group == {r})
    requires forall b <- group :: Reachable(f, group, {r}, b)
    ensures Grown(f, payload, initial, black1, groups[r := group], done + {r})
  {
    hide Reachable, Settled, UnionOf, GroupsApart;
    UnionMore(groups, done, r, group);
    ApartMore(groups, done, r, group, black);
  }

  method SelectPayloadTrees(f: Func, lp: LoopShape, payload: set<Label>) returns (groups: map<Label, set<Label>>)
    ensures groups.Keys == Roots(f, lp, payload)
    ensures forall b :: b in Union(groups) <==> Reachable(f, Allowed(lp, payload), Roots(f, lp, payload), b)
    ensures Rooted(f, groups) && Sparse(groups) && Absorbed(groups)
    ensures EndsOfPaths(f, lp, payload, groups)
  {
    hide Blacklist, Succs, Grown, Settled, Reachable, Union, Rooted, Sparse, Absorbed, Roots, Allowed, EndsOfPaths;
    RootsAllowed(f, lp, payload);
    var iterators, blacklisted := FindBlacklist(lp, payload);
    ghost var initial := blacklisted;
    var roots := FindRoots(f, lp, payload, iterators, blacklisted);
    groups := map r | r in roots :: {r};
    GrownStarts(f, payload, initial, roots);
    var rest := roots;
    assert roots - rest == {};
    while rest != {}
      invariant rest <= roots == groups.Keys
      invariant Grown(f, payload, initial, blacklisted, groups, roots - rest)
      decreases |rest|
    {
      var r :| r in rest;
      GrownNow(f, payload, initial, blacklisted, groups, roots - rest, r);
      ghost var (black1, groups1) := (blacklisted, groups);
      var group;
      blacklisted, group := GrowGroup(f, payload, initial, blacklisted, r);
      GrownMore(f, payload, initial, black1, groups1, roots - rest, r, blacklisted, group);
      groups := groups[r := group];
      assert roots - (rest - {r}) == (roots - rest) + {r};
      rest := rest - {r};
    }
    assert roots - rest == roots;
    GrownAll(f, payload, initial, blacklisted, groups, roots);
    UnionIsReach(f, payload, initial, blacklisted, groups, roots);
    GroupsArePaths(f, lp, payload, groups);
  }

  // A path of payload blocks that are neither the header nor a latch nor in an inner loop whose
  // header is not payload, starting behind a block of the loop that is not payload.
  ghost predicate PayloadPath(f: Func, lp: LoopShape, payload: set<Label>, p: seq<Label>) {
    && p != [] && (exists q <- f.blocks :: q in lp.blocks && q !in payload && p[0] in f.blocks[q].term.dests)
    && (forall k :: 0 <= k < |p| - 1 ==> p[k] in f.blocks && p[k + 1] in f.blocks[p[k]].term.dests)
    && forall k :: 0 <= k < |p| ==>
         && p[k] in payload && p[k] != lp.header && p[k] !in lp.latches
         && forall h <- lp.inner :: h in lp.blocks && h !in payload ==> p[k] !in lp.inner[h]
  }

  // The groups hold exactly what such paths lead to.
  ghost predicate EndsOfPaths(f: Func, lp: LoopShape, payload: set<Label>, groups: map<Label, set<Label>>) {
    && (forall r <- groups, b <- groups[r] :: exists p :: PayloadPath(f, lp, payload, p) && p[|p| - 1] == b)
    && forall p :: PayloadPath(f, lp, payload, p) ==> exists r <- groups :: p[|p| - 1] in groups[r]
  }

  // What the blacklist leaves over.
  lemma AllowedIs(lp: LoopShape, payload: set<Label>, b: Label)
    ensures b in Allowed(lp, payload) <==>
              && b in payload && b != lp.header && b !in lp.latches
              && forall h <- lp.inner :: h in lp.blocks && h !in payload ==> b !in lp.inner[h]
  {
    forall h | h in lp.inner && h in lp.blocks && h !in payload && b in lp.inner[h] ensures b in InnerBlocks(lp, IteratorBlocks(lp, payload)) {}
  }

  lemma RootIsBehindIterator(f: Func, lp: LoopShape, payload: set<Label>, b: Label)
    ensures b in Roots(f, lp, payload) <==>
              b in Allowed(lp, payload) && exists q <- f.blocks :: q in lp.blocks && q !in payload && b in f.blocks[q].term.dests
  {
    hide Allowed;
  }

  lemma PathIsPayload(f: Func, lp: LoopShape, payload: set<Label>, p: seq<Label>)
    ensures PayloadPath(f, lp, payload, p) <==> IsPath(f, Allowed(lp, payload), p) && p[0] in Roots(f, lp, payload)
  {
    hide Allowed, Roots;
    forall k | 0 <= k < |p|
      ensures p[k] in Allowed(lp, payload) <==>
                && p[k] in payload && p[k] != lp.header && p[k] !in lp.latches
                && forall h <- lp.inner :: h in lp.blocks && h !in payload ==> p[k] !in lp.inner[h]
    {
      AllowedIs(lp, payload, p[k]);
    }
    if p != [] {
      RootIsBehindIterator(f, lp, payload, p[0]);
      if PayloadPath(f, lp, payload, p) {
        forall b | b in p ensures b in Allowed(lp, payload) {}
        forall k | 0 <= k < |p| - 1 ensures p[k + 1] in Succs(f, p[k]) {}
      }
      if IsPath(f, Allowed(lp, payload), p) {
        forall k | 0 <= k < |p| ensures p[k] in Allowed(lp, payload) { assert p[k] in p; }
        forall k | 0 <= k < |p| - 1 ensures p[k] in f.blocks && p[k + 1] in f.blocks[p[k]].term.dests { assert p[k + 1] in Succs(f, p[k]); }
      }
    }
  }

  lemma GroupsArePaths(f: Func, lp: LoopShape, payload: set<Label>, groups: map<Label, set<Label>>)
    requires forall b :: b in Union(groups) <==> Reachable(f, Allowed(lp, payload), Roots(f, lp, payload), b)
    ensures EndsOfPaths(f, lp, payload, groups)
  {
    hide Allowed, Roots, Succs;
    forall r, b | r in groups && b in groups[r] ensures exists p :: PayloadPath(f, lp, payload, p) && p[|p| - 1] == b {
      assert b in Union(groups);
      var p :| IsPath(f, Allowed(lp, payload), p) && p[0] in Roots(f, lp, payload) && p[|p| - 1] == b;
      PathIsPayload(f, lp, payload, p);
    }
    forall p | PayloadPath(f, lp, payload, p) ensures exists r <- groups :: p[|p| - 1] in groups[r] {
      PathIsPayload(f, lp, payload, p);
      assert Reachable(f, Allowed(lp, payload), Roots(f, lp, payload), p[|p| - 1]);
      assert p[|p| - 1] in Union(groups);
    }
  }

  lemma GrownNow(f: Func, payload: set<Label>, initial: set<Label>, black: set<Label>, groups: map<Label, set<Label>>, done: set<Label>, r: Label)
    requires Grown(f, payload, initial, black, groups, done) && r in groups
    ensures r in payload && r !in initial && initial <= black && Settled(f, payload - initial, black - initial, {})
  {
    hide Settled, Reachable;
  }

  lemma GrownAll(f: Func, payload: set<Label>, initial: set<Label>, black: set<Label>, groups: map<Label, set<Label>>, roots: set<Label>)
    requires Grown(f, payload, initial, black, groups, roots) && groups.Keys == roots
    ensures Rooted(f, groups) && Sparse(groups) && Absorbed(groups)
  {
    hide Settled, Reachable;
  }

  lemma RootsAllowed(f: Func, lp: LoopShape, payload: set<Label>)
    ensures Roots(f, lp, payload) <= Allowed(lp, payload) && Allowed(lp, payload) == payload - Blacklist(lp, payload)
  {
    hide Blacklist, Succs, IteratorBlocks;
  }

  // The union is what can be reached, whatever order the roots were taken in.
  lemma UnionIsReach(f: Func, payload: set<Label>, initial: set<Label>, black: set<Label>, groups: map<Label, set<Label>>, roots: set<Label>)
    requires Grown(f, payload, initial, black, groups, roots) && groups.Keys == roots
    ensures forall b :: b in Union(groups) <==> Reachable(f, payload - initial, roots, b)
  {
    hide Reachable, Union, GroupsApart, UnionOf, Settled, Succs;
    var (seen, allowed) := (Union(groups), payload - initial);
    UnionsAgree(groups, roots);
    forall b | b in seen ensures Reachable(f, allowed, roots, b) && b in allowed { SeenIsReached(f, allowed, groups, roots, b); }
    assert black - initial == seen;
    forall r | r in roots ensures r in seen { assert r in groups[r]; }
    SettledCloses(f, allowed, seen);
    ReachedIsSeen(f, allowed, roots, seen);
  }

  lemma UnionsAgree(groups: map<Label, set<Label>>, roots: set<Label>)
    requires groups.Keys == roots
    ensures Union(groups) == UnionOf(groups, roots) && forall r <- groups, b <- groups[r] :: b in Union(groups)
  {
  }

  lemma SettledCloses(f: Func, allowed: set<Label>, seen: set<Label>)
    requires Settled(f, allowed, seen, {})
    ensures forall b <- seen, s <- Succs(f, b) :: s in allowed ==> s in seen
  {
  }

  lemma SeenIsReached(f: Func, allowed: set<Label>, groups: map<Label, set<Label>>, roots: set<Label>, b: Label)
    requires GroupsGrown(f, allowed, groups, roots) && groups.Keys == roots && b in Union(groups)
    ensures Reachable(f, allowed, roots, b) && b in allowed
  {
    hide Reachable;
    var r :| r in groups && b in groups[r];
    ReachMore(f, groups[r], allowed, {r}, b);
    ReachFromMore(f, allowed, {r}, roots, b);
  }

  lemma ReachFromMore(f: Func, allowed: set<Label>, from: set<Label>, more: set<Label>, b: Label)
    requires Reachable(f, allowed, from, b) && from <= more
    ensures Reachable(f, allowed, more, b)
  {
    var p :| IsPath(f, allowed, p) && p[0] in from && p[|p| - 1] == b;
    assert p[0] in more;
  }
}
