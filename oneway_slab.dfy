/** One-way panels: the chain of one-way panels continuous across their long
    edges, its support gridlines and spans, the TS 500 moment coefficients
    applied per span, and the reinforcement rules of the one-way report. */
module OnewaySlab {
  import opened Common
  import opened Tables
  import opened StructDesign
  import opened SlabModel

  // ---------------------------------------------------------------------
  // Chain of one-way panels
  // ---------------------------------------------------------------------

  predicate IsKind(g: Grid, id: string, k: Kind)
  {
    id in g.slabs && g.slabs[id].kind == k
  }

  predicate AllKnown(g: Grid, xs: seq<string>)
  {
    forall x :: x in xs ==> x in g.slabs
  }

  /** Every box of the grid has its corners in order. */
  predicate BoxesOrdered(g: Grid)
  {
    forall id :: id in g.slabs ==> g.slabs[id].i0 <= g.slabs[id].i1 && g.slabs[id].j0 <= g.slabs[id].j1
  }

  /** Each element occurs at most once. */
  ghost predicate NoDup(xs: seq<string>)
  {
    forall x :: multiset(xs)[x] <= 1
  }

  lemma NoDupAppend(xs: seq<string>, ys: seq<string>)
    requires NoDup(xs) && NoDup(ys)
    requires forall y :: y in ys ==> y !in xs
    ensures NoDup(xs + ys)
  {
    forall x ensures multiset(xs + ys)[x] <= 1 {
      if x in ys {
        assert x !in multiset(xs);
      } else {
        assert x !in multiset(ys);
      }
    }
  }

  /** The sort key of a chain along the long-edge axis a: the panel's first
      cell index along a (i0 for X, j0 for Y). */
  function Key(g: Grid, a: Axis, x: string): int
    requires x in g.slabs
  {
    SpanLo(g.slabs[x], a)
  }

  predicate SortedByKey(g: Grid, a: Axis, xs: seq<string>)
    requires AllKnown(g, xs)
  {
    forall i, j :: 0 <= i < j < |xs| ==> Key(g, a, xs[i]) <= Key(g, a, xs[j])
  }

  lemma ConsSortedByKey(g: Grid, a: Axis, h: string, rest: seq<string>)
    requires h in g.slabs && AllKnown(g, rest) && SortedByKey(g, a, rest)
    requires |rest| > 0 ==> Key(g, a, h) <= Key(g, a, rest[0])
    ensures AllKnown(g, [h] + rest) && SortedByKey(g, a, [h] + rest)
  {
    var r := [h] + rest;
    forall i, j | 0 <= i < j < |r|
      ensures Key(g, a, r[i]) <= Key(g, a, r[j])
    {
      if i == 0 {
        assert r[j] == rest[j - 1];
      } else {
        assert r[i] == rest[i - 1] && r[j] == rest[j - 1];
      }
    }
  }

  /** Inserts x after every element whose key is at most x's (keeps the
      sort stable). */
  function InsertByKey(g: Grid, a: Axis, xs: seq<string>, x: string): (r: seq<string>)
    requires x in g.slabs && AllKnown(g, xs) && SortedByKey(g, a, xs)
    ensures AllKnown(g, r) && SortedByKey(g, a, r)
    ensures multiset(r) == multiset(xs) + multiset{x}
    ensures r[0] == x || (|xs| > 0 && r[0] == xs[0])
  {
    if |xs| == 0 then [x]
    else if Key(g, a, x) < Key(g, a, xs[0]) then
      ConsSortedByKey(g, a, x, xs);
      [x] + xs
    else
      var rest := InsertByKey(g, a, xs[1..], x);
      InsertAfterHead(g, a, xs, x, rest);
      [xs[0]] + rest
  }

  /** x inserted into the tail of xs, after a head whose key is at most x's,
      gives back a sorted list holding xs and x. */
  lemma InsertAfterHead(g: Grid, a: Axis, xs: seq<string>, x: string, rest: seq<string>)
    requires |xs| > 0 && x in g.slabs && AllKnown(g, xs) && SortedByKey(g, a, xs)
    requires Key(g, a, xs[0]) <= Key(g, a, x)
    requires AllKnown(g, rest) && SortedByKey(g, a, rest)
    requires multiset(rest) == multiset(xs[1..]) + multiset{x}
    requires |rest| > 0 && (rest[0] == x || (|xs| > 1 && rest[0] == xs[1]))
    ensures AllKnown(g, [xs[0]] + rest) && SortedByKey(g, a, [xs[0]] + rest)
    ensures multiset([xs[0]] + rest) == multiset(xs) + multiset{x}
  {
    assert xs == [xs[0]] + xs[1..];
    assert multiset([xs[0]] + rest) == multiset{xs[0]} + multiset(rest);
    ConsSortedByKey(g, a, xs[0], rest);
  }

  /** Python's stable sort of the chain by key. */
  function SortByKey(g: Grid, a: Axis, xs: seq<string>): (r: seq<string>)
    requires AllKnown(g, xs)
    ensures AllKnown(g, r) && SortedByKey(g, a, r) && multiset(r) == multiset(xs)
  {
    if |xs| == 0 then []
    else
      assert xs == xs[..|xs| - 1] + [xs[|xs| - 1]];
      InsertByKey(g, a, SortByKey(g, a, xs[..|xs| - 1]), xs[|xs| - 1])
  }

  /** Every one-way neighbour across the side Start or End (along a) of a
      member is a member. */
  ghost predicate ChainClosed(g: Grid, a: Axis, chain: seq<string>)
  {
    forall x, side, n :: x in chain && x in g.slabs && n in NeighborsOnSide(g, x, a, side) && IsKind(g, n, Oneway)
                         ==> n in chain
  }

  /** x lies across a side (along a) of one of the panels of order. */
  ghost predicate LinkedTo(g: Grid, a: Axis, order: seq<string>, x: string)
  {
    exists j, side :: 0 <= j < |order| && order[j] in g.slabs && x in NeighborsOnSide(g, order[j], a, side)
  }

  /** order starts at sid and each later panel lies across a side (along a)
      of an earlier one: an order in which a flood from sid can discover
      its panels. */
  ghost predicate DiscoveredFrom(g: Grid, a: Axis, sid: string, order: seq<string>)
  {
    && |order| > 0 && order[0] == sid
    && forall k :: 0 < k < |order| ==> LinkedTo(g, a, order[..k], order[k])
  }

  /** Every member of chain is reached from sid: the members, listed in
      some order, are discovered from sid in that order. */
  ghost predicate ReachedFrom(g: Grid, a: Axis, sid: string, chain: seq<string>)
  {
    exists order :: DiscoveredFrom(g, a, sid, order) && multiset(order) == multiset(chain)
  }

  /** The chain of a one-way seed along long-edge axis a: it holds the seed,
      only one-way panels, each once, in key order; it is closed under
      one-way adjacency across the long edges, and every member is reached
      from the seed across those edges. */
  ghost predicate ChainShape(g: Grid, sid: string, a: Axis, chain: seq<string>)
  {
    && sid in chain
    && ReachedFrom(g, a, sid, chain)
    && (forall x :: x in chain ==> IsKind(g, x, Oneway))
    && NoDup(chain)
    && AllKnown(g, chain)
    && SortedByKey(g, a, chain)
    && ChainClosed(g, a, chain)
  }

  /** The worklist's termination measure, the known panels not yet seen,
      shrinks whenever something is pushed and never grows. */
  lemma UnseenShrinks(g: Grid, seen: set<string>, seen2: set<string>, pushed: seq<string>)
    requires seen <= seen2
    requires forall x :: x in pushed ==> x !in seen && x in seen2 && x in g.slabs
    ensures g.slabs.Keys - seen2 < g.slabs.Keys - seen
            || (g.slabs.Keys - seen2 == g.slabs.Keys - seen && |pushed| == 0)
  {
    if |pushed| > 0 {
      assert pushed[0] in g.slabs.Keys - seen;
    }
  }

  /** What a pass over neighbours keeps: the pushed panels are exactly the
      one-way ones among those newly seen, each once. */
  ghost predicate VisitInv(g: Grid, seen: set<string>, seen': set<string>, pushed: seq<string>)
  {
    && (forall x :: x in pushed ==> x !in seen && x in seen' && IsKind(g, x, Oneway))
    && (forall n :: n in seen' && n !in seen && IsKind(g, n, Oneway) ==> n in pushed)
    && NoDup(pushed)
  }

  /** The inner loop's invariant: seen' is seen plus the neighbours already
      visited. */
  ghost predicate VisitLoopInv(g: Grid, nbs: set<string>, seen: set<string>, rest: set<string>,
                               seen': set<string>, pushed: seq<string>)
  {
    rest <= nbs && seen' == seen + (nbs - rest) && VisitInv(g, seen, seen', pushed)
  }

  lemma VisitSkip(g: Grid, nbs: set<string>, seen: set<string>, rest: set<string>,
                  seen': set<string>, pushed: seq<string>, nb: string)
    requires VisitLoopInv(g, nbs, seen, rest, seen', pushed) && nb in rest && nb in seen'
    ensures VisitLoopInv(g, nbs, seen, rest - {nb}, seen', pushed)
  {
    assert nbs - (rest - {nb}) == (nbs - rest) + {nb};
  }

  /** A newly seen one-way panel is pushed. */
  lemma VisitPush(g: Grid, nbs: set<string>, seen: set<string>, rest: set<string>,
                  seen': set<string>, pushed: seq<string>, nb: string)
    requires VisitLoopInv(g, nbs, seen, rest, seen', pushed) && nb in rest && nb !in seen'
    requires IsKind(g, nb, Oneway)
    ensures VisitLoopInv(g, nbs, seen, rest - {nb}, seen' + {nb}, pushed + [nb])
  {
    assert nbs - (rest - {nb}) == (nbs - rest) + {nb};
    NoDupAppend(pushed, [nb]);
  }

  /** Any other newly seen id is only marked seen. */
  lemma VisitMark(g: Grid, nbs: set<string>, seen: set<string>, rest: set<string>,
                  seen': set<string>, pushed: seq<string>, nb: string)
    requires VisitLoopInv(g, nbs, seen, rest, seen', pushed) && nb in rest && nb !in seen'
    requires !IsKind(g, nb, Oneway)
    ensures VisitLoopInv(g, nbs, seen, rest - {nb}, seen' + {nb}, pushed)
  {
    assert nbs - (rest - {nb}) == (nbs - rest) + {nb};
  }

  /** One pass of the worklist over the neighbours of u across one side:
      every neighbour becomes seen, and the one-way panels among the newly
      seen ones are the ones pushed, each once. */
  method VisitNeighbours(g: Grid, u: string, a: Axis, side: Side, seen: set<string>)
    returns (seen': set<string>, pushed: seq<string>)
    requires u in g.slabs
    ensures seen' == seen + NeighborsOnSide(g, u, a, side)
    ensures VisitInv(g, seen, seen', pushed)
  {
    seen', pushed := VisitAll(g, NeighborsOnSide(g, u, a, side), seen);
  }

  /** The inner loop of a pass, over any set of neighbour ids. */
  method VisitAll(g: Grid, nbs: set<string>, seen: set<string>) returns (seen': set<string>, pushed: seq<string>)
    ensures seen' == seen + nbs
    ensures VisitInv(g, seen, seen', pushed)
  {
    var rest := nbs;
    pushed := [];
    seen' := seen;
    while rest != {}
      invariant VisitLoopInv(g, nbs, seen, rest, seen', pushed)
      decreases |rest|
    {
      var nb :| nb in rest;
      if nb in seen' {
        VisitSkip(g, nbs, seen, rest, seen', pushed, nb);
        rest := rest - {nb};
        continue;
      }
      if nb in g.slabs && g.slabs[nb].kind == Oneway {
        VisitPush(g, nbs, seen, rest, seen', pushed, nb);
        pushed := pushed + [nb];
      } else {
        VisitMark(g, nbs, seen, rest, seen', pushed, nb);
      }
      rest := rest - {nb};
      seen' := seen' + {nb};
    }
  }

  /** The invariant of the worklist loop: members done (acc) and pending
      (stack) are one-way, seen, and distinct; the seed is among them; every
      seen one-way panel is among them; and every neighbour of a done member
      has been seen. */
  ghost predicate WorkInv(g: Grid, sid: string, a: Axis, acc: seq<string>, stack: seq<string>, seen: set<string>)
  {
    && (forall x :: x in acc ==> IsKind(g, x, Oneway) && x in seen)
    && (forall x :: x in stack ==> IsKind(g, x, Oneway) && x in seen)
    && NoDup(acc + stack)
    && (sid in acc || sid in stack)
    && (forall n :: n in seen && IsKind(g, n, Oneway) ==> n in acc || n in stack)
    && (forall x, side, n :: x in acc && x in g.slabs && n in NeighborsOnSide(g, x, a, side) ==> n in seen)
  }

  /** Distinctness is kept when pushing panels that were not yet seen. */
  lemma StepNoDup(acc: seq<string>, stack0: seq<string>, u: string, p1: seq<string>, p2: seq<string>,
                  seen: set<string>, seen1: set<string>)
    requires NoDup(acc + (stack0 + [u])) && NoDup(p1) && NoDup(p2)
    requires forall x :: x in acc ==> x in seen
    requires forall x :: x in stack0 + [u] ==> x in seen
    requires seen <= seen1
    requires forall x :: x in p1 ==> x !in seen && x in seen1
    requires forall x :: x in p2 ==> x !in seen1
    ensures NoDup((acc + [u]) + (stack0 + p1 + p2))
  {
    assert multiset((acc + [u]) + stack0) == multiset(acc + (stack0 + [u]));
    forall y | y in p1 ensures y !in (acc + [u]) + stack0 {
      assert y !in seen;
    }
    NoDupAppend((acc + [u]) + stack0, p1);
    forall y | y in p2 ensures y !in ((acc + [u]) + stack0) + p1 {
      assert y !in seen1;
    }
    NoDupAppend(((acc + [u]) + stack0) + p1, p2);
    assert (acc + [u]) + (stack0 + p1 + p2) == ((acc + [u]) + stack0) + p1 + p2;
  }

  lemma StepKeepsInv(g: Grid, sid: string, a: Axis, acc: seq<string>, stack0: seq<string>, u: string,
                     seen: set<string>, seen1: set<string>, p1: seq<string>, seen2: set<string>, p2: seq<string>)
    requires WorkInv(g, sid, a, acc, stack0 + [u], seen)
    requires u in g.slabs
    requires seen1 == seen + NeighborsOnSide(g, u, a, Start) && VisitInv(g, seen, seen1, p1)
    requires seen2 == seen1 + NeighborsOnSide(g, u, a, End) && VisitInv(g, seen1, seen2, p2)
    ensures WorkInv(g, sid, a, acc + [u], stack0 + p1 + p2, seen2)
  {
    var st := stack0 + [u];
    assert u in st;
    forall x | x in stack0 ensures x in st { }
    StepNoDup(acc, stack0, u, p1, p2, seen, seen1);
    forall x, side, n | x in acc + [u] && x in g.slabs && n in NeighborsOnSide(g, x, a, side)
      ensures n in seen2
    {
      if x != u {
        assert x in acc;
      } else if side != Start {
        assert side == End;
      }
    }
  }

  /** The discovery half of the worklist invariant: before the first pop
      the stack is [sid]; afterwards the done members are in discovery
      order from sid and each pending panel lies across a side of a done
      member. */
  ghost predicate OrderInv(g: Grid, sid: string, a: Axis, acc: seq<string>, stack: seq<string>)
  {
    && (|acc| == 0 ==> stack == [sid])
    && (|acc| > 0 ==> DiscoveredFrom(g, a, sid, acc) && forall x :: x in stack ==> LinkedTo(g, a, acc, x))
  }

  lemma LinkedToExtend(g: Grid, a: Axis, acc: seq<string>, u: string, x: string)
    requires LinkedTo(g, a, acc, x)
    ensures LinkedTo(g, a, acc + [u], x)
  {
    var j, side :| 0 <= j < |acc| && acc[j] in g.slabs && x in NeighborsOnSide(g, acc[j], a, side);
    assert (acc + [u])[j] == acc[j];
  }

  lemma LinkedToLast(g: Grid, a: Axis, acc: seq<string>, u: string, side: Side, x: string)
    requires u in g.slabs && x in NeighborsOnSide(g, u, a, side)
    ensures LinkedTo(g, a, acc + [u], x)
  {
    assert (acc + [u])[|acc|] == u;
  }

  /** One worklist step keeps the discovery order: the popped panel u is
      discovered, and the panels pushed lie across a side of u. */
  lemma StepKeepsOrder(g: Grid, sid: string, a: Axis, acc: seq<string>, stack0: seq<string>, u: string,
                       seen: set<string>, seen1: set<string>, p1: seq<string>, seen2: set<string>, p2: seq<string>)
    requires OrderInv(g, sid, a, acc, stack0 + [u])
    requires u in g.slabs
    requires seen1 == seen + NeighborsOnSide(g, u, a, Start) && VisitInv(g, seen, seen1, p1)
    requires seen2 == seen1 + NeighborsOnSide(g, u, a, End) && VisitInv(g, seen1, seen2, p2)
    ensures OrderInv(g, sid, a, acc + [u], stack0 + p1 + p2)
  {
    var acc' := acc + [u];
    forall x | x in stack0 + p1 + p2 ensures LinkedTo(g, a, acc', x) {
      if x in p1 {
        LinkedToLast(g, a, acc, u, Start, x);
      } else if x in p2 {
        LinkedToLast(g, a, acc, u, End, x);
      } else {
        assert x in stack0 + [u];
        LinkedToExtend(g, a, acc, u, x);
      }
    }
    if |acc| == 0 {
      assert |stack0| == 0 && u == (stack0 + [u])[0];
      assert acc' == [sid];
    } else {
      assert u in stack0 + [u];
      forall k | 0 < k < |acc'| ensures LinkedTo(g, a, acc'[..k], acc'[k]) {
        if k < |acc| {
          assert acc'[..k] == acc[..k] && acc'[k] == acc[k];
        } else {
          assert acc'[..k] == acc;
        }
      }
    }
  }

  /** The worklist flood from sid over one-way neighbours across the long
      edges (the axis other than the carrying direction), sorted by key. A
      panel that is not one-way is a chain of its own. */
  method BuildOnewayChain(g: Grid, sid: string, dir: Axis) returns (chain: seq<string>)
    requires sid in g.slabs
    ensures g.slabs[sid].kind != Oneway ==> chain == [sid]
    ensures g.slabs[sid].kind == Oneway ==> ChainShape(g, sid, Other(dir), chain)
  {
    if g.slabs[sid].kind != Oneway {
      return [sid];
    }
    var a := Other(dir);
    var stack, seen, acc := [sid], {sid}, [];
    while |stack| > 0
      invariant WorkInv(g, sid, a, acc, stack, seen)
      invariant OrderInv(g, sid, a, acc, stack)
      decreases g.slabs.Keys - seen, |stack|
    {
      acc, stack, seen := ExpandTop(g, sid, a, acc, stack, seen);
    }
    assert acc + stack == acc;
    chain := SortByKey(g, a, acc);
    SortedChainShape(g, sid, a, acc, seen);
  }

  /** One step of the search: the panel on top of the stack joins the
      discovery order and its unseen one-way neighbours across both long
      edges are pushed; fewer panels stay unseen, or as many and the stack
      shrinks. */
  method ExpandTop(g: Grid, sid: string, a: Axis, acc: seq<string>, stack: seq<string>, seen: set<string>)
    returns (acc': seq<string>, stack': seq<string>, seen': set<string>)
    requires |stack| > 0
    requires WorkInv(g, sid, a, acc, stack, seen) && OrderInv(g, sid, a, acc, stack)
    ensures WorkInv(g, sid, a, acc', stack', seen') && OrderInv(g, sid, a, acc', stack')
    ensures acc' == acc + [stack[|stack| - 1]]
    ensures || g.slabs.Keys - seen' < g.slabs.Keys - seen
            || (g.slabs.Keys - seen' == g.slabs.Keys - seen && |stack'| < |stack|)
  {
    var u := stack[|stack| - 1];
    var stack0 := stack[..|stack| - 1];
    assert stack == stack0 + [u];
    assert u in stack;
    var seen1, p1 := VisitNeighbours(g, u, a, Start, seen);
    var seen2, p2 := VisitNeighbours(g, u, a, End, seen1);
    StepKeepsInv(g, sid, a, acc, stack0, u, seen, seen1, p1, seen2, p2);
    StepKeepsOrder(g, sid, a, acc, stack0, u, seen, seen1, p1, seen2, p2);
    UnseenShrinks(g, seen, seen2, p1 + p2);
    acc', stack', seen' := acc + [u], stack0 + p1 + p2, seen2;
  }

  lemma SortedChainShape(g: Grid, sid: string, a: Axis, acc: seq<string>, seen: set<string>)
    requires WorkInv(g, sid, a, acc, [], seen)
    requires DiscoveredFrom(g, a, sid, acc)
    ensures AllKnown(g, acc) && ChainShape(g, sid, a, SortByKey(g, a, acc))
  {
    assert acc + [] == acc;
    var r := SortByKey(g, a, acc);
    assert DiscoveredFrom(g, a, sid, acc) && multiset(acc) == multiset(r);
    SortKeepsMembers(g, a, acc);
    NoDupPerm(acc, r);
    assert ChainClosed(g, a, r);
  }

  /** The chain is the least closed set holding the seed: any list that
      holds sid and is closed under one-way adjacency across the long
      edges holds every member of the chain. */
  lemma ChainLeast(g: Grid, sid: string, a: Axis, chain: seq<string>, other: seq<string>)
    requires ChainShape(g, sid, a, chain)
    requires sid in other && ChainClosed(g, a, other)
    ensures forall x :: x in chain ==> x in other
  {
    var order :| DiscoveredFrom(g, a, sid, order) && multiset(order) == multiset(chain);
    forall x | x in order ensures IsKind(g, x, Oneway) {
      assert x in multiset(order);
      assert x in chain;
    }
    OrderWithin(g, sid, a, order, other, |order|);
    forall x | x in chain ensures x in other {
      assert x in multiset(chain);
      var k :| 0 <= k < |order| && order[k] == x;
    }
  }

  /** Induction over the discovery order: its first n panels lie in every
      closed list holding sid. */
  lemma {:induction false} OrderWithin(g: Grid, sid: string, a: Axis, order: seq<string>, other: seq<string>, n: nat)
    requires DiscoveredFrom(g, a, sid, order) && n <= |order|
    requires forall x :: x in order ==> IsKind(g, x, Oneway)
    requires sid in other && ChainClosed(g, a, other)
    ensures forall k :: 0 <= k < n ==> order[k] in other
    decreases n
  {
    if n > 0 {
      OrderWithin(g, sid, a, order, other, n - 1);
      var k := n - 1;
      if k > 0 {
        assert LinkedTo(g, a, order[..k], order[k]);
        var j, side :| 0 <= j < k && order[..k][j] in g.slabs && order[k] in NeighborsOnSide(g, order[..k][j], a, side);
        assert order[..k][j] == order[j];
        assert order[k] in order;
      }
    }
  }

  /** The chain of a seed is determined up to order: two lists that both
      have the chain's shape have the same members. */
  lemma ChainMembersDetermined(g: Grid, sid: string, a: Axis, c1: seq<string>, c2: seq<string>)
    requires ChainShape(g, sid, a, c1) && ChainShape(g, sid, a, c2)
    ensures forall x :: x in c1 <==> x in c2
  {
    ChainLeast(g, sid, a, c1, c2);
    ChainLeast(g, sid, a, c2, c1);
  }

  lemma NoDupPerm(xs: seq<string>, ys: seq<string>)
    requires NoDup(xs) && multiset(xs) == multiset(ys)
    ensures NoDup(ys)
  {
  }

  lemma SortKeepsMembers(g: Grid, a: Axis, xs: seq<string>)
    requires AllKnown(g, xs)
    ensures forall x :: x in SortByKey(g, a, xs) <==> x in xs
  {
    var r := SortByKey(g, a, xs);
    forall x ensures x in r <==> x in xs {
      assert x in r <==> x in multiset(r);
      assert x in xs <==> x in multiset(xs);
    }
  }

  // ---------------------------------------------------------------------
  // Panel boundaries, end fixity and segment owners
  // ---------------------------------------------------------------------

  /** Members i and i + 1 of the chain abut along a. */
  predicate AbutAt(g: Grid, chain: seq<string>, a: Axis, i: int)
    requires AllKnown(g, chain) && 0 <= i < |chain| - 1
  {
    SpanHi(g.slabs[chain[i]], a) + 1 == SpanLo(g.slabs[chain[i + 1]], a)
  }

  /** v is the shared gridline of some abutting consecutive pair among the
      first k members. */
  predicate IsBoundary(g: Grid, chain: seq<string>, a: Axis, k: int, v: int)
    requires AllKnown(g, chain) && k <= |chain|
  {
    exists i :: 0 <= i < k - 1 && AbutAt(g, chain, a, i) && v == SpanHi(g.slabs[chain[i]], a) + 1
  }

  /** The shared gridlines of consecutive members among the first k of the
      chain along a, in chain order, at most one per pair. */
  function Boundaries(g: Grid, chain: seq<string>, a: Axis, k: nat): (r: seq<int>)
    requires AllKnown(g, chain) && k <= |chain|
    ensures k < 2 ==> r == []
    ensures |r| <= MaxInt(0, k - 1)
  {
    if k < 2 then []
    else
      var gl := SpanHi(g.slabs[chain[k - 2]], a) + 1;
      Boundaries(g, chain, a, k - 1) + (if AbutAt(g, chain, a, k - 2) then [gl] else [])
  }

  /** The boundary supports are exactly the shared gridlines of abutting
      consecutive members. */
  lemma {:induction false} BoundariesMembers(g: Grid, chain: seq<string>, a: Axis, k: nat, v: int)
    requires AllKnown(g, chain) && k <= |chain|
    ensures v in Boundaries(g, chain, a, k) <==> IsBoundary(g, chain, a, k, v)
  {
    if k >= 2 {
      BoundariesMembers(g, chain, a, k - 1, v);
      if IsBoundary(g, chain, a, k, v) && !IsBoundary(g, chain, a, k - 1, v) {
        var i :| 0 <= i < k - 1 && AbutAt(g, chain, a, i) && v == SpanHi(g.slabs[chain[i]], a) + 1;
        assert i == k - 2;
      }
    }
  }

  /** The loop over consecutive pairs of the chain, along the long-edge
      axis (the one other than the carrying direction). */
  method ChainPanelBoundarySupports(g: Grid, chain: seq<string>, dir: Axis) returns (supports: seq<int>)
    requires AllKnown(g, chain)
    ensures supports == Boundaries(g, chain, Other(dir), |chain|)
  {
    var a := Other(dir);
    if |chain| < 2 {
      return [];
    }
    supports := [];
    var k := 1;
    while k < |chain|
      invariant 1 <= k <= |chain|
      invariant supports == Boundaries(g, chain, a, k)
    {
      var x, y := chain[k - 1], chain[k];
      var gl := SpanHi(g.slabs[x], a) + 1;
      if SpanLo(g.slabs[y], a) == gl {
        supports := supports + [gl];
      }
      k := k + 1;
    }
  }

  /** Fixity of the two ends of a chain: fixed by a two-way neighbour,
      continuous over a one-way or balcony neighbour. */
  datatype EndFixity = EndFixity(fixedStart: bool, fixedEnd: bool, contStart: bool, contEnd: bool)

  predicate IsSupportKind(g: Grid, nb: string)
  {
    IsKind(g, nb, Oneway) || IsKind(g, nb, Balcony)
  }

  /** The flags of one chain end: fixed exactly when some neighbour is
      two-way; without one, continuous exactly when some neighbour is one-way
      or a balcony; continuous only over such a neighbour (once a two-way
      neighbour stops the scan, the flag depends on the order of the scan). */
  ghost predicate EndState(g: Grid, nbs: set<string>, fixed: bool, cont: bool)
  {
    && (fixed <==> exists nb :: nb in nbs && IsKind(g, nb, Twoway))
    && (!fixed ==> (cont <==> exists nb :: nb in nbs && IsSupportKind(g, nb)))
    && (cont ==> exists nb :: nb in nbs && IsSupportKind(g, nb))
  }

  /** The scan over one end's neighbours, stopping at the first two-way one. */
  method ScanEnd(g: Grid, nbs: set<string>) returns (fixed: bool, cont: bool)
    ensures EndState(g, nbs, fixed, cont)
  {
    fixed, cont := false, false;
    var rest := nbs;
    while rest != {}
      invariant rest <= nbs
      invariant forall nb :: nb in nbs && nb !in rest ==> !IsKind(g, nb, Twoway)
      invariant cont <==> exists nb :: nb in nbs && nb !in rest && IsSupportKind(g, nb)
      decreases |rest|
    {
      var nb :| nb in rest;
      if nb in g.slabs {
        if g.slabs[nb].kind == Twoway {
          fixed := true;
          break;
        } else if g.slabs[nb].kind == Oneway || g.slabs[nb].kind == Balcony {
          cont := true;
        }
      }
      rest := rest - {nb};
    }
  }

  /** The fixity of the first member's start side and the last member's end
      side, across the long-edge axis. */
  method ChainEndFixity(g: Grid, chain: seq<string>, dir: Axis) returns (f: EndFixity)
    requires |chain| > 0 && chain[0] in g.slabs && chain[|chain| - 1] in g.slabs
    ensures EndState(g, NeighborsOnSide(g, chain[0], Other(dir), Start), f.fixedStart, f.contStart)
    ensures EndState(g, NeighborsOnSide(g, chain[|chain| - 1], Other(dir), End), f.fixedEnd, f.contEnd)
  {
    var a := Other(dir);
    var fs, cs := ScanEnd(g, NeighborsOnSide(g, chain[0], a, Start));
    var fe, ce := ScanEnd(g, NeighborsOnSide(g, chain[|chain| - 1], a, End));
    f := EndFixity(fs, fe, cs, ce);
  }

  /** Either flag of an end is set exactly when the end has a neighbour
      that is a known panel. */
  lemma EndStateSupported(g: Grid, nbs: set<string>, fixed: bool, cont: bool)
    requires EndState(g, nbs, fixed, cont)
    ensures (fixed || cont) <==> exists nb :: nb in nbs && nb in g.slabs
  {
    if nb :| nb in nbs && nb in g.slabs {
      assert IsKind(g, nb, Twoway) || IsSupportKind(g, nb);
    }
  }

  /** The gridline range of panel s along a contains the point mid. */
  predicate Contains(s: Slab, a: Axis, mid: real)
  {
    SpanLo(s, a) as real <= mid <= (SpanHi(s, a) + 1) as real
  }

  /** The first chain index from i on whose range contains mid. */
  function FirstContaining(g: Grid, chain: seq<string>, a: Axis, mid: real, i: nat): (r: Option<nat>)
    requires AllKnown(g, chain)
    ensures r.Some? ==> i <= r.value < |chain| && Contains(g.slabs[chain[r.value]], a, mid)
                        && forall k :: i <= k < r.value ==> !Contains(g.slabs[chain[k]], a, mid)
    ensures r.None? ==> forall k :: i <= k < |chain| ==> !Contains(g.slabs[chain[k]], a, mid)
    decreases |chain| - i
  {
    if i >= |chain| then None
    else if Contains(g.slabs[chain[i]], a, mid) then Some(i)
    else FirstContaining(g, chain, a, mid, i + 1)
  }

  /** The owner of a segment with midpoint mid: the first member whose
      range along a contains it, else the first member. */
  function SegmentOwner(g: Grid, chain: seq<string>, a: Axis, mid: real): (r: string)
    requires |chain| > 0 && AllKnown(g, chain)
    ensures r in chain
  {
    match FirstContaining(g, chain, a, mid, 0)
    case Some(k) => chain[k]
    case None => chain[0]
  }

  /** The linear search for the owner, along the long-edge axis. */
  method OwnerSlabForSegment(g: Grid, chain: seq<string>, dir: Axis, mid: real) returns (owner: string)
    requires |chain| > 0 && AllKnown(g, chain)
    ensures owner == SegmentOwner(g, chain, Other(dir), mid)
  {
    var a := Other(dir);
    for i := 0 to |chain|
      invariant FirstContaining(g, chain, a, mid, 0) == FirstContaining(g, chain, a, mid, i)
    {
      if Contains(g.slabs[chain[i]], a, mid) {
        return chain[i];
      }
    }
    return chain[0];
  }

  /** The owner is the first member containing the midpoint when there is
      one, and the first member otherwise. */
  lemma SegmentOwnerFirst(g: Grid, chain: seq<string>, a: Axis, mid: real)
    requires |chain| > 0 && AllKnown(g, chain)
    ensures (forall k :: 0 <= k < |chain| ==> !Contains(g.slabs[chain[k]], a, mid)) ==> SegmentOwner(g, chain, a, mid) == chain[0]
    ensures (exists k :: 0 <= k < |chain| && Contains(g.slabs[chain[k]], a, mid)) ==>
              exists i :: 0 <= i < |chain| && SegmentOwner(g, chain, a, mid) == chain[i]
                          && Contains(g.slabs[chain[i]], a, mid)
                          && forall k :: 0 <= k < i ==> !Contains(g.slabs[chain[k]], a, mid)
  {
    var r := FirstContaining(g, chain, a, mid, 0);
    if r.Some? {
      assert SegmentOwner(g, chain, a, mid) == chain[r.value];
    }
  }

  // ---------------------------------------------------------------------
  // Support gridlines and spans
  // ---------------------------------------------------------------------

  /** The least first gridline along a among the first k members. */
  function MinLo(g: Grid, chain: seq<string>, a: Axis, k: nat): (r: int)
    requires AllKnown(g, chain) && 1 <= k <= |chain|
    ensures forall i :: 0 <= i < k ==> r <= SpanLo(g.slabs[chain[i]], a)
    ensures exists i :: 0 <= i < k && r == SpanLo(g.slabs[chain[i]], a)
  {
    if k == 1 then SpanLo(g.slabs[chain[0]], a)
    else MinInt(MinLo(g, chain, a, k - 1), SpanLo(g.slabs[chain[k - 1]], a))
  }

  /** The greatest closing gridline (last cell + 1) along a among the first
      k members. */
  function MaxEnd(g: Grid, chain: seq<string>, a: Axis, k: nat): (r: int)
    requires AllKnown(g, chain) && 1 <= k <= |chain|
    ensures forall i :: 0 <= i < k ==> SpanHi(g.slabs[chain[i]], a) + 1 <= r
    ensures exists i :: 0 <= i < k && r == SpanHi(g.slabs[chain[i]], a) + 1
  {
    if k == 1 then SpanHi(g.slabs[chain[0]], a) + 1
    else MaxInt(MaxEnd(g, chain, a, k - 1), SpanHi(g.slabs[chain[k - 1]], a) + 1)
  }

  /** A gridline the chain is supported on along a: its outer start or
      end, a shared gridline of abutting members, or a drawn beam across
      the inside of a member. */
  predicate IsSupportCandidate(g: Grid, chain: seq<string>, a: Axis, v: int)
    requires AllKnown(g, chain) && |chain| >= 1
  {
    || v == MinLo(g, chain, a, |chain|)
    || v == MaxEnd(g, chain, a, |chain|)
    || IsBoundary(g, chain, a, |chain|, v)
    || InBeamSupports(g, chain, a, |chain|, v)
  }

  predicate Increasing(xs: seq<int>)
  {
    forall i, j :: 0 <= i < j < |xs| ==> xs[i] < xs[j]
  }

  function InsertUnique(xs: seq<int>, x: int): (r: seq<int>)
    requires Increasing(xs)
    ensures Increasing(r)
    ensures forall v :: v in r <==> v in xs || v == x
  {
    if |xs| == 0 then [x]
    else if x < xs[0] then [x] + xs
    else if x == xs[0] then xs
    else
      var rest := InsertUnique(xs[1..], x);
      assert xs == [xs[0]] + xs[1..];
      assert forall j :: 0 <= j < |rest| ==> rest[j] in rest && xs[0] < rest[j];
      [xs[0]] + rest
  }

  /** Python's sorted(set(xs)). */
  function SortedUnique(xs: seq<int>): (r: seq<int>)
    ensures Increasing(r)
    ensures forall v :: v in r <==> v in xs
  {
    if |xs| == 0 then []
    else
      assert xs == xs[..|xs| - 1] + [xs[|xs| - 1]];
      InsertUnique(SortedUnique(xs[..|xs| - 1]), xs[|xs| - 1])
  }

  /** An increasing sequence is determined by its elements: SortedUnique is
      the one sorted, duplicate-free listing of a set. */
  lemma {:induction false} IncreasingUnique(r1: seq<int>, r2: seq<int>)
    requires Increasing(r1) && Increasing(r2)
    requires forall v :: v in r1 <==> v in r2
    ensures r1 == r2
    decreases |r1|
  {
    if |r1| == 0 || |r2| == 0 {
      HeadIn(r1);
      HeadIn(r2);
    } else {
      assert r1[0] in r2 && r2[0] in r1;
      assert r1[0] == r2[0];
      forall v ensures v in r1[1..] <==> v in r2[1..] {
        if v in r1[1..] {
          var i :| 1 <= i < |r1| && r1[i] == v;
          assert v in r2 && v != r2[0];
        }
        if v in r2[1..] {
          var i :| 1 <= i < |r2| && r2[i] == v;
          assert v in r1 && v != r1[0];
        }
      }
      IncreasingUnique(r1[1..], r2[1..]);
      assert r1 == [r1[0]] + r1[1..] && r2 == [r2[0]] + r2[1..];
    }
  }

  lemma HeadIn(r: seq<int>)
    ensures |r| > 0 ==> r[0] in r
  {
  }

  /** An increasing sequence holding two different values has at least two
      elements. */
  lemma TwoDistinct(r: seq<int>, x: int, y: int)
    requires Increasing(r) && x in r && y in r && x != y
    ensures |r| >= 2
  {
  }

  /** v is a drawn-beam support inside one of the first k members. */
  predicate InBeamSupports(g: Grid, chain: seq<string>, a: Axis, k: int, v: int)
    requires AllKnown(g, chain) && k <= |chain|
  {
    exists i :: 0 <= i < k && v in SupportGridlinesFromBeams(g, chain[i], a)
  }

  lemma BeamSupportsStep(g: Grid, chain: seq<string>, a: Axis, k: int, v: int)
    requires AllKnown(g, chain) && 0 <= k < |chain|
    ensures InBeamSupports(g, chain, a, k + 1, v)
            <==> InBeamSupports(g, chain, a, k, v) || v in SupportGridlinesFromBeams(g, chain[k], a)
  {
    if InBeamSupports(g, chain, a, k + 1, v) && !InBeamSupports(g, chain, a, k, v) {
      var i :| 0 <= i < k + 1 && v in SupportGridlinesFromBeams(g, chain[i], a);
      assert i == k;
    }
  }

  /** The sorted support gridlines of a chain along the long-edge axis. */
  method SupportGridlines(g: Grid, chain: seq<string>, dir: Axis) returns (supports: seq<int>)
    requires AllKnown(g, chain) && |chain| >= 1
    ensures Increasing(supports)
    ensures forall v :: v in supports <==> IsSupportCandidate(g, chain, Other(dir), v)
  {
    var a := Other(dir);
    var lo, hi := MinLo(g, chain, a, |chain|), MaxEnd(g, chain, a, |chain|);
    var bnd := ChainPanelBoundarySupports(g, chain, dir);
    var cands := [lo, hi] + bnd;
    for k := 0 to |chain|
      invariant forall v :: v in cands <==> (v == lo || v == hi || v in bnd || InBeamSupports(g, chain, a, k, v))
    {
      var more := SupportGridlinesFromBeams(g, chain[k], a);
      forall v ensures v in cands + more <==> (v == lo || v == hi || v in bnd || InBeamSupports(g, chain, a, k + 1, v)) {
        BeamSupportsStep(g, chain, a, k, v);
      }
      cands := cands + more;
    }
    supports := SortedUnique(cands);
    forall v ensures v in bnd <==> IsBoundary(g, chain, a, |chain|, v) {
      BoundariesMembers(g, chain, a, |chain|, v);
    }
  }

  /** One span of the chain: the gross short dimension of its owner, the
      owner, and the net span between the two gridlines. */
  datatype Span = Span(lShort: real, owner: string, lNet: real)

  /** The midpoint of the segment between gridlines lo and hi. */
  function Mid(lo: int, hi: int): real
  {
    0.5 * (lo as real + hi as real)
  }

  /** The span between gridlines lo and hi. Its owner contains the
      midpoint along the long-edge axis, while beams are looked up on the
      gridlines of the carrying axis dir. */
  function SpanOf(g: Grid, chain: seq<string>, dir: Axis, lo: int, hi: int, bw: real): (sp: Span)
    requires |chain| > 0 && AllKnown(g, chain)
    ensures sp.owner in chain && sp.owner == SegmentOwner(g, chain, Other(dir), Mid(lo, hi))
    ensures var sz := g.slabs[sp.owner].SizeMGross();
            sp.lShort <= sz.0 && sp.lShort <= sz.1 && (sp.lShort == sz.0 || sp.lShort == sz.1)
    ensures sp.lNet >= 0.05
    ensures bw >= 0.0 && sp.lShort >= 0.05 ==> sp.lNet <= sp.lShort
  {
    var owner := SegmentOwner(g, chain, Other(dir), Mid(lo, hi));
    var sz := g.slabs[owner].SizeMGross();
    var lShort := Min(sz.0, sz.1);
    Span(lShort, owner, NetSpan(lShort, IsBeamGridline(g, owner, dir, lo), IsBeamGridline(g, owner, dir, hi), bw))
  }

  /** One span per pair of consecutive support gridlines. */
  method BuildSpans(g: Grid, chain: seq<string>, dir: Axis, supports: seq<int>, bw: real) returns (spans: seq<Span>)
    requires |chain| > 0 && AllKnown(g, chain)
    ensures |spans| == MaxInt(0, |supports| - 1)
    ensures forall i :: 0 <= i < |spans| ==> spans[i] == SpanOf(g, chain, dir, supports[i], supports[i + 1], bw)
  {
    spans := [];
    if |supports| < 2 {
      return;
    }
    for k := 0 to |supports| - 1
      invariant |spans| == k
      invariant forall i :: 0 <= i < k ==> spans[i] == SpanOf(g, chain, dir, supports[i], supports[i + 1], bw)
    {
      var lo, hi := supports[k], supports[k + 1];
      var owner := OwnerSlabForSegment(g, chain, dir, Mid(lo, hi));
      var sz := g.slabs[owner].SizeMGross();
      var lShort := Min(sz.0, sz.1);
      var lNet := NetSpan(lShort, IsBeamGridline(g, owner, dir, lo), IsBeamGridline(g, owner, dir, hi), bw);
      assert Span(lShort, owner, lNet) == SpanOf(g, chain, dir, lo, hi, bw);
      spans := spans + [Span(lShort, owner, lNet)];
    }
  }

  // ---------------------------------------------------------------------
  // Moments
  // ---------------------------------------------------------------------

  function Sq(x: real): (r: real)
    ensures r >= 0.0
  {
    SquareNonneg(x, x);
    x * x
  }

  lemma SquareNonneg(x: real, y: real)
    requires x == y
    ensures x * y >= 0.0
  {
    if x < 0.0 {
      MulNonneg(-x, -y);
    } else {
      MulNonneg(x, y);
    }
  }

  /** Moment of span i of a continuous strip under load w. */
  function SpanMoment(spans: seq<Span>, w: real, i: int): real
    requires 0 <= i < |spans|
  {
    SpanCoeff(|spans|, i) * w * Sq(spans[i].lShort)
  }

  /** The squared length at support i: the end spans' at the two ends, the
      mean of the two neighbouring spans' inside. */
  function SupportL2(spans: seq<Span>, i: int): (r: real)
    requires 0 <= i <= |spans| && |spans| >= 1
    ensures r >= 0.0
  {
    if i == 0 then Sq(spans[0].lShort)
    else if i == |spans| then Sq(spans[|spans| - 1].lShort)
    else 0.5 * (Sq(spans[i - 1].lShort) + Sq(spans[i].lShort))
  }

  function SupportMoment(spans: seq<Span>, w: real, i: int): real
    requires 0 <= i <= |spans| && |spans| >= 1
  {
    SupportCoeff(|spans|, i) * w * SupportL2(spans, i)
  }

  /** Under a non-negative load, span moments sag (>= 0) and support moments
      hog (<= 0). */
  lemma MomentSigns(spans: seq<Span>, w: real, i: int)
    requires w >= 0.0 && |spans| >= 1 && 0 <= i <= |spans|
    ensures i < |spans| ==> SpanMoment(spans, w, i) >= 0.0
    ensures SupportMoment(spans, w, i) <= 0.0
  {
    var n := |spans|;
    if i < n {
      MulNonneg(SpanCoeff(n, i) * w, Sq(spans[i].lShort));
    }
    MulNonneg(-SupportCoeff(n, i) * w, SupportL2(spans, i));
  }

  /** The span and support moments of a continuous strip of two or more
      spans. */
  method MultiSpanMoments(spans: seq<Span>, w: real) returns (spanM: seq<real>, supportM: seq<real>)
    requires |spans| >= 1
    ensures |spanM| == |spans| && forall i :: 0 <= i < |spans| ==> spanM[i] == SpanMoment(spans, w, i)
    ensures |supportM| == |spans| + 1 && forall i :: 0 <= i <= |spans| ==> supportM[i] == SupportMoment(spans, w, i)
  {
    var n := |spans|;
    var supportC, spanC := OneWayCoefficients(n);
    spanM := [];
    for i := 0 to n
      invariant |spanM| == i && forall k :: 0 <= k < i ==> spanM[k] == SpanMoment(spans, w, k)
    {
      spanM := spanM + [spanC[i] * w * Sq(spans[i].lShort)];
    }
    supportM := [];
    for i := 0 to n + 1
      invariant |supportM| == i && forall k :: 0 <= k < i ==> supportM[k] == SupportMoment(spans, w, k)
    {
      var l2;
      if i == 0 {
        l2 := Sq(spans[0].lShort);
      } else if i == n {
        l2 := Sq(spans[n - 1].lShort);
      } else {
        l2 := 0.5 * (Sq(spans[i - 1].lShort) + Sq(spans[i].lShort));
      }
      supportM := supportM + [supportC[i] * w * l2];
    }
  }

  /** mpos is the largest span moment over the first k spans owned by sid
      and mneg the least support moment at either end of those spans; both
      are None when none of them is owned by sid. */
  ghost predicate ExtremesUpTo(sid: string, spans: seq<Span>, spanM: seq<real>, supportM: seq<real>, k: int,
                               mpos: Option<real>, mneg: Option<real>)
    requires |spanM| == |spans| && |supportM| == |spans| + 1 && 0 <= k <= |spans|
  {
    && (mpos.None? <==> forall i :: 0 <= i < k ==> spans[i].owner != sid)
    && (mneg.None? <==> mpos.None?)
    && (mpos.Some? ==>
          && (exists i :: 0 <= i < k && spans[i].owner == sid && mpos.value == spanM[i])
          && forall i :: 0 <= i < k && spans[i].owner == sid ==> spanM[i] <= mpos.value)
    && (mneg.Some? ==>
          && (exists i :: 0 <= i < k && spans[i].owner == sid && (mneg.value == supportM[i] || mneg.value == supportM[i + 1]))
          && forall i :: 0 <= i < k && spans[i].owner == sid ==> mneg.value <= supportM[i] && mneg.value <= supportM[i + 1])
  }

  /** The extremes over the spans sid owns and the supports touching them. */
  method OwnedExtremes(sid: string, spans: seq<Span>, spanM: seq<real>, supportM: seq<real>)
    returns (mpos: Option<real>, mneg: Option<real>)
    requires |spanM| == |spans| && |supportM| == |spans| + 1
    ensures ExtremesUpTo(sid, spans, spanM, supportM, |spans|, mpos, mneg)
  {
    mpos, mneg := None, None;
    ghost var wp, wn := 0, 0;
    for i := 0 to |spans|
      invariant mpos.None? <==> forall j :: 0 <= j < i ==> spans[j].owner != sid
      invariant mneg.None? <==> mpos.None?
      invariant mpos.Some? ==> 0 <= wp < i && spans[wp].owner == sid && mpos.value == spanM[wp]
      invariant mneg.Some? ==> 0 <= wn < i && spans[wn].owner == sid
                               && (mneg.value == supportM[wn] || mneg.value == supportM[wn + 1])
      invariant mpos.Some? ==> forall j :: 0 <= j < i && spans[j].owner == sid ==> spanM[j] <= mpos.value
      invariant mneg.Some? ==>
                  forall j :: 0 <= j < i && spans[j].owner == sid ==> mneg.value <= supportM[j] && mneg.value <= supportM[j + 1]
    {
      if spans[i].owner == sid {
        var m := Min(supportM[i], supportM[i + 1]);
        if mpos.None? {
          mpos, mneg := Some(spanM[i]), Some(m);
          wp, wn := i, i;
        } else {
          if spanM[i] > mpos.value {
            wp := i;
          }
          if m < mneg.value {
            wn := i;
          }
          mpos, mneg := Some(Max(mpos.value, spanM[i])), Some(Min(mneg.value, m));
        }
      }
    }
  }

  /** Under a non-negative load the reported extremes have the signs of
      sagging and hogging moments. */
  lemma ExtremesSigns(sid: string, spans: seq<Span>, w: real, spanM: seq<real>, supportM: seq<real>,
                      mpos: Option<real>, mneg: Option<real>)
    requires w >= 0.0 && |spans| >= 1
    requires |spanM| == |spans| && forall i :: 0 <= i < |spans| ==> spanM[i] == SpanMoment(spans, w, i)
    requires |supportM| == |spans| + 1 && forall i :: 0 <= i <= |spans| ==> supportM[i] == SupportMoment(spans, w, i)
    requires ExtremesUpTo(sid, spans, spanM, supportM, |spans|, mpos, mneg)
    ensures mpos.Some? ==> mpos.value >= 0.0
    ensures mneg.Some? ==> mneg.value <= 0.0
  {
    if mpos.Some? {
      var i :| 0 <= i < |spans| && spans[i].owner == sid && mpos.value == spanM[i];
      MomentSigns(spans, w, i);
    }
    if mneg.Some? {
      var i :| 0 <= i < |spans| && spans[i].owner == sid && (mneg.value == supportM[i] || mneg.value == supportM[i + 1]);
      MomentSigns(spans, w, i);
      MomentSigns(spans, w, i + 1);
    }
  }

  // ---------------------------------------------------------------------
  // Per-panel analysis
  // ---------------------------------------------------------------------

  /** The analysis of one panel: carrying direction, chain, end fixity,
      support gridlines and spans along the long-edge axis, the strip load
      w, the moments along the strip, and the panel's governing span and
      support moments. */
  datatype OnewayResult = OnewayResult(dir: Axis, chain: seq<string>, fixity: EndFixity,
                                       supports: seq<int>, spans: seq<Span>, w: real,
                                       spanMoments: seq<real>, supportMoments: seq<real>,
                                       mposMax: Option<real>, mnegMin: Option<real>)

  /** The moments of a strip with a single span, whose ends count as fixed
      when they are fixed or continuous: its span moment and its two end
      moments, the least of which governs. */
  predicate SingleSpanSolution(res: OnewayResult)
    requires |res.spans| == 1
  {
    SingleSpanMoments(OneSpanCoeffByFixity(res.fixity.fixedStart || res.fixity.contStart,
                                           res.fixity.fixedEnd || res.fixity.contEnd),
                      res.w, res.spans[0].lShort, res)
  }

  /** The moments of one span of length l under load w and coefficients c. */
  predicate SingleSpanMoments(c: SingleSpanCoeffs, w: real, l: real, res: OnewayResult)
  {
    && res.spanMoments == [Scaled(c.pos, w, l)]
    && res.supportMoments == [Scaled(c.start, w, l), Scaled(c.end, w, l)]
    && res.mposMax == Some(Scaled(c.pos, w, l))
    && res.mnegMin == Some(Min(Scaled(c.start, w, l), Scaled(c.end, w, l)))
  }

  /** A moment coefficient times w * l^2. */
  function Scaled(coef: real, w: real, l: real): real
  {
    coef * (w * Sq(l))
  }

  /** The moments of a strip with two or more spans: the TS 500
      coefficients per span and support, and the extremes over the spans
      owned by sid. */
  ghost predicate MultiSpanSolution(sid: string, res: OnewayResult)
  {
    && |res.spans| >= 2
    && |res.spanMoments| == |res.spans|
    && |res.supportMoments| == |res.spans| + 1
    && (forall i :: 0 <= i < |res.spans| ==> res.spanMoments[i] == SpanMoment(res.spans, res.w, i))
    && (forall i :: 0 <= i <= |res.spans| ==> res.supportMoments[i] == SupportMoment(res.spans, res.w, i))
    && ExtremesUpTo(sid, res.spans, res.spanMoments, res.supportMoments, |res.spans|, res.mposMax, res.mnegMin)
  }

  /** The moment step of the analysis, for a strip of one or more spans:
      fills in the moments of r0 and keeps the rest. */
  method StripMoments(sid: string, r0: OnewayResult) returns (res: OnewayResult)
    requires |r0.spans| >= 1
    ensures res.dir == r0.dir && res.chain == r0.chain && res.fixity == r0.fixity
    ensures res.supports == r0.supports && res.spans == r0.spans && res.w == r0.w
    ensures |res.spans| == 1 ==> SingleSpanSolution(res)
    ensures |res.spans| >= 2 ==> MultiSpanSolution(sid, res)
  {
    var f, spans, w := r0.fixity, r0.spans, r0.w;
    if |spans| == 1 {
      var c := OneSpanCoeffByFixity(f.fixedStart || f.contStart, f.fixedEnd || f.contEnd);
      var l := spans[0].lShort;
      var mpos := Scaled(c.pos, w, l);
      var mnegStart := Scaled(c.start, w, l);
      var mnegEnd := Scaled(c.end, w, l);
      res := r0.(spanMoments := [mpos], supportMoments := [mnegStart, mnegEnd],
                 mposMax := Some(mpos), mnegMin := Some(Min(mnegStart, mnegEnd)));
      assert SingleSpanMoments(c, w, l, res);
      return;
    }
    var spanM, supportM := MultiSpanMoments(spans, w);
    var mpos, mneg := OwnedExtremes(sid, spans, spanM, supportM);
    res := r0.(spanMoments := spanM, supportMoments := supportM, mposMax := mpos, mnegMin := mneg);
  }

  /** The load on a one-metre strip: the design load pd times the strip
      width b. */
  function LineLoad(s: Slab): real
  {
    s.pd * s.b
  }

  /** The carrying direction: Y when the panel is shorter along X, else X. */
  function CarryingDir(s: Slab): (d: Axis)
    ensures d == Y <==> s.SizeMGross().0 < s.SizeMGross().1
  {
    var sz := s.SizeMGross();
    if sz.0 < sz.1 then Y else X
  }

  /** The geometry of the strip through sid carried along dir: the chain
      (sid alone unless sid is one-way), the fixity of its two ends, its
      support gridlines in increasing order, and one span per pair of
      consecutive supports. */
  ghost predicate StripGeometry(g: Grid, sid: string, dir: Axis, bw: real, chain: seq<string>, fixity: EndFixity,
                                supports: seq<int>, spans: seq<Span>)
    requires sid in g.slabs
  {
    && (g.slabs[sid].kind != Oneway ==> chain == [sid])
    && (g.slabs[sid].kind == Oneway ==> ChainShape(g, sid, Other(dir), chain))
    && |chain| >= 1 && AllKnown(g, chain)
    && EndState(g, NeighborsOnSide(g, chain[0], Other(dir), Start), fixity.fixedStart, fixity.contStart)
    && EndState(g, NeighborsOnSide(g, chain[|chain| - 1], Other(dir), End), fixity.fixedEnd, fixity.contEnd)
    && Increasing(supports) && |supports| >= 2
    && (forall v :: v in supports <==> IsSupportCandidate(g, chain, Other(dir), v))
    && |spans| == |supports| - 1
    && (forall i :: 0 <= i < |spans| ==> spans[i] == SpanOf(g, chain, dir, supports[i], supports[i + 1], bw))
  }

  /** Chain, fixity, supports and spans of the strip through sid. */
  method AnalyseStrip(g: Grid, sid: string, dir: Axis, bw: real)
    returns (chain: seq<string>, fixity: EndFixity, supports: seq<int>, spans: seq<Span>)
    requires sid in g.slabs
    requires g.slabs[sid].i0 <= g.slabs[sid].i1 && g.slabs[sid].j0 <= g.slabs[sid].j1
    ensures StripGeometry(g, sid, dir, bw, chain, fixity, supports, spans)
  {
    chain := BuildOnewayChain(g, sid, dir);
    assert sid in chain;
    fixity := ChainEndFixity(g, chain, dir);
    supports := SupportGridlines(g, chain, dir);
    SupportsSpanSeed(g, chain, Other(dir), sid, supports);
    spans := BuildSpans(g, chain, dir, supports, bw);
  }

  /** The analysis of one panel: the load w = pd * b, the carrying
      direction, the strip geometry, and the strip's moments. */
  method ComputeOnewayPerSlab(g: Grid, sid: string, bw: real) returns (res: OnewayResult)
    requires sid in g.slabs
    requires g.slabs[sid].i0 <= g.slabs[sid].i1 && g.slabs[sid].j0 <= g.slabs[sid].j1
    ensures res.w == LineLoad(g.slabs[sid])
    ensures res.dir == CarryingDir(g.slabs[sid])
    ensures StripGeometry(g, sid, res.dir, bw, res.chain, res.fixity, res.supports, res.spans)
    ensures |res.spans| == 1 ==> SingleSpanSolution(res)
    ensures |res.spans| >= 2 ==> MultiSpanSolution(sid, res)
  {
    var s0 := g.slabs[sid];
    var w := LineLoad(s0);
    var dir := CarryingDir(s0);
    var chain, fixity, supports, spans := AnalyseStrip(g, sid, dir, bw);
    res := StripMoments(sid, OnewayResult(dir, chain, fixity, supports, spans, w, [], [], None, None));
  }

  /** res is an analysis of panel sid as ComputeOnewayPerSlab promises it
      (the chain's order among panels with equal keys is not fixed, so the
      analysis is a relation rather than a function). */
  ghost predicate OnewayPerSlabRule(g: Grid, sid: string, bw: real, res: OnewayResult)
    requires sid in g.slabs
  {
    && res.w == LineLoad(g.slabs[sid])
    && res.dir == CarryingDir(g.slabs[sid])
    && StripGeometry(g, sid, res.dir, bw, res.chain, res.fixity, res.supports, res.spans)
    && (|res.spans| == 1 ==> SingleSpanSolution(res))
    && (|res.spans| >= 2 ==> MultiSpanSolution(sid, res))
  }

  /** The outer start and end gridlines of a chain holding a panel with an
      ordered box differ, so there are at least two supports. */
  lemma SupportsSpanSeed(g: Grid, chain: seq<string>, a: Axis, sid: string, supports: seq<int>)
    requires AllKnown(g, chain) && sid in chain
    requires SpanLo(g.slabs[sid], a) <= SpanHi(g.slabs[sid], a)
    requires Increasing(supports)
    requires forall v :: v in supports <==> IsSupportCandidate(g, chain, a, v)
    ensures |supports| >= 2
  {
    var i :| 0 <= i < |chain| && chain[i] == sid;
    var lo, hi := MinLo(g, chain, a, |chain|), MaxEnd(g, chain, a, |chain|);
    assert lo <= SpanLo(g.slabs[chain[i]], a);
    assert SpanHi(g.slabs[chain[i]], a) + 1 <= hi;
    assert IsSupportCandidate(g, chain, a, lo) && IsSupportCandidate(g, chain, a, hi);
    TwoDistinct(supports, lo, hi);
  }

  // ---------------------------------------------------------------------
  // Reinforcement of a one-way panel
  // ---------------------------------------------------------------------

  /** The tolerance below which no extra support bars are needed. */
  const ExtraTol: real := 1.0e-6

  /** An edge counts as continuous when a neighbour covers all or part of it. */
  predicate EdgeContinuous(g: Grid, sid: string, e: Edge)
    requires sid in g.slabs
  {
    var c := EdgeCoverage(g, sid, e);
    c.full || c.any
  }

  /** p is the bent-up area of the first neighbour met that has one: 0 when
      no neighbour is in the table, otherwise the table entry of some
      neighbour (the scan order of a set is not fixed). */
  ghost predicate PilyeOf(nbs: set<string>, areas: map<string, real>, p: real)
  {
    && ((forall n :: n in nbs ==> n !in areas) ==> p == 0.0)
    && ((exists n :: n in nbs && n in areas) ==> exists n :: n in nbs && n in areas && p == areas[n])
  }

  method ScanPilye(nbs: set<string>, areas: map<string, real>) returns (p: real)
    ensures PilyeOf(nbs, areas, p)
  {
    p := 0.0;
    var rest := nbs;
    while rest != {}
      invariant rest <= nbs
      invariant forall n :: n in nbs && n !in rest ==> n !in areas
      decreases rest
    {
      var n :| n in rest;
      if n in areas {
        p := areas[n];
        return;
      }
      rest := rest - {n};
    }
  }

  /** The extra support steel still missing once the own and the neighbour's
      bent-up bars are counted. */
  function ExtraRequirement(asSupport: real, ownPilye: real, nbPilye: real): (r: real)
    ensures r >= 0.0 && r >= asSupport - (ownPilye + nbPilye)
    ensures r == 0.0 || r == asSupport - (ownPilye + nbPilye)
  {
    Max(0.0, asSupport - (ownPilye + nbPilye))
  }

  /** The bars of one long edge: whether it is continuous, the neighbour's
      bent-up area counted there, and the extra support bars. */
  datatype LongSide = LongSide(cont: bool, nbPilye: real, extra: Option<RebarChoice>)

  /** Extra support bars on long edge e: none on a discontinuous edge; on a
      continuous one, the catalogue choice for the missing steel when it
      exceeds the tolerance. */
  ghost predicate LongSideRule(g: Grid, sid: string, e: Edge, areas: map<string, real>, t: DesignTables,
                               asSupport: real, ownPilye: real, sMax: int, ls: LongSide)
    requires sid in g.slabs
  {
    && ls.cont == EdgeContinuous(g, sid, e)
    && (!ls.cont ==> ls.extra.None? && ls.nbPilye == 0.0)
    && (ls.cont ==> PilyeOf(NeighborsOnSide(g, sid, EdgeAxis(e), EdgeSide(e)), areas, ls.nbPilye))
    && (ls.cont ==>
          var req := ExtraRequirement(asSupport, ownPilye, ls.nbPilye);
          && (req <= ExtraTol ==> ls.extra.None?)
          && (req > ExtraTol ==> IsSelection(t, ls.extra, req, sMax, PhiMinDefault, PhiMaxDefault)))
  }

  method LongSideBars(g: Grid, sid: string, e: Edge, areas: map<string, real>, t: DesignTables,
                      asSupport: real, ownPilye: real, sMax: int)
    returns (ls: LongSide)
    requires sid in g.slabs && CatalogueValid(t)
    ensures LongSideRule(g, sid, e, areas, t, asSupport, ownPilye, sMax, ls)
  {
    var cont := EdgeContinuous(g, sid, e);
    ls := LongSide(cont, 0.0, None);
    if cont {
      var nbPilye := ScanPilye(NeighborsOnSide(g, sid, EdgeAxis(e), EdgeSide(e)), areas);
      var req := ExtraRequirement(asSupport, ownPilye, nbPilye);
      var extra := None;
      if req > ExtraTol {
        extra := SelectRebarMinArea(t, req, sMax, PhiMinDefault, PhiMaxDefault);
      }
      ls := LongSide(cont, nbPilye, extra);
    }
  }

  /** The bars of one short edge: whether it is continuous, the edge bars
      and the interior-support bars. */
  datatype ShortSide = ShortSide(cont: bool, edge: Option<RebarChoice>, interior: Option<RebarChoice>)

  /** Bars along short edge e: edge bars for the minimum area on a
      discontinuous edge, interior-support bars on a continuous one. */
  ghost predicate ShortSideRule(g: Grid, sid: string, e: Edge, t: DesignTables, asMin: real, asInterior: real,
                                sMax: int, ss: ShortSide)
    requires sid in g.slabs
  {
    && ss.cont == EdgeContinuous(g, sid, e)
    && (ss.cont ==> ss.edge.None? && IsSelection(t, ss.interior, asInterior, sMax, PhiMinDefault, PhiMaxDefault))
    && (!ss.cont ==> ss.interior.None? && IsSelection(t, ss.edge, asMin, sMax, PhiMinDefault, PhiMaxDefault))
  }

  method ShortSideBars(g: Grid, sid: string, e: Edge, t: DesignTables, asMin: real, asInterior: real, sMax: int)
    returns (ss: ShortSide)
    requires sid in g.slabs && CatalogueValid(t)
    ensures ShortSideRule(g, sid, e, t, asMin, asInterior, sMax, ss)
  {
    var cont := EdgeContinuous(g, sid, e);
    if cont {
      var interior := SelectRebarMinArea(t, asInterior, sMax, PhiMinDefault, PhiMaxDefault);
      ss := ShortSide(cont, None, interior);
    } else {
      var edge := SelectRebarMinArea(t, asMin, sMax, PhiMinDefault, PhiMaxDefault);
      ss := ShortSide(cont, edge, None);
    }
  }

  /** The reinforcement of a one-way panel. Short edges are the ones across
      the carrying direction dir, long edges the ones across the other
      axis. */
  datatype OnewayDesign = OnewayDesign(
    dir: Axis, supportArea: real,
    main: RebarChoice, duz: RebarChoice, pilye: RebarChoice, dist: Option<RebarChoice>,
    shortStart: ShortSide, shortEnd: ShortSide, longStart: LongSide, longEnd: LongSide)

  /** The distribution-bar requirement: a fifth of the main area. */
  function DistArea(main: RebarChoice): real
  {
    main.area / 5.0
  }

  /** The interior-support requirement: 0.6 times the main area. */
  function InteriorArea(main: RebarChoice): real
  {
    main.area * 0.6
  }

  /** The minimum area of the edge bars: rho_min * 1000 * (h - cover). */
  function OnewayMinArea(steel: string, h: real, cover: real): real
  {
    RhoMinOneway(steel) * 1000.0 * (h - cover)
  }

  /** The rules the one-way design follows, given the panel's moments. */
  ghost predicate OnewayDesignRules(g: Grid, sid: string, res: OnewayResult, conc: string, steel: string,
                                    h: real, cover: real, areas: map<string, real>, t: DesignTables, d: OnewayDesign)
    requires sid in g.slabs && ChartValid(t)
  {
    && d.dir == res.dir
    && IsMainDesign(t, res.mposMax.GetOr(0.0), conc, steel, h, cover, 0.0, OnewaySmaxMain(h), d.main)
    && RequiredArea(Abs(res.mnegMin.GetOr(0.0)), conc, steel, h, cover, None, 0.0, t) == Ok(d.supportArea)
    && BarRules(g, sid, steel, h, cover, areas, t, d)
  }

  /** The rules for the bars that follow from the main choice and the
      support requirement. */
  ghost predicate BarRules(g: Grid, sid: string, steel: string, h: real, cover: real,
                           areas: map<string, real>, t: DesignTables, d: OnewayDesign)
    requires sid in g.slabs
  {
    var smax, asMin := OnewaySmaxMain(h), OnewayMinArea(steel, h, cover);
    && d.duz == SplitDuzPilye(d.main).0 && d.pilye == SplitDuzPilye(d.main).1
    && IsSelection(t, d.dist, DistArea(d.main), OnewaySmaxDist(), PhiMinDefault, PhiMaxDefault)
    && ShortSideRule(g, sid, SideEdge(d.dir, Start), t, asMin, InteriorArea(d.main), smax, d.shortStart)
    && ShortSideRule(g, sid, SideEdge(d.dir, End), t, asMin, InteriorArea(d.main), smax, d.shortEnd)
    && LongSideRule(g, sid, SideEdge(Other(d.dir), Start), areas, t, d.supportArea, d.pilye.area, smax, d.longStart)
    && LongSideRule(g, sid, SideEdge(Other(d.dir), End), areas, t, d.supportArea, d.pilye.area, smax, d.longEnd)
  }

  /** The bars of a one-way panel with carrying direction dir, main choice
      main and support requirement supportArea. */
  method OnewayBars(g: Grid, sid: string, dir: Axis, steel: string, h: real, cover: real,
                    areas: map<string, real>, t: DesignTables, main: RebarChoice, supportArea: real)
    returns (d: OnewayDesign)
    requires sid in g.slabs && CatalogueValid(t)
    ensures d.dir == dir && d.main == main && d.supportArea == supportArea
    ensures BarRules(g, sid, steel, h, cover, areas, t, d)
  {
    var smax, asMin := OnewaySmaxMain(h), OnewayMinArea(steel, h, cover);
    var split := SplitDuzPilye(main);
    var dist := SelectRebarMinArea(t, DistArea(main), OnewaySmaxDist(), PhiMinDefault, PhiMaxDefault);
    var shortStart := ShortSideBars(g, sid, SideEdge(dir, Start), t, asMin, InteriorArea(main), smax);
    var shortEnd := ShortSideBars(g, sid, SideEdge(dir, End), t, asMin, InteriorArea(main), smax);
    var longStart := LongSideBars(g, sid, SideEdge(Other(dir), Start), areas, t, supportArea, split.1.area, smax);
    var longEnd := LongSideBars(g, sid, SideEdge(Other(dir), End), areas, t, supportArea, split.1.area, smax);
    d := OnewayDesign(dir, supportArea, main, split.0, split.1, dist, shortStart, shortEnd, longStart, longEnd);
  }

  /** The one-way design: main bars for the span moment (split into
      straight and bent-up bars), the support requirement for the support
      moment, distribution bars, and the bars of each edge; fails exactly
      when one of the two main designs fails, with the first failure. */
  method OnewayReport(g: Grid, sid: string, res: OnewayResult, conc: string, steel: string,
                      h: real, cover: real, areas: map<string, real>, t: DesignTables)
    returns (r: Result<OnewayDesign>)
    requires sid in g.slabs
    requires ChartValid(t) && CatalogueValid(t)
    ensures var smax, mpos, mneg := OnewaySmaxMain(h), res.mposMax.GetOr(0.0), Abs(res.mnegMin.GetOr(0.0));
            && (r.Ok? <==> Designable(t, mpos, conc, steel, h, cover, 0.0, smax) && Designable(t, mneg, conc, steel, h, cover, 0.0, smax))
            && (!Designable(t, mpos, conc, steel, h, cover, 0.0, smax) ==>
                  r == Err(DesignError(RequiredArea(mpos, conc, steel, h, cover, None, 0.0, t), smax)))
            && (Designable(t, mpos, conc, steel, h, cover, 0.0, smax) && !Designable(t, mneg, conc, steel, h, cover, 0.0, smax) ==>
                  r == Err(DesignError(RequiredArea(mneg, conc, steel, h, cover, None, 0.0, t), smax)))
    ensures r.Ok? ==> OnewayDesignRules(g, sid, res, conc, steel, h, cover, areas, t, r.value)
  {
    var smax := OnewaySmaxMain(h);
    var mpos, mneg := res.mposMax.GetOr(0.0), Abs(res.mnegMin.GetOr(0.0));
    var mainR := DesignMainRebarFromM(mpos, conc, steel, h, cover, smax, None, 0.0, t);
    if mainR.Err? {
      return Err(mainR.error);
    }
    var supportR := DesignMainRebarFromM(mneg, conc, steel, h, cover, smax, None, 0.0, t);
    if supportR.Err? {
      return Err(supportR.error);
    }
    var d := OnewayBars(g, sid, res.dir, steel, h, cover, areas, t, mainR.value.1, supportR.value.0);
    r := Ok(d);
  }
}
