/**
 What PROPAGATE computes on the graphs of assembled programs (bogvm/vm.py): activation times numbers of
 walks. Walks are counted by their last edge, independently of how the machine spreads activation.
 */
module Propagation {
  import opened Wrappers
  import opened Instructions
  import opened Machine
  import opened Runs

  // ------------------------------------------------- graphs of assembled programs

  /** The ids below n of the edges that leave u. */
  function OutList(edges: seq<Edge>, u: nat, n: nat): (r: seq<nat>)
    requires n <= |edges|
    ensures forall k :: 0 <= k < |r| ==> r[k] < n
    ensures StrictlySorted(r)
  {
    if n == 0 then []
    else if edges[n - 1].source == u then OutList(edges, u, n - 1) + [n - 1]
    else OutList(edges, u, n - 1)
  }

  /** The ids below n of the edges that enter u. */
  function InList(edges: seq<Edge>, u: nat, n: nat): (r: seq<nat>)
    requires n <= |edges|
    ensures forall k :: 0 <= k < |r| ==> r[k] < n
    ensures StrictlySorted(r)
  {
    if n == 0 then []
    else if edges[n - 1].target == u then InList(edges, u, n - 1) + [n - 1]
    else InList(edges, u, n - 1)
  }

  /** The graph holds exactly the listed edges, numbered in order of creation. */
  ghost predicate Holds(g: Graph, edges: seq<Edge>) {
    && (forall id: nat :: id in g.edges <==> id < |edges|)
    && (forall id: nat :: id < |edges| ==> g.edges[id] == edges[id])
    && (forall u: nat :: ListAt(g.adjacencyOut, u) == OutList(edges, u, |edges|))
    && (forall u: nat :: ListAt(g.adjacencyIn, u) == InList(edges, u, |edges|))
  }

  // ------------------------------------------------- walks

  predicate Hits(edge: Edge, kind: EdgeKind, target: Option<nat>) {
    edge.kind == kind && (target.None? || edge.target == target.value)
  }

  /** The number of walks of length t from s to v along edges of one kind. */
  ghost function Walks(edges: seq<Edge>, kind: EdgeKind, s: nat, t: nat, v: nat): nat
    decreases t, 0
  {
    if t == 0 then if v == s then 1 else 0
    else WalksVia(edges, kind, s, t - 1, Some(v), |edges|)
  }

  /** Walks of length t + 1 whose last edge is among the first n, into a given node or, for None, anywhere. */
  ghost function WalksVia(edges: seq<Edge>, kind: EdgeKind, s: nat, t: nat, target: Option<nat>, n: nat): nat
    requires n <= |edges|
    decreases t, n
  {
    if n == 0 then 0
    else WalksVia(edges, kind, s, t, target, n - 1)
         + if Hits(edges[n - 1], kind, target) then Walks(edges, kind, s, t, edges[n - 1].source) else 0
  }

  /** The number of walks from s of lengths t + 1 to t + depth. */
  ghost function WalkTotal(edges: seq<Edge>, kind: EdgeKind, s: nat, t: nat, depth: nat): nat
    decreases depth
  {
    if depth == 0 then 0
    else WalksVia(edges, kind, s, t, None, |edges|) + WalkTotal(edges, kind, s, t + 1, depth - 1)
  }

  // ------------------------------------------------- one node's edges

  /** How many of the listed edges lead to the target. */
  function CountTo(edges: map<nat, Edge>, kind: EdgeKind, ids: seq<nat>, target: Option<nat>): nat
    requires forall id :: id in ids ==> id in edges
  {
    if ids == [] then 0
    else (if Hits(edges[ids[0]], kind, target) then 1 else 0) + CountTo(edges, kind, ids[1..], target)
  }

  lemma {:induction false} CountToAppend(edges: map<nat, Edge>, kind: EdgeKind, ids: seq<nat>, id: nat, target: Option<nat>)
    requires (forall x :: x in ids ==> x in edges) && id in edges
    ensures CountTo(edges, kind, ids + [id], target)
         == CountTo(edges, kind, ids, target) + if Hits(edges[id], kind, target) then 1 else 0
  {
    if ids == [] {
      assert ids + [id] == [id];
    } else {
      CountToAppend(edges, kind, ids[1..], id, target);
      assert (ids + [id])[1..] == ids[1..] + [id];
    }
  }

  /** A product, named so that proofs need not look into it. */
  function Times(a: nat, b: nat): nat {
    a * b
  }

  lemma Scaled(value: nat)
    ensures value * SCALE / SCALE == value
  {
  }

  lemma TimesLaws(a: nat, b: nat, c: nat)
    ensures Times(a, b + c) == Times(a, b) + Times(a, c)
    ensures Times(a, 0) == 0 && Times(0, a) == 0 && Times(a, 1) == a
  {
  }

  lemma CountStep(edges: map<nat, Edge>, kind: EdgeKind, ids: seq<nat>, value: nat, target: Option<nat>)
    requires ids != [] && forall id :: id in ids ==> id in edges
    ensures Times(value, CountTo(edges, kind, ids, target))
         == (if Hits(edges[ids[0]], kind, target) then value else 0) + Times(value, CountTo(edges, kind, ids[1..], target))
  {
    hide Times;
    TimesLaws(value, if Hits(edges[ids[0]], kind, target) then 1 else 0, CountTo(edges, kind, ids[1..], target));
  }

  lemma NoEdges(edges: map<nat, Edge>, kind: EdgeKind, value: nat, target: Option<nat>)
    ensures CountTo(edges, kind, [], target) == 0 && Times(value, CountTo(edges, kind, [], target)) == 0
  {
  }

  /** Spreading one value over a list of edges costs it once for each edge of the kind, within the limit. */
  lemma {:induction false} SpreadEdgesEnergy(edges: map<nat, Edge>, kind: EdgeKind, ids: seq<nat>, value: nat, scratch: map<nat, nat>, energy: nat)
    requires forall id :: id in ids ==> id in edges
    requires energy <= ENERGY_LIMIT
    ensures var total := energy + Times(value, CountTo(edges, kind, ids, None));
            var r := SpreadEdges(edges, kind, ids, value, scratch, energy);
            if total > ENERGY_LIMIT then r.None? else r.Some? && r.value.1 == total
    decreases |ids|
  {
    hide CountTo, Times;
    if ids == [] {
      NoEdges(edges, kind, value, None);
    } else {
      var edge := edges[ids[0]];
      Scaled(value);
      CountStep(edges, kind, ids, value, None);
      if edge.kind != kind || value == 0 {
        SpreadEdgesEnergy(edges, kind, ids[1..], value, scratch, energy);
      } else if energy + value <= ENERGY_LIMIT {
        SpreadEdgesEnergy(edges, kind, ids[1..], value, scratch[edge.target := Get(scratch, edge.target) + value], energy + value);
      }
    }
  }

  /** It adds the value to each node once for each edge leading there. */
  lemma {:induction false} SpreadEdgesAt(edges: map<nat, Edge>, kind: EdgeKind, ids: seq<nat>, value: nat,
                                         scratch: map<nat, nat>, energy: nat, v: nat)
    requires forall id :: id in ids ==> id in edges
    requires SpreadEdges(edges, kind, ids, value, scratch, energy).Some?
    ensures Get(SpreadEdges(edges, kind, ids, value, scratch, energy).value.0, v)
         == Get(scratch, v) + Times(value, CountTo(edges, kind, ids, Some(v)))
    decreases |ids|
  {
    hide CountTo, Times;
    if ids == [] {
      NoEdges(edges, kind, value, Some(v));
    } else {
      var edge := edges[ids[0]];
      Scaled(value);
      CountStep(edges, kind, ids, value, Some(v));
      if edge.kind != kind || value == 0 {
        SpreadEdgesAt(edges, kind, ids[1..], value, scratch, energy, v);
      } else {
        SpreadEdgesAt(edges, kind, ids[1..], value, scratch[edge.target := Get(scratch, edge.target) + value], energy + value, v);
      }
    }
  }

  // ------------------------------------------------- one tick

  /** The activation that flows over the first n edges out of the nodes in `us`. */
  ghost function Flow(edges: seq<Edge>, kind: EdgeKind, frontier: map<nat, nat>, us: seq<nat>, target: Option<nat>, n: nat): nat
    requires n <= |edges|
  {
    if n == 0 then 0
    else Flow(edges, kind, frontier, us, target, n - 1)
         + if Hits(edges[n - 1], kind, target) && edges[n - 1].source in us then Get(frontier, edges[n - 1].source) else 0
  }

  lemma ListsKnown(g: Graph, edges: seq<Edge>, u: nat, n: nat)
    requires Holds(g, edges) && n <= |edges|
    ensures forall id :: id in OutList(edges, u, n) ==> id in g.edges
    ensures n > 0 ==> n - 1 in g.edges && g.edges[n - 1] == edges[n - 1]
    ensures ListAt(g.adjacencyOut, u) == OutList(edges, u, |edges|)
  {
    forall id | id in OutList(edges, u, n)
      ensures id in g.edges
    {
      assert id < n;
    }
  }

  /** The edges among the first n that leave u towards the target. */
  function OutCount(edges: seq<Edge>, kind: EdgeKind, u: nat, target: Option<nat>, n: nat): nat
    requires n <= |edges|
  {
    if n == 0 then 0
    else OutCount(edges, kind, u, target, n - 1)
         + if edges[n - 1].source == u && Hits(edges[n - 1], kind, target) then 1 else 0
  }

  lemma {:induction false} OutListCount(g: Graph, edges: seq<Edge>, kind: EdgeKind, u: nat, target: Option<nat>, n: nat)
    requires Holds(g, edges) && n <= |edges|
    ensures forall id :: id in OutList(edges, u, n) ==> id in g.edges
    ensures CountTo(g.edges, kind, OutList(edges, u, n), target) == OutCount(edges, kind, u, target, n)
  {
    hide Holds, CountTo, Hits;
    ListsKnown(g, edges, u, n);
    if n == 0 {
      NoEdges(g.edges, kind, 0, target);
    } else {
      ListsKnown(g, edges, u, n - 1);
      OutListCount(g, edges, kind, u, target, n - 1);
      if edges[n - 1].source == u {
        CountToAppend(g.edges, kind, OutList(edges, u, n - 1), n - 1, target);
      }
    }
  }

  /** The flow out of one more node is its value times its edges towards the target. */
  lemma {:induction false} FlowOfOneMore(edges: seq<Edge>, kind: EdgeKind, frontier: map<nat, nat>,
                                         u: nat, us: seq<nat>, target: Option<nat>, n: nat)
    requires n <= |edges| && u !in us
    ensures Flow(edges, kind, frontier, [u] + us, target, n)
         == Times(Get(frontier, u), OutCount(edges, kind, u, target, n)) + Flow(edges, kind, frontier, us, target, n)
  {
    hide Hits, Get, Times;
    TimesLaws(Get(frontier, u), 0, 0);
    if n > 0 {
      FlowOfOneMore(edges, kind, frontier, u, us, target, n - 1);
      TimesLaws(Get(frontier, u), OutCount(edges, kind, u, target, n - 1), 1);
    }
  }

  lemma {:induction false} FlowOfNone(edges: seq<Edge>, kind: EdgeKind, frontier: map<nat, nat>, target: Option<nat>, n: nat)
    requires n <= |edges|
    ensures Flow(edges, kind, frontier, [], target, n) == 0
  {
    if n > 0 {
      FlowOfNone(edges, kind, frontier, target, n - 1);
    }
  }

  lemma {:induction false} SpreadNodesEnergy(g: Graph, edges: seq<Edge>, kind: EdgeKind, us: seq<nat>, frontier: map<nat, nat>,
                                             scratch: map<nat, nat>, energy: nat)
    requires Holds(g, edges) && EdgesListed(g) && StrictlySorted(us) && energy <= ENERGY_LIMIT
    ensures var total := energy + Flow(edges, kind, frontier, us, None, |edges|);
            var r := SpreadNodes(g, kind, us, frontier, scratch, energy);
            if total > ENERGY_LIMIT then r.None? else r.Some? && r.value.1 == total
    decreases |us|
  {
    hide SpreadEdges, CountTo, Flow, Holds, EdgesListed, OutList, Times;
    if us == [] {
      FlowOfNone(edges, kind, frontier, None, |edges|);
    } else {
      var u, rest := us[0], us[1..];
      assert us == [u] + rest;
      ListsKnown(g, edges, u, |edges|);
      FlowOfOneMore(edges, kind, frontier, u, rest, None, |edges|);
      OutListCount(g, edges, kind, u, None, |edges|);
      SpreadEdgesEnergy(g.edges, kind, OutList(edges, u, |edges|), Get(frontier, u), scratch, energy);
      var one := SpreadEdges(g.edges, kind, OutList(edges, u, |edges|), Get(frontier, u), scratch, energy);
      if one.Some? {
        SpreadNodesEnergy(g, edges, kind, rest, frontier, one.value.0, one.value.1);
      }
    }
  }

  lemma {:induction false} SpreadNodesAt(g: Graph, edges: seq<Edge>, kind: EdgeKind, us: seq<nat>, frontier: map<nat, nat>,
                                         scratch: map<nat, nat>, energy: nat, v: nat)
    requires Holds(g, edges) && EdgesListed(g) && StrictlySorted(us)
    requires SpreadNodes(g, kind, us, frontier, scratch, energy).Some?
    ensures Get(SpreadNodes(g, kind, us, frontier, scratch, energy).value.0, v)
         == Get(scratch, v) + Flow(edges, kind, frontier, us, Some(v), |edges|)
    decreases |us|
  {
    hide SpreadEdges, CountTo, Flow, Holds, EdgesListed, OutList, Times;
    if us == [] {
      FlowOfNone(edges, kind, frontier, Some(v), |edges|);
    } else {
      var u, rest := us[0], us[1..];
      assert us == [u] + rest;
      ListsKnown(g, edges, u, |edges|);
      FlowOfOneMore(edges, kind, frontier, u, rest, Some(v), |edges|);
      OutListCount(g, edges, kind, u, Some(v), |edges|);
      SpreadEdgesAt(g.edges, kind, OutList(edges, u, |edges|), Get(frontier, u), scratch, energy, v);
      var one := SpreadEdges(g.edges, kind, OutList(edges, u, |edges|), Get(frontier, u), scratch, energy);
      SpreadNodesAt(g, edges, kind, rest, frontier, one.value.0, one.value.1, v);
    }
  }

  /** When the frontier holds a times the walks of length t, the flow is a times the walks of length t + 1. */
  lemma {:induction false} FlowCountsWalks(edges: seq<Edge>, kind: EdgeKind, s: nat, a: nat, t: nat,
                                           frontier: map<nat, nat>, us: seq<nat>, target: Option<nat>, n: nat)
    requires n <= |edges|
    requires forall u :: Get(frontier, u) == Times(a, Walks(edges, kind, s, t, u))
    requires forall u :: u in frontier ==> u in us
    ensures Flow(edges, kind, frontier, us, target, n) == Times(a, WalksVia(edges, kind, s, t, target, n))
  {
    hide Walks, Times;
    TimesLaws(a, 0, 0);
    if n > 0 {
      FlowCountsWalks(edges, kind, s, a, t, frontier, us, target, n - 1);
      var u := edges[n - 1].source;
      assert Get(frontier, u) == Times(a, Walks(edges, kind, s, t, u));
      TimesLaws(a, WalksVia(edges, kind, s, t, target, n - 1), Walks(edges, kind, s, t, u));
    }
  }

  // ------------------------------------------------- all ticks

  /** The greatest of `old` and a times the walks of lengths t + 1 to t + depth into v. */
  ghost function Peak(edges: seq<Edge>, kind: EdgeKind, s: nat, a: nat, t: nat, depth: nat, old': nat, v: nat): nat
    decreases depth
  {
    if depth == 0 then old'
    else Peak(edges, kind, s, a, t + 1, depth - 1, Max(old', Times(a, Walks(edges, kind, s, t + 1, v))), v)
  }

  lemma {:induction false} PeakIsGreatest(edges: seq<Edge>, kind: EdgeKind, s: nat, a: nat, t: nat, depth: nat, old': nat, v: nat)
    ensures var p := Peak(edges, kind, s, a, t, depth, old', v);
            && p >= old'
            && (forall j :: t < j <= t + depth ==> p >= Times(a, Walks(edges, kind, s, j, v)))
            && (p == old' || exists j :: t < j <= t + depth && p == Times(a, Walks(edges, kind, s, j, v)))
    decreases depth
  {
    hide Walks, Times;
    if depth > 0 {
      var here := Times(a, Walks(edges, kind, s, t + 1, v));
      PeakIsGreatest(edges, kind, s, a, t + 1, depth - 1, Max(old', here), v);
      var p := Peak(edges, kind, s, a, t, depth, old', v);
      forall j | t < j <= t + depth
        ensures p >= Times(a, Walks(edges, kind, s, j, v))
      {
        if j == t + 1 {
          assert p >= here;
        }
      }
      if p != Max(old', here) {
        var j :| t + 1 < j <= t + depth && p == Times(a, Walks(edges, kind, s, j, v));
      } else if p != old' {
        assert p == Times(a, Walks(edges, kind, s, t + 1, v));
      }
    }
  }

  lemma MergeAt(cumulative: map<nat, nat>, scratch: map<nat, nat>, v: nat)
    ensures Get(Merge(cumulative, scratch), v) == Max(Get(cumulative, v), Get(scratch, v))
  {
  }

  ghost predicate TickResult(edges: seq<Edge>, kind: EdgeKind, s: nat, a: nat, t: nat, depth: nat,
                             cumulative: map<nat, nat>, energy: nat, r: Option<(map<nat, nat>, nat)>) {
    && (r.Some? <==> energy + Times(a, WalkTotal(edges, kind, s, t, depth)) <= ENERGY_LIMIT)
    && (r.Some? ==>
         && r.value.1 == energy + Times(a, WalkTotal(edges, kind, s, t, depth))
         && forall v :: Get(r.value.0, v) == Peak(edges, kind, s, a, t, depth, Get(cumulative, v), v))
  }

  /** One tick turns a times the walks of length t into a times those of length t + 1. */
  lemma TickEffect(g: Graph, edges: seq<Edge>, kind: EdgeKind, s: nat, a: nat, t: nat, frontier: map<nat, nat>, energy: nat)
    requires Holds(g, edges) && EdgesListed(g) && energy <= ENERGY_LIMIT
    requires forall u :: Get(frontier, u) == Times(a, Walks(edges, kind, s, t, u))
    ensures var r := SpreadNodes(g, kind, SortedKeys(frontier.Keys), frontier, map[], energy);
            && (r.Some? <==> energy + Times(a, WalksVia(edges, kind, s, t, None, |edges|)) <= ENERGY_LIMIT)
            && (r.Some? ==>
                 && r.value.1 == energy + Times(a, WalksVia(edges, kind, s, t, None, |edges|))
                 && forall v :: Get(r.value.0, v) == Times(a, Walks(edges, kind, s, t + 1, v)))
  {
    hide SpreadNodes, Holds, EdgesListed, Flow, WalksVia, SortedKeys, Times;
    var us := SortedKeys(frontier.Keys);
    SortedKeysIncrease(frontier.Keys);
    forall u: nat
      ensures u in us <==> u in frontier
    {
      SortedKeysMembers(frontier.Keys, u);
    }
    SpreadNodesEnergy(g, edges, kind, us, frontier, map[], energy);
    var r := SpreadNodes(g, kind, us, frontier, map[], energy);
    FlowCountsWalks(edges, kind, s, a, t, frontier, us, None, |edges|);
    forall v: nat | r.Some?
      ensures Get(r.value.0, v) == Times(a, Walks(edges, kind, s, t + 1, v))
    {
      SpreadNodesAt(g, edges, kind, us, frontier, map[], energy, v);
      FlowCountsWalks(edges, kind, s, a, t, frontier, us, Some(v), |edges|);
    }
  }

  lemma {:induction false} TicksEffect(g: Graph, edges: seq<Edge>, kind: EdgeKind, s: nat, a: nat, t: nat, depth: nat,
                                       cumulative: map<nat, nat>, frontier: map<nat, nat>, energy: nat)
    requires Holds(g, edges) && EdgesListed(g) && energy <= ENERGY_LIMIT
    requires forall u :: Get(frontier, u) == Times(a, Walks(edges, kind, s, t, u))
    ensures TickResult(edges, kind, s, a, t, depth, cumulative, energy, Ticks(g, kind, depth, cumulative, frontier, energy))
    decreases depth
  {
    hide SpreadNodes, Holds, EdgesListed, Walks, WalksVia, SortedKeys, Merge, Get, Times;
    TimesLaws(a, 0, 0);
    if depth > 0 {
      TickEffect(g, edges, kind, s, a, t, frontier, energy);
      TimesLaws(a, WalksVia(edges, kind, s, t, None, |edges|), WalkTotal(edges, kind, s, t + 1, depth - 1));
      var r := SpreadNodes(g, kind, SortedKeys(frontier.Keys), frontier, map[], energy);
      if r.Some? {
        var (scratch, energy') := r.value;
        forall v
          ensures Get(Merge(cumulative, scratch), v) == Max(Get(cumulative, v), Times(a, Walks(edges, kind, s, t + 1, v)))
        {
          MergeAt(cumulative, scratch, v);
        }
        TicksEffect(g, edges, kind, s, a, t + 1, depth - 1, Merge(cumulative, scratch), scratch, energy');
      }
    }
  }

  lemma PropagateTicks(g: Graph, edges: seq<Edge>, i: Instruction, kind: EdgeKind, m: Manifest)
    requires Holds(g, edges) && EdgesListed(g)
    requires EdgeKindOf(i.flags) == Some(kind)
    ensures var a := Get(g.activation, i.source);
            var r := StepGraph(g, i, Propagate, m);
            if Times(a, WalkTotal(edges, kind, i.source, 0, i.param)) > ENERGY_LIMIT then r == Blocked(EnergyLimit)
            else
              && r.Next? && r.state == g.(activation := r.state.activation)
              && forall v :: Get(r.state.activation, v) == Peak(edges, kind, i.source, a, 0, i.param, Get(g.activation, v), v)
  {
    hide Ticks, Holds, EdgesListed, Times;
    var a := Get(g.activation, i.source);
    forall u: nat
      ensures Get(map[i.source := a], u) == Times(a, Walks(edges, kind, i.source, 0, u))
    {
      TimesLaws(a, 0, 0);
    }
    TicksEffect(g, edges, kind, i.source, a, 0, i.param, g.activation, map[i.source := a], 0);
  }

  /** p is the greatest of `before` and a times the number of walks of each length from 1 to depth into v. */
  ghost predicate GreatestOfWalks(edges: seq<Edge>, kind: EdgeKind, s: nat, a: nat, depth: nat, before: nat, v: nat, p: nat) {
    && p >= before
    && (forall j :: 0 < j <= depth ==> p >= a * Walks(edges, kind, s, j, v))
    && (p == before || exists j :: 0 < j <= depth && p == a * Walks(edges, kind, s, j, v))
  }

  lemma PeakIsGreatestOfWalks(edges: seq<Edge>, kind: EdgeKind, s: nat, a: nat, depth: nat, before: nat, v: nat)
    ensures GreatestOfWalks(edges, kind, s, a, depth, before, v, Peak(edges, kind, s, a, 0, depth, before, v))
  {
    hide Walks, Peak;
    PeakIsGreatest(edges, kind, s, a, 0, depth, before, v);
  }

  /**
   PROPAGATE from s to depth d with activation a: it is blocked exactly when a times the number of walks of
   lengths 1 to d exceeds the energy limit; otherwise every node gets the greatest of its old activation and a
   times the number of walks of each of these lengths from s to it, and nothing else changes.
   */
  lemma PropagateCountsWalks(g: Graph, edges: seq<Edge>, i: Instruction, kind: EdgeKind, m: Manifest)
    requires Holds(g, edges) && EdgesListed(g)
    requires EdgeKindOf(i.flags) == Some(kind)
    ensures var a := Get(g.activation, i.source);
            var r := StepGraph(g, i, Propagate, m);
            if a * WalkTotal(edges, kind, i.source, 0, i.param) > ENERGY_LIMIT then r == Blocked(EnergyLimit)
            else
              && r.Next? && r.state == g.(activation := r.state.activation)
              && forall v :: GreatestOfWalks(edges, kind, i.source, a, i.param, Get(g.activation, v), v, Get(r.state.activation, v))
  {
    hide StepGraph, GreatestOfWalks, Peak, Holds, EdgesListed, WalkTotal;
    PropagateTicks(g, edges, i, kind, m);
    var a := Get(g.activation, i.source);
    forall v
      ensures GreatestOfWalks(edges, kind, i.source, a, i.param, Get(g.activation, v), v,
                              Peak(edges, kind, i.source, a, 0, i.param, Get(g.activation, v), v))
    {
      PeakIsGreatestOfWalks(edges, kind, i.source, a, i.param, Get(g.activation, v), v);
    }
  }
}
