/**
 The virtual machine as the program has it (bogvm/vm.py): tables updated in place, loops over edges and
 queues. Every method is proved against the step relation of `Machine`.
 */
module Vm {
  import opened Wrappers
  import opened Sorting
  import opened ByteStrings
  import opened Bases
  import opened Optimizer
  import opened Containers
  import opened Instructions
  import opened Machine
  import opened Runs

  /** How an instruction ends: on to the next one, blocked by a law, or failed on a missing key. */
  datatype Signal = Proceed | Raise(reason: BlockReason) | MissingKey

  datatype RunEnd = Halted | Refused(reason: BlockReason) | Crashed

  // ------------------------------------------------- support paths

  lemma {:induction false} ClosedSetHoldsPath(g: Graph, nodes: set<nat>, path: seq<nat>)
    requires IsSupportPath(g, path) && path[0] in nodes
    requires forall u, v :: u in nodes && SupportEdge(g, u, v) ==> v in nodes
    ensures path[|path| - 1] in nodes
  {
    if |path| > 1 {
      assert SupportEdge(g, path[0], path[1]);
      forall i | 0 <= i < |path[1..]| - 1
        ensures SupportEdge(g, path[1..][i], path[1..][i + 1])
      {
        assert SupportEdge(g, path[i + 1], path[i + 1 + 1]);
      }
      ClosedSetHoldsPath(g, nodes, path[1..]);
    }
  }

  lemma ReachedFromSource(g: Graph, source: nat)
    ensures SupportReachable(g, source, source)
  {
    assert IsSupportPath(g, [source]);
  }

  lemma ReachOneFurther(g: Graph, source: nat, u: nat, v: nat)
    requires SupportReachable(g, source, u) && SupportEdge(g, u, v)
    ensures SupportReachable(g, source, v)
  {
    hide SupportEdge;
    var path :| IsSupportPath(g, path) && path[0] == source && path[|path| - 1] == u;
    assert IsSupportPath(g, path + [v]);
  }

  /** The nodes a search from `source` can meet. */
  ghost function Meetable(g: Graph, source: nat): set<nat> {
    {source} + set id | id in g.edges :: g.edges[id].target
  }

  /** The edges of a node's list all lead to visited or queued nodes, as far as the list has been read. */
  ghost predicate Expanded(g: Graph, ids: seq<nat>, n: nat, visited: set<nat>, queue: seq<nat>)
    requires n <= |ids| && forall id :: id in ids ==> id in g.edges
  {
    forall k :: 0 <= k < n && g.edges[ids[k]].kind == Support ==> g.edges[ids[k]].target in visited || g.edges[ids[k]].target in queue
  }

  // ------------------------------------------------- sorted keys

  method LeastOf(keys: set<nat>) returns (k: nat)
    requires keys != {}
    ensures k == Least(keys)
  {
    k :| k in keys;
    var rest := keys - {k};
    while rest != {}
      invariant k in keys && rest <= keys
      invariant forall j :: j in keys && j !in rest ==> k <= j
      decreases |rest|
    {
      var j :| j in rest;
      if j < k {
        k := j;
      }
      rest := rest - {j};
    }
  }

  method SortedKeysOf(keys: set<nat>) returns (r: seq<nat>)
    ensures r == SortedKeys(keys)
  {
    r := [];
    var rest := keys;
    while rest != {}
      invariant SortedKeys(keys) == r + SortedKeys(rest)
      decreases |rest|
    {
      var k := LeastOf(rest);
      r := r + [k];
      rest := rest - {k};
    }
  }

  // ------------------------------------------------- activation

  /** One step of the merge: the keys before i are done. */
  ghost predicate Merging(r: map<nat, nat>, cumulative: map<nat, nat>, scratch: map<nat, nat>, done: seq<nat>) {
    && (forall n: nat :: n in r <==> n in cumulative || n in done)
    && (forall n: nat :: n in done ==> n in scratch && Get(r, n) == Max(Get(cumulative, n), scratch[n]))
    && (forall n: nat :: n !in done ==> Get(r, n) == Get(cumulative, n))
  }

  lemma MergeStep(r: map<nat, nat>, cumulative: map<nat, nat>, scratch: map<nat, nat>, done: seq<nat>, n: nat)
    requires Merging(r, cumulative, scratch, done) && n in scratch
    ensures Merging(r[n := Max(Get(r, n), scratch[n])], cumulative, scratch, done + [n])
  {
    forall k: nat
      ensures k in done + [n] <==> k in done || k == n
    {
    }
  }

  lemma MergeDone(r: map<nat, nat>, cumulative: map<nat, nat>, scratch: map<nat, nat>, done: seq<nat>)
    requires Merging(r, cumulative, scratch, done) && forall n: nat :: n in done <==> n in scratch
    ensures r == Merge(cumulative, scratch)
  {
    forall n: nat | n in r
      ensures r[n] == Merge(cumulative, scratch)[n]
    {
      assert Get(r, n) == r[n];
    }
  }

  method MergeInto(cumulative: map<nat, nat>, scratch: map<nat, nat>) returns (r: map<nat, nat>)
    ensures r == Merge(cumulative, scratch)
  {
    hide SortedKeys, Merging, Merge;
    var keys := SortedKeysOf(scratch.Keys);
    forall k: nat
      ensures k in keys <==> k in scratch
    {
      SortedKeysMembers(scratch.Keys, k);
    }
    r := cumulative;
    NothingMerged(cumulative, scratch);
    for i := 0 to |keys|
      invariant Merging(r, cumulative, scratch, keys[..i])
    {
      var n := keys[i];
      assert keys[..i + 1] == keys[..i] + [n];
      MergeStep(r, cumulative, scratch, keys[..i], n);
      r := r[n := Max(Get(r, n), scratch[n])];
    }
    assert keys[..|keys|] == keys;
    MergeDone(r, cumulative, scratch, keys);
  }

  lemma NothingMerged(cumulative: map<nat, nat>, scratch: map<nat, nat>)
    ensures Merging(cumulative, cumulative, scratch, [])
  {
  }

  /** A node without activation spreads nothing. */
  lemma {:induction false} NothingSpreads(edges: map<nat, Edge>, kind: EdgeKind, ids: seq<nat>, scratch: map<nat, nat>, energy: nat)
    requires forall id :: id in ids ==> id in edges
    ensures SpreadEdges(edges, kind, ids, 0, scratch, energy) == Some((scratch, energy))
  {
    if ids != [] {
      NothingSpreads(edges, kind, ids[1..], scratch, energy);
    }
  }

  method SpreadFrom(edges: map<nat, Edge>, kind: EdgeKind, ids: seq<nat>, value: nat, scratch: map<nat, nat>, energy: nat)
    returns (r: Option<(map<nat, nat>, nat)>)
    requires forall id :: id in ids ==> id in edges
    ensures r == SpreadEdges(edges, kind, ids, value, scratch, energy)
  {
    var field: map<nat, nat>, total: nat := scratch, energy;
    for k := 0 to |ids|
      invariant SpreadEdges(edges, kind, ids, value, scratch, energy) == SpreadEdges(edges, kind, ids[k..], value, field, total)
    {
      assert ids[k..][1..] == ids[k + 1..];
      var edge := edges[ids[k]];
      var next := value * SCALE / SCALE;
      if edge.kind != kind || next == 0 {
        continue;
      }
      if total + next > ENERGY_LIMIT {
        return None;
      }
      total := total + next;
      field := field[edge.target := Get(field, edge.target) + next];
    }
    r := Some((field, total));
  }

  lemma NodeListed(g: Graph, u: nat)
    requires EdgesListed(g)
    ensures forall id :: id in ListAt(g.adjacencyOut, u) ==> id in g.edges
    ensures forall id :: id in ListAt(g.adjacencyIn, u) ==> id in g.edges
  {
  }

  method Tick(g: Graph, kind: EdgeKind, frontier: map<nat, nat>, energy: nat) returns (r: Option<(map<nat, nat>, nat)>)
    requires EdgesListed(g)
    ensures r == SpreadNodes(g, kind, SortedKeys(frontier.Keys), frontier, map[], energy)
  {
    hide SpreadEdges, EdgesListed;
    var nodes := SortedKeysOf(frontier.Keys);
    var scratch: map<nat, nat>, total := map[], energy;
    for k := 0 to |nodes|
      invariant SpreadNodes(g, kind, nodes, frontier, map[], energy) == SpreadNodes(g, kind, nodes[k..], frontier, scratch, total)
    {
      assert nodes[k..][0] == nodes[k] && nodes[k..][1..] == nodes[k + 1..];
      var ids, value := ListAt(g.adjacencyOut, nodes[k]), Get(frontier, nodes[k]);
      NodeListed(g, nodes[k]);
      if value == 0 {
        NothingSpreads(g.edges, kind, ids, scratch, total);
        continue;
      }
      var spread := SpreadFrom(g.edges, kind, ids, value, scratch, total);
      if spread.None? {
        return None;
      }
      scratch, total := spread.value.0, spread.value.1;
    }
    r := Some((scratch, total));
  }

  method Propagated(g: Graph, kind: EdgeKind, source: nat, depth: nat) returns (r: Option<map<nat, nat>>)
    requires EdgesListed(g)
    ensures var ticks := Ticks(g, kind, depth, g.activation, map[source := Get(g.activation, source)], 0);
            r == if ticks.Some? then Some(ticks.value.0) else None
  {
    hide SpreadNodes, EdgesListed, SortedKeys, Merge, Get;
    var cumulative: map<nat, nat>, energy: nat := g.activation, 0;
    var frontier: map<nat, nat> := map[source := Get(g.activation, source)];
    ghost var start := frontier;
    for tick := 0 to depth
      invariant Ticks(g, kind, depth, g.activation, start, 0) == Ticks(g, kind, depth - tick, cumulative, frontier, energy)
    {
      var spread := Tick(g, kind, frontier, energy);
      if spread.None? {
        return None;
      }
      cumulative := MergeInto(cumulative, spread.value.0);
      frontier, energy := spread.value.0, spread.value.1;
    }
    r := Some(cumulative);
  }

  ghost predicate Decaying(r: map<nat, nat>, decayed: map<nat, nat>, done: seq<nat>) {
    && (forall n: nat :: n in r <==> n in done && n in decayed)
    && (forall n: nat :: n in r && n in decayed ==> r[n] == decayed[n])
  }

  lemma DecayStep(r: map<nat, nat>, decayed: map<nat, nat>, done: seq<nat>, n: nat)
    requires Decaying(r, decayed, done)
    ensures Decaying(if n in decayed then r[n := decayed[n]] else r, decayed, done + [n])
  {
    forall k: nat
      ensures k in done + [n] <==> k in done || k == n
    {
    }
  }

  lemma DecayAt(activation: map<nat, nat>, factor: nat, n: nat)
    requires n in activation
    ensures n in Decayed(activation, factor) <==> activation[n] * factor / SCALE > 0
    ensures n in Decayed(activation, factor) ==> Decayed(activation, factor)[n] == activation[n] * factor / SCALE
  {
  }

  lemma DecayDone(r: map<nat, nat>, decayed: map<nat, nat>, done: seq<nat>)
    requires Decaying(r, decayed, done) && forall n: nat :: n in decayed ==> n in done
    ensures r == decayed
  {
  }

  method DecayAll(activation: map<nat, nat>, factor: nat) returns (r: map<nat, nat>)
    ensures r == Decayed(activation, factor)
  {
    hide SortedKeys, Decayed, Decaying;
    var keys := SortedKeysOf(activation.Keys);
    forall k: nat
      ensures k in keys <==> k in activation
    {
      SortedKeysMembers(activation.Keys, k);
    }
    r := map[];
    NothingDecayed(Decayed(activation, factor));
    for i := 0 to |keys|
      invariant Decaying(r, Decayed(activation, factor), keys[..i])
    {
      var n := keys[i];
      assert keys[..i + 1] == keys[..i] + [n];
      DecayStep(r, Decayed(activation, factor), keys[..i], n);
      DecayAt(activation, factor, n);
      var value := activation[n] * factor / SCALE;
      if value > 0 {
        r := r[n := value];
      }
    }
    assert keys[..|keys|] == keys;
    DecayedKnown(activation, factor);
    DecayDone(r, Decayed(activation, factor), keys);
  }

  lemma NothingDecayed(decayed: map<nat, nat>)
    ensures Decaying(map[], decayed, [])
  {
  }

  lemma DecayedKnown(activation: map<nat, nat>, factor: nat)
    ensures forall n: nat :: n in Decayed(activation, factor) ==> n in activation
  {
  }

  method ConflictInto(g: Graph, ids: seq<nat>) returns (pressure: nat)
    requires forall id :: id in ids ==> id in g.edges
    ensures pressure == ConflictPressure(g, ids)
  {
    pressure := 0;
    for k := 0 to |ids|
      invariant ConflictPressure(g, ids) == pressure + ConflictPressure(g, ids[k..])
    {
      assert ids[k..][1..] == ids[k + 1..];
      var edge := g.edges[ids[k]];
      if edge.kind == Conflict {
        pressure := pressure + Get(g.activation, edge.source) * SCALE / SCALE;
      }
    }
  }

  /** Applies patches in place; refused when one falls outside the bytes. */
  method PatchInPlace(bytes: Bytes, residuals: seq<Patch>) returns (r: Option<Bytes>)
    ensures r == PatchAll(bytes, residuals)
  {
    var data := new byte[|bytes|](i requires 0 <= i < |bytes| => bytes[i]);
    assert data[..] == bytes;
    for k := 0 to |residuals|
      invariant PatchAll(bytes, residuals) == PatchAll(data[..], residuals[k..])
    {
      assert residuals[k..][0] == residuals[k] && residuals[k..][1..] == residuals[k + 1..];
      if residuals[k].offset >= data.Length {
        return None;
      }
      data[residuals[k].offset] := residuals[k].value;
    }
    r := Some(data[..]);
  }

  // ------------------------------------------------- the search

  method ExpandNode(g: Graph, ids: seq<nat>, visited: set<nat>, queue: seq<nat>) returns (r: seq<nat>)
    requires forall id :: id in ids ==> id in g.edges
    ensures queue <= r && Expanded(g, ids, |ids|, visited, r)
    ensures forall v :: v in r && v !in queue ==> exists id :: id in ids && g.edges[id].kind == Support && g.edges[id].target == v
  {
    r := queue;
    for k := 0 to |ids|
      invariant queue <= r && Expanded(g, ids, k, visited, r)
      invariant forall v :: v in r && v !in queue ==> exists id :: id in ids && g.edges[id].kind == Support && g.edges[id].target == v
    {
      var edge := g.edges[ids[k]];
      if edge.kind == Support && edge.target !in visited {
        assert ids[k] in ids;
        r := r + [edge.target];
      }
    }
  }

  lemma ExpandedNode(g: Graph, u: nat, v: nat, visited: set<nat>, queue: seq<nat>)
    requires forall id :: id in ListAt(g.adjacencyOut, u) ==> id in g.edges
    requires Expanded(g, ListAt(g.adjacencyOut, u), |ListAt(g.adjacencyOut, u)|, visited, queue) && SupportEdge(g, u, v)
    ensures v in visited || v in queue
  {
    var ids := ListAt(g.adjacencyOut, u);
    var id :| id in ids && id in g.edges && g.edges[id].kind == Support && g.edges[id].target == v;
    var k :| 0 <= k < |ids| && ids[k] == id;
  }

  ghost predicate Met(g: Graph, source: nat, u: nat) {
    SupportReachable(g, source, u) && u in Meetable(g, source)
  }

  /** Support edges out of visited nodes lead to visited or queued ones. */
  ghost predicate Frontier(g: Graph, visited: set<nat>, queue: seq<nat>) {
    forall u, v :: u in visited && SupportEdge(g, u, v) ==> v in visited || v in queue
  }

  /** Expanding a node keeps the frontier, whether or not it leads on. */
  lemma FrontierStep(g: Graph, node: nat, visited: set<nat>, rest: seq<nat>, queue: seq<nat>)
    requires Frontier(g, visited, [node] + rest) && rest <= queue
    requires forall id :: id in ListAt(g.adjacencyOut, node) ==> id in g.edges
    requires Expanded(g, ListAt(g.adjacencyOut, node), |ListAt(g.adjacencyOut, node)|, visited + {node}, queue)
    ensures Frontier(g, visited + {node}, queue)
  {
    hide SupportEdge, Expanded;
    forall u, v | u in visited + {node} && SupportEdge(g, u, v)
      ensures v in visited + {node} || v in queue
    {
      if u == node {
        ExpandedNode(g, node, v, visited + {node}, queue);
      } else {
        assert v in visited || v in [node] + rest;
        if v in rest {
          assert v in queue;
        }
      }
    }
  }

  lemma FrontierSkips(g: Graph, node: nat, visited: set<nat>, rest: seq<nat>)
    requires Frontier(g, visited, [node] + rest) && node in visited
    ensures Frontier(g, visited, rest)
  {
    hide SupportEdge;
  }

  lemma TargetMet(g: Graph, source: nat, node: nat, id: nat)
    requires Met(g, source, node)
    requires id in ListAt(g.adjacencyOut, node) && id in g.edges && g.edges[id].kind == Support
    ensures Met(g, source, g.edges[id].target)
  {
    EdgeFound(g, node, id);
    ReachOneFurther(g, source, node, g.edges[id].target);
  }

  lemma FewerLeft(all: set<nat>, visited: set<nat>, node: nat)
    requires node in all && node !in visited
    ensures |all - (visited + {node})| < |all - visited|
  {
    Shrinks(all - (visited + {node}), all - visited);
  }

  /** Whether support edges lead from source to target: a breadth-first search, which ends on every graph. */
  method SupportPathExists(g: Graph, source: nat, target: nat) returns (found: bool)
    requires EdgesListed(g)
    ensures found <==> SupportReachable(g, source, target)
  {
    hide SupportEdge, SupportReachable, EdgesListed, Expanded, Frontier, Meetable, Met;
    var queue: seq<nat>, visited: set<nat> := [source], {};
    SearchStarts(g, source);
    while queue != []
      invariant forall u :: u in queue ==> Met(g, source, u)
      invariant Frontier(g, visited, queue)
      invariant source in visited || source in queue
      invariant target !in visited
      decreases |Meetable(g, source) - visited|, |queue|
    {
      var node, rest := queue[0], queue[1..];
      assert queue == [node] + rest;
      MetMeans(g, source, node);
      if node == target {
        return true;
      }
      if node in visited {
        FrontierSkips(g, node, visited, rest);
        queue := rest;
        continue;
      }
      var ids := ListAt(g.adjacencyOut, node);
      NodeListed(g, node);
      queue := ExpandNode(g, ids, visited + {node}, rest);
      FrontierStep(g, node, visited, rest, queue);
      FewerLeft(Meetable(g, source), visited, node);
      forall u | u in queue
        ensures Met(g, source, u)
      {
        if u !in rest {
          var id :| id in ids && g.edges[id].kind == Support && g.edges[id].target == u;
          TargetMet(g, source, node, id);
        }
      }
      visited := visited + {node};
    }
    NotReached(g, source, target, visited);
    found := false;
  }

  lemma SearchStarts(g: Graph, source: nat)
    ensures Met(g, source, source) && Frontier(g, {}, [source])
  {
    ReachedFromSource(g, source);
  }

  lemma MetMeans(g: Graph, source: nat, u: nat)
    requires Met(g, source, u)
    ensures SupportReachable(g, source, u) && u in Meetable(g, source)
  {
  }

  lemma {:induction false} Shrinks(a: set<nat>, b: set<nat>)
    requires a < b
    ensures |a| < |b|
  {
    var x :| x in b && x !in a;
    if a != {} {
      var y :| y in a;
      Shrinks(a - {y}, b - {y});
    }
  }

  lemma EdgeFound(g: Graph, u: nat, id: nat)
    requires id in ListAt(g.adjacencyOut, u) && id in g.edges && g.edges[id].kind == Support
    ensures SupportEdge(g, u, g.edges[id].target)
  {
  }

  lemma NotReached(g: Graph, source: nat, target: nat, visited: set<nat>)
    requires source in visited && target !in visited && Frontier(g, visited, [])
    ensures !SupportReachable(g, source, target)
  {
    hide SupportEdge;
    if SupportReachable(g, source, target) {
      var path :| IsSupportPath(g, path) && path[0] == source && path[|path| - 1] == target;
      ClosedSetHoldsPath(g, visited, path);
    }
  }

  // ------------------------------------------------- the machine

  class BogVm {
    const manifest: Manifest
    const sha: Sha

    var nodeTable: set<nat>
    var edgeTable: map<nat, Edge>
    var adjacencyOut: map<nat, seq<nat>>
    var adjacencyIn: map<nat, seq<nat>>
    var activation: map<nat, nat>

    var claimTable: map<nat, Claim>
    var tension: map<nat, nat>
    var pressure: map<nat, Pressure>
    var verdicts: map<nat, Verdict>
    var acceptedClaims: seq<nat>
    var rejectedClaims: seq<nat>
    var quarantinedClaims: seq<nat>

    var dataBlocks: map<nat, Block>
    var activeBasis: Option<Basis>
    var hashVerified: map<nat, bool>
    var acceptedBlocks: seq<nat>
    var rejectedBlocks: seq<nat>

    var receiptEmitted: bool

    function GraphValue(): Graph
      reads this
    {
      Graph(nodeTable, edgeTable, adjacencyOut, adjacencyIn, activation)
    }

    function ClaimsValue(): Claims
      reads this
    {
      Claims(claimTable, tension, pressure, verdicts, acceptedClaims, rejectedClaims, quarantinedClaims)
    }

    function DataValue(): Data
      reads this
    {
      Data(dataBlocks, activeBasis, hashVerified, acceptedBlocks, rejectedBlocks)
    }

    /** The machine's state as a value. */
    function Snapshot(): State
      reads this
    {
      State(GraphValue(), ClaimsValue(), DataValue(), receiptEmitted)
    }

    constructor (manifest: Manifest, sha: Sha)
      ensures Snapshot() == INITIAL && this.manifest == manifest && this.sha == sha
    {
      this.manifest, this.sha := manifest, sha;
      nodeTable, edgeTable, adjacencyOut, adjacencyIn, activation := {}, map[], map[], map[], map[];
      claimTable, tension, pressure, verdicts := map[], map[], map[], map[];
      acceptedClaims, rejectedClaims, quarantinedClaims := [], [], [];
      dataBlocks, activeBasis, hashVerified, acceptedBlocks, rejectedBlocks := map[], None, map[], [], [];
      receiptEmitted := false;
    }

    method ExecuteGraph(i: Instruction, op: Op) returns (r: Signal)
      requires EdgesListed(GraphValue())
      modifies this`nodeTable, this`edgeTable, this`adjacencyOut, this`adjacencyIn, this`activation
      ensures match StepGraph(old(GraphValue()), i, op, manifest)
              case Next(g) => r == Proceed && GraphValue() == g
              case Blocked(reason) => r == Raise(reason) && GraphValue() == old(GraphValue())
              case KeyMissing => r == MissingKey
    {
      hide EdgesListed, AddSorted, Ticks, Decayed;
      r := Proceed;
      match op
      case CreateNode =>
        if i.target !in manifest.nodes {
          return Raise(MissingNodeSymbol);
        }
        nodeTable := nodeTable + {i.target};
      case CreateEdge =>
        if i.source !in nodeTable || i.param !in nodeTable {
          return Raise(UnknownNode);
        }
        var kind := EdgeKindOf(i.flags);
        if kind.None? {
          return Raise(UnknownEdgeType);
        }
        edgeTable := edgeTable[i.target := Edge(i.source, i.param, kind.value)];
        adjacencyOut := adjacencyOut[i.source := AddSorted(ListAt(adjacencyOut, i.source), i.target)];
        adjacencyIn := adjacencyIn[i.param := AddSorted(ListAt(adjacencyIn, i.param), i.target)];
      case Activate =>
        if i.target !in nodeTable {
          return Raise(UnknownNode);
        }
        if i.param > SCALE {
          return Raise(ActivationRange);
        }
        activation := activation[i.target := i.param];
      case Propagate =>
        var kind := EdgeKindOf(i.flags);
        if kind.None? {
          return Raise(UnknownEdgeType);
        }
        var field := Propagated(GraphValue(), kind.value, i.source, i.param);
        if field.None? {
          return Raise(EnergyLimit);
        }
        activation := field.value;
      case Decay =>
        if i.param > SCALE {
          return Raise(DecayRange);
        }
        activation := DecayAll(activation, i.param);
      case _ =>
    }

    method Interfere(id: nat)
      requires EdgesListed(GraphValue()) && id in claimTable
      modifies this`pressure, this`tension
      ensures StepOnClaim(GraphValue(), old(ClaimsValue()), id, Op.Interfere) == Next(ClaimsValue())
    {
      hide EdgesListed, ConflictPressure;
      var node := claimTable[id].target;
      var support := Get(activation, node);
      NodeListed(GraphValue(), node);
      var conflict := ConflictInto(GraphValue(), ListAt(adjacencyIn, node));
      pressure := pressure[id := Pressure(support, conflict)];
      tension := tension[id := Min(support, conflict)];
    }

    method VerifyClaim(id: nat) returns (verdict: Verdict)
      requires EdgesListed(GraphValue()) && id in claimTable
      ensures verdict == VerdictOf(GraphValue(), ClaimsValue(), id)
    {
      hide EdgesListed, SupportReachable;
      if id in pressure && pressure[id].conflict > 0 {
        return Rejected;
      }
      var found := SupportPathExists(GraphValue(), claimTable[id].source, claimTable[id].target);
      verdict := if found then Verified else Abstained;
    }

    method ExecuteOnClaim(id: nat, op: Op) returns (r: Signal)
      requires EdgesListed(GraphValue()) && id in claimTable
      modifies this`tension, this`pressure, this`verdicts, this`acceptedClaims, this`rejectedClaims, this`quarantinedClaims
      ensures match StepOnClaim(GraphValue(), old(ClaimsValue()), id, op)
              case Next(c) => r == Proceed && ClaimsValue() == c
              case Blocked(reason) => r == Raise(reason) && ClaimsValue() == old(ClaimsValue())
              case KeyMissing => r == MissingKey
    {
      hide EdgesListed, VerdictOf, ConflictPressure, AddSorted;
      r := Proceed;
      match op
      case Interfere => Interfere(id);
      case ComputeTension =>
        var p := if id in pressure then pressure[id] else Pressure(0, 0);
        tension := tension[id := Min(p.support, p.conflict)];
      case Verify =>
        var verdict := VerifyClaim(id);
        verdicts := verdicts[id := verdict];
      case Accept =>
        if id in verdicts && verdicts[id] == Rejected {
          RepairRejectedClaim(id);
        } else if id !in verdicts || verdicts[id] != Verified {
          return Raise(AcceptWithoutVerify);
        } else if id !in acceptedClaims {
          acceptedClaims := AddSorted(acceptedClaims, id);
        }
      case Reject =>
        if id !in rejectedClaims {
          rejectedClaims := AddSorted(rejectedClaims, id);
        }
      case Quarantine =>
        if id !in quarantinedClaims {
          quarantinedClaims := AddSorted(quarantinedClaims, id);
        }
      case _ =>
    }

    method RepairRejectedClaim(id: nat)
      modifies this`rejectedClaims, this`quarantinedClaims
      ensures rejectedClaims == Register(old(rejectedClaims), id)
      ensures quarantinedClaims == Register(old(quarantinedClaims), id)
    {
      hide AddSorted;
      if id !in rejectedClaims {
        rejectedClaims := AddSorted(rejectedClaims, id);
      }
      if id !in quarantinedClaims {
        quarantinedClaims := AddSorted(quarantinedClaims, id);
      }
    }

    method ExecuteClaim(i: Instruction, op: Op) returns (r: Signal)
      requires EdgesListed(GraphValue())
      modifies this`claimTable, this`tension, this`pressure, this`verdicts,
               this`acceptedClaims, this`rejectedClaims, this`quarantinedClaims
      ensures match StepClaim(GraphValue(), old(ClaimsValue()), i, op, manifest)
              case Next(c) => r == Proceed && ClaimsValue() == c
              case Blocked(reason) => r == Raise(reason) && ClaimsValue() == old(ClaimsValue())
              case KeyMissing => r == MissingKey
    {
      hide EdgesListed, StepOnClaim;
      if op.CreateClaim? {
        if i.target !in manifest.claims {
          return Raise(MissingClaimSymbol);
        }
        if i.source !in nodeTable || i.param !in nodeTable {
          return MissingKey;
        }
        claimTable := claimTable[i.target := Claim(i.source, i.param)];
        return Proceed;
      }
      if i.target !in claimTable {
        return MissingKey;
      }
      r := ExecuteOnClaim(i.target, op);
    }

    method ExecuteOnBlock(i: Instruction, op: Op) returns (r: Signal)
      requires i.target in dataBlocks
      modifies this`dataBlocks, this`hashVerified, this`acceptedBlocks, this`rejectedBlocks
      ensures match StepOnBlock(old(DataValue()), i, op, manifest, sha)
              case Next(d) => r == Proceed && DataValue() == d
              case Blocked(reason) => r == Raise(reason) && DataValue() == old(DataValue())
    {
      hide AddSorted, Sort, PatchAll, SynthesizeBasis;
      r := Proceed;
      var id, block := i.target, dataBlocks[i.target];
      match op
      case Synthesize =>
        if block.basis.None? {
          return Raise(SynthesisFailed);
        }
        dataBlocks := dataBlocks[id := block.(bytes := SynthesizeBasis(block.basis.value, block.start, block.length, block.delta))];
      case StoreResidual =>
        if i.source >= block.length || i.param > 255 {
          return Raise(ResidualRange);
        }
        dataBlocks := dataBlocks[id := block.(residuals := Sort(block.residuals + [Patch(i.source, i.param)], PatchLe))];
      case ApplyResidual =>
        var bytes := PatchInPlace(block.bytes, block.residuals);
        if bytes.None? {
          return Raise(ResidualRange);
        }
        dataBlocks := dataBlocks[id := block.(bytes := bytes.value)];
      case VerifyHash =>
        if i.source !in manifest.constants {
          return Raise(MissingConstant);
        }
        hashVerified := hashVerified[id := sha(block.bytes) == manifest.constants[i.source]];
      case AcceptData =>
        if id !in hashVerified || !hashVerified[id] {
          return Raise(AcceptDataWithoutHash);
        }
        if id !in acceptedBlocks {
          acceptedBlocks := AddSorted(acceptedBlocks, id);
        }
      case RejectData =>
        if id !in hashVerified || hashVerified[id] {
          return Raise(RejectDataWithoutFailure);
        }
        if id !in rejectedBlocks {
          rejectedBlocks := AddSorted(rejectedBlocks, id);
        }
      case _ =>
    }

    method ExecuteData(i: Instruction, op: Op) returns (r: Signal)
      modifies this`dataBlocks, this`activeBasis, this`hashVerified, this`acceptedBlocks, this`rejectedBlocks
      ensures match StepData(old(DataValue()), i, op, manifest, sha)
              case Next(d) => r == Proceed && DataValue() == d
              case Blocked(reason) => r == Raise(reason) && DataValue() == old(DataValue())
    {
      hide StepOnBlock, BasisOf;
      if op.DeclareBasis? {
        if i.target !in manifest.constants {
          return Raise(MissingConstant);
        }
        var basis := BasisOf(manifest.constants[i.target]);
        if basis.None? {
          return Raise(UnsupportedBasis);
        }
        activeBasis := basis;
        return Proceed;
      }
      if op.LoadCoefficients? {
        if i.target !in manifest.dataBlocks {
          return Raise(MissingDataSymbol);
        }
        if i.source > 255 || i.flags > 255 {
          return Raise(CoefficientRange);
        }
        dataBlocks := dataBlocks[i.target := Block(activeBasis, i.source, i.flags, i.param, [], [])];
        return Proceed;
      }
      if i.target !in dataBlocks {
        return Raise(MissingBlock);
      }
      r := ExecuteOnBlock(i, op);
    }

    /** One turn of the instruction loop. */
    method Execute(i: Instruction) returns (r: Signal)
      requires EdgesListed(GraphValue())
      modifies this
      ensures match Step(old(Snapshot()), i, manifest, sha)
              case Next(t) => r == Proceed && Snapshot() == t
              case Blocked(reason) => r == Raise(reason) && Snapshot() == old(Snapshot())
              case KeyMissing => r == MissingKey
    {
      hide EdgesListed, StepGraph, StepClaim, StepData, IsDataOp, IsClaimOp;
      var name := i.Name();
      if name.None? {
        return Raise(UnknownOpcode);
      }
      var op := name.value;
      if op.EmitReceipt? {
        receiptEmitted := true;
        return Proceed;
      }
      if IsDataOp(op) {
        r := ExecuteData(i, op);
        assert GraphValue() == old(GraphValue()) && ClaimsValue() == old(ClaimsValue());
      } else if IsClaimOp(op) {
        r := ExecuteClaim(i, op);
        assert GraphValue() == old(GraphValue()) && DataValue() == old(DataValue());
      } else {
        r := ExecuteGraph(i, op);
        assert ClaimsValue() == old(ClaimsValue()) && DataValue() == old(DataValue());
      }
    }

    /** Runs a program from the machine's present state to its halt, its first block, or its end. */
    method RunProgram(code: seq<Instruction>) returns (r: RunEnd)
      requires EdgesListed(GraphValue())
      modifies this
      ensures match Run(code, old(Snapshot()), manifest, sha)
              case Completed(s) => r == Halted && Snapshot() == s
              case Stopped(s, reason) => r == Refused(reason) && Snapshot() == s
              case Failed => r == Crashed
    {
      hide EdgesListed, Step;
      for pc := 0 to |code|
        invariant EdgesListed(GraphValue())
        invariant Run(code, old(Snapshot()), manifest, sha) == Run(code[pc..], Snapshot(), manifest, sha)
      {
        assert code[pc..][0] == code[pc] && code[pc..][1..] == code[pc + 1..];
        if code[pc].Name() == Some(Halt) {
          return Halted;
        }
        ghost var before := Snapshot();
        var signal := Execute(code[pc]);
        match signal
        case Raise(reason) => return Refused(reason);
        case MissingKey => return Crashed;
        case Proceed => StepKeepsEdges(before, code[pc], manifest, sha);
      }
      r := Refused(EndedWithoutHalt);
    }
  }
}
