/**
 The state of the BOG virtual machine and the effect of one instruction (bogvm/vm.py). A step continues,
 is blocked by a law of the machine (`VMError`, the state stays as it was), or fails on a missing key.
 */
module Machine {
  import opened Wrappers
  import opened Sorting
  import opened ByteStrings
  import opened Bases
  import opened Optimizer
  import opened Containers
  import opened Instructions

  const SCALE: nat := 1000
  const ENERGY_LIMIT: nat := 1000000000

  datatype EdgeKind = Support | Conflict
  datatype Edge = Edge(source: nat, target: nat, kind: EdgeKind)
  datatype Claim = Claim(source: nat, target: nat)
  datatype Pressure = Pressure(support: nat, conflict: nat)
  datatype Verdict = Verified | Rejected | Abstained
  datatype Block = Block(basis: Option<Basis>, start: byte, delta: byte, length: nat, bytes: Bytes, residuals: seq<Patch>)

  /** The symbol tables of a program, by id. */
  datatype Manifest = Manifest(
    nodes: map<nat, string>, claims: map<nat, string>, dataBlocks: map<nat, string>, constants: map<nat, string>)

  /** The three parts of the machine's state: graph and activation, claims, data blocks. */
  datatype Graph = Graph(
    nodes: set<nat>, edges: map<nat, Edge>, adjacencyOut: map<nat, seq<nat>>, adjacencyIn: map<nat, seq<nat>>,
    activation: map<nat, nat>)

  datatype Claims = Claims(
    table: map<nat, Claim>, tension: map<nat, nat>, pressure: map<nat, Pressure>, verdicts: map<nat, Verdict>,
    accepted: seq<nat>, rejected: seq<nat>, quarantined: seq<nat>)

  datatype Data = Data(
    blocks: map<nat, Block>, basis: Option<Basis>, hashVerified: map<nat, bool>,
    accepted: seq<nat>, rejected: seq<nat>)

  datatype State = State(graph: Graph, claims: Claims, data: Data, emitted: bool)

  const INITIAL: State := State(
    Graph({}, map[], map[], map[], map[]), Claims(map[], map[], map[], map[], [], [], []),
    Data(map[], None, map[], [], []), false)

  datatype BlockReason =
    | UnknownOpcode | MissingNodeSymbol | UnknownNode | UnknownEdgeType | MissingClaimSymbol | ActivationRange
    | EnergyLimit | DecayRange | AcceptWithoutVerify | MissingConstant | UnsupportedBasis | MissingDataSymbol
    | CoefficientRange | MissingBlock | SynthesisFailed | AcceptDataWithoutHash | RejectDataWithoutFailure
    | ResidualRange | EndedWithoutHalt

  datatype Outcome<T> = Next(state: T) | Blocked(reason: BlockReason) | KeyMissing

  // ------------------------------------------------- small helpers

  function Get(m: map<nat, nat>, k: nat): nat {
    if k in m then m[k] else 0
  }

  function ListAt(m: map<nat, seq<nat>>, k: nat): seq<nat> {
    if k in m then m[k] else []
  }

  predicate NatLe(a: nat, b: nat) {
    a <= b
  }

  /** `append` followed by `sort`. */
  function AddSorted(ids: seq<nat>, id: nat): seq<nat> {
    Sort(ids + [id], NatLe)
  }

  /** Adds an id to an accept or reject list once, keeping the list sorted. */
  function Register(ids: seq<nat>, id: nat): seq<nat> {
    if id in ids then ids else AddSorted(ids, id)
  }

  predicate PatchLe(a: Patch, b: Patch) {
    a.offset < b.offset || (a.offset == b.offset && a.value <= b.value)
  }

  function EdgeKindOf(flags: nat): Option<EdgeKind> {
    if flags == 1 then Some(Support) else if flags == 2 then Some(Conflict) else None
  }

  /** Applies patches from the first on; refused if one falls outside the bytes. */
  function PatchAll(bytes: Bytes, residuals: seq<Patch>): (r: Option<Bytes>)
    ensures r.Some? ==> |r.value| == |bytes|
    decreases |residuals|
  {
    if residuals == [] then Some(bytes)
    else if residuals[0].offset >= |bytes| then None
    else PatchAll(bytes[residuals[0].offset := residuals[0].value], residuals[1..])
  }

  function BasisName(basis: Basis): string {
    match basis
    case ZeroBlock => "zero_block"
    case RepeatByte => "repeat_byte"
    case DeltaU8 => "delta_u8"
    case DictionaryU8 => "dictionary_u8"
    case RleU8 => "rle_u8"
    case RampU8 => "ramp_u8"
    case TriangleU8 => "triangle_u8"
    case Sine8U8 => "sine8_u8"
    case Fourier8U8 => "fourier8_u8"
  }

  /** The basis of a name, if it is one of BASIS_ORDER. */
  function BasisOf(name: string): (r: Option<Basis>)
    ensures r.Some? ==> BasisName(r.value) == name
  {
    if name == "zero_block" then Some(ZeroBlock)
    else if name == "repeat_byte" then Some(RepeatByte)
    else if name == "delta_u8" then Some(DeltaU8)
    else if name == "dictionary_u8" then Some(DictionaryU8)
    else if name == "rle_u8" then Some(RleU8)
    else if name == "ramp_u8" then Some(RampU8)
    else if name == "triangle_u8" then Some(TriangleU8)
    else if name == "sine8_u8" then Some(Sine8U8)
    else if name == "fourier8_u8" then Some(Fourier8U8)
    else None
  }

  // ------------------------------------------------- the graph

  /** The keys of a finite map in increasing order. */
  ghost function SortedKeys(keys: set<nat>): seq<nat> {
    if keys == {} then [] else [Least(keys)] + SortedKeys(keys - {Least(keys)})
  }

  lemma {:induction false} SortedKeysMembers(keys: set<nat>, k: nat)
    ensures k in SortedKeys(keys) <==> k in keys
  {
    if keys != {} {
      SortedKeysMembers(keys - {Least(keys)}, k);
    }
  }

  lemma {:induction false} SortedKeysIncrease(keys: set<nat>)
    ensures forall i, j :: 0 <= i < j < |SortedKeys(keys)| ==> SortedKeys(keys)[i] < SortedKeys(keys)[j]
  {
    if keys != {} {
      var k, rest := Least(keys), SortedKeys(keys - {Least(keys)});
      SortedKeysIncrease(keys - {k});
      forall i | 0 <= i < |rest|
        ensures k < rest[i]
      {
        SortedKeysMembers(keys - {k}, rest[i]);
      }
    }
  }

  ghost function Least(keys: set<nat>): (k: nat)
    requires keys != {}
    ensures k in keys && forall j :: j in keys ==> k <= j
  {
    var k :| k in keys;
    if keys == {k} then k
    else
      var least := Least(keys - {k});
      assert forall j :: j in keys ==> j == k || j in keys - {k};
      Min(k, least)
  }

  /** The walk of activation along the edges in `ids`; None when the energy limit is passed. */
  function SpreadEdges(edges: map<nat, Edge>, kind: EdgeKind, ids: seq<nat>, value: nat, scratch: map<nat, nat>, energy: nat):
      Option<(map<nat, nat>, nat)>
    requires forall id :: id in ids ==> id in edges
  {
    if ids == [] then Some((scratch, energy))
    else
      var edge := edges[ids[0]];
      var next := value * SCALE / SCALE;
      if edge.kind != kind || next == 0 then SpreadEdges(edges, kind, ids[1..], value, scratch, energy)
      else if energy + next > ENERGY_LIMIT then None
      else SpreadEdges(edges, kind, ids[1..], value,
                       scratch[edge.target := Get(scratch, edge.target) + next], energy + next)
  }

  /** Every edge id in an adjacency list has an entry in the edge table. */
  ghost predicate EdgesListed(g: Graph) {
    && (forall u, id :: u in g.adjacencyOut && id in g.adjacencyOut[u] ==> id in g.edges)
    && (forall u, id :: u in g.adjacencyIn && id in g.adjacencyIn[u] ==> id in g.edges)
  }

  function SpreadNodes(g: Graph, kind: EdgeKind, nodes: seq<nat>, frontier: map<nat, nat>, scratch: map<nat, nat>, energy: nat):
      Option<(map<nat, nat>, nat)>
    requires EdgesListed(g)
  {
    if nodes == [] then Some((scratch, energy))
    else match SpreadEdges(g.edges, kind, ListAt(g.adjacencyOut, nodes[0]), Get(frontier, nodes[0]), scratch, energy)
      case None => None
      case Some((scratch', energy')) => SpreadNodes(g, kind, nodes[1..], frontier, scratch', energy')
  }

  function Max(a: nat, b: nat): nat {
    if a < b then b else a
  }

  function Min(a: nat, b: nat): nat {
    if a < b then a else b
  }

  /** `cumulative[n] = max(cumulative.get(n, 0), scratch[n])` for every n in scratch. */
  function Merge(cumulative: map<nat, nat>, scratch: map<nat, nat>): map<nat, nat> {
    map n | n in cumulative.Keys + scratch.Keys :: if n in scratch then Max(Get(cumulative, n), scratch[n]) else cumulative[n]
  }

  /** The field and the energy after `depth` ticks; None when the energy limit is passed. */
  ghost function Ticks(g: Graph, kind: EdgeKind, depth: nat, cumulative: map<nat, nat>, frontier: map<nat, nat>, energy: nat):
      Option<(map<nat, nat>, nat)>
    requires EdgesListed(g)
  {
    if depth == 0 then Some((cumulative, energy))
    else match SpreadNodes(g, kind, SortedKeys(frontier.Keys), frontier, map[], energy)
      case None => None
      case Some((scratch, energy')) => Ticks(g, kind, depth - 1, Merge(cumulative, scratch), scratch, energy')
  }

  /** Conflict edges into a node, weighted by the activation of their sources. */
  function ConflictPressure(g: Graph, ids: seq<nat>): nat
    requires forall id :: id in ids ==> id in g.edges
  {
    if ids == [] then 0
    else
      var edge := g.edges[ids[0]];
      (if edge.kind == Conflict then Get(g.activation, edge.source) * SCALE / SCALE else 0) + ConflictPressure(g, ids[1..])
  }

  /** One support edge from u to v. */
  ghost predicate SupportEdge(g: Graph, u: nat, v: nat) {
    exists id :: id in ListAt(g.adjacencyOut, u) && id in g.edges && g.edges[id].kind == Support && g.edges[id].target == v
  }

  ghost predicate IsSupportPath(g: Graph, path: seq<nat>) {
    path != [] && forall i :: 0 <= i < |path| - 1 ==> SupportEdge(g, path[i], path[i + 1])
  }

  ghost predicate SupportReachable(g: Graph, source: nat, target: nat) {
    exists path :: IsSupportPath(g, path) && path[0] == source && path[|path| - 1] == target
  }

  /** `_verify_claim`: rejected under conflict pressure, else verified exactly when support reaches the target. */
  ghost function VerdictOf(g: Graph, c: Claims, id: nat): Verdict
    requires id in c.table
  {
    if id in c.pressure && c.pressure[id].conflict > 0 then Rejected
    else if SupportReachable(g, c.table[id].source, c.table[id].target) then Verified
    else Abstained
  }

  // ------------------------------------------------- one instruction

  ghost function StepGraph(g: Graph, i: Instruction, op: Op, m: Manifest): Outcome<Graph>
    requires EdgesListed(g)
  {
    match op
    case CreateNode =>
      if i.target !in m.nodes then Blocked(MissingNodeSymbol) else Next(g.(nodes := g.nodes + {i.target}))
    case CreateEdge =>
      if i.source !in g.nodes || i.param !in g.nodes then Blocked(UnknownNode)
      else (match EdgeKindOf(i.flags)
        case None => Blocked(UnknownEdgeType)
        case Some(kind) => Next(WithEdge(g, i.target, Edge(i.source, i.param, kind))))
    case Activate =>
      if i.target !in g.nodes then Blocked(UnknownNode)
      else if i.param > SCALE then Blocked(ActivationRange)
      else Next(g.(activation := g.activation[i.target := i.param]))
    case Propagate =>
      (match EdgeKindOf(i.flags)
       case None => Blocked(UnknownEdgeType)
       case Some(kind) =>
         match Ticks(g, kind, i.param, g.activation, map[i.source := Get(g.activation, i.source)], 0)
         case None => Blocked(EnergyLimit)
         case Some((field, _)) => Next(g.(activation := field)))
    case Decay =>
      if i.param > SCALE then Blocked(DecayRange) else Next(g.(activation := Decayed(g.activation, i.param)))
    case _ => Next(g)
  }

  function WithEdge(g: Graph, id: nat, edge: Edge): Graph {
    g.(edges := g.edges[id := edge],
       adjacencyOut := g.adjacencyOut[edge.source := AddSorted(ListAt(g.adjacencyOut, edge.source), id)],
       adjacencyIn := g.adjacencyIn[edge.target := AddSorted(ListAt(g.adjacencyIn, edge.target), id)])
  }

  function Decayed(activation: map<nat, nat>, factor: nat): map<nat, nat> {
    map n | n in activation && activation[n] * factor / SCALE > 0 :: activation[n] * factor / SCALE
  }

  ghost function StepClaim(g: Graph, c: Claims, i: Instruction, op: Op, m: Manifest): Outcome<Claims>
    requires EdgesListed(g)
  {
    if op.CreateClaim? then
      if i.target !in m.claims then Blocked(MissingClaimSymbol)
      else if i.source !in g.nodes || i.param !in g.nodes then KeyMissing
      else Next(c.(table := c.table[i.target := Claim(i.source, i.param)]))
    else if i.target !in c.table then KeyMissing
    else StepOnClaim(g, c, i.target, op)
  }

  ghost function StepOnClaim(g: Graph, c: Claims, id: nat, op: Op): Outcome<Claims>
    requires EdgesListed(g) && id in c.table
  {
    match op
    case Interfere =>
      var node := c.table[id].target;
      var support, conflict := Get(g.activation, node), ConflictPressure(g, ListAt(g.adjacencyIn, node));
      Next(c.(pressure := c.pressure[id := Pressure(support, conflict)],
              tension := c.tension[id := Min(support, conflict)]))
    case ComputeTension =>
      var p := if id in c.pressure then c.pressure[id] else Pressure(0, 0);
      Next(c.(tension := c.tension[id := Min(p.support, p.conflict)]))
    case Verify => Next(c.(verdicts := c.verdicts[id := VerdictOf(g, c, id)]))
    case Accept =>
      if id !in c.verdicts || c.verdicts[id] == Abstained then Blocked(AcceptWithoutVerify)
      else if c.verdicts[id] == Rejected then
        Next(c.(rejected := Register(c.rejected, id), quarantined := Register(c.quarantined, id)))
      else Next(c.(accepted := Register(c.accepted, id)))
    case Reject => Next(c.(rejected := Register(c.rejected, id)))
    case Quarantine => Next(c.(quarantined := Register(c.quarantined, id)))
    case _ => Next(c)
  }

  function StepData(d: Data, i: Instruction, op: Op, m: Manifest, sha: Sha): (r: Outcome<Data>)
    ensures !r.KeyMissing?
  {
    if op.DeclareBasis? then
      if i.target !in m.constants then Blocked(MissingConstant)
      else match BasisOf(m.constants[i.target])
        case None => Blocked(UnsupportedBasis)
        case Some(basis) => Next(d.(basis := Some(basis)))
    else if op.LoadCoefficients? then
      if i.target !in m.dataBlocks then Blocked(MissingDataSymbol)
      else if i.source > 255 || i.flags > 255 then Blocked(CoefficientRange)
      else Next(d.(blocks := d.blocks[i.target := Block(d.basis, i.source, i.flags, i.param, [], [])]))
    else if i.target !in d.blocks then Blocked(MissingBlock)
    else StepOnBlock(d, i, op, m, sha)
  }

  function StepOnBlock(d: Data, i: Instruction, op: Op, m: Manifest, sha: Sha): (r: Outcome<Data>)
    requires i.target in d.blocks
    ensures !r.KeyMissing?
  {
    var block := d.blocks[i.target];
    match op
    case Synthesize =>
      if block.basis.None? then Blocked(SynthesisFailed)
      else Next(d.(blocks := d.blocks[i.target :=
             block.(bytes := SynthesizeBasis(block.basis.value, block.start, block.length, block.delta))]))
    case StoreResidual =>
      if i.source >= block.length || i.param > 255 then Blocked(ResidualRange)
      else Next(d.(blocks := d.blocks[i.target :=
             block.(residuals := Sort(block.residuals + [Patch(i.source, i.param)], PatchLe))]))
    case ApplyResidual =>
      (match PatchAll(block.bytes, block.residuals)
       case None => Blocked(ResidualRange)
       case Some(bytes) => Next(d.(blocks := d.blocks[i.target := block.(bytes := bytes)])))
    case VerifyHash =>
      if i.source !in m.constants then Blocked(MissingConstant)
      else Next(d.(hashVerified := d.hashVerified[i.target := sha(block.bytes) == m.constants[i.source]]))
    case AcceptData =>
      if i.target in d.hashVerified && d.hashVerified[i.target] then Next(d.(accepted := Register(d.accepted, i.target)))
      else Blocked(AcceptDataWithoutHash)
    case RejectData =>
      if i.target in d.hashVerified && !d.hashVerified[i.target] then Next(d.(rejected := Register(d.rejected, i.target)))
      else Blocked(RejectDataWithoutFailure)
    case _ => Next(d)
  }

  predicate IsDataOp(op: Op) {
    op.DeclareBasis? || op.LoadCoefficients? || op.Synthesize? || op.VerifyHash? || op.AcceptData? || op.StoreResidual?
    || op.ApplyResidual? || op.RejectData?
  }

  predicate IsClaimOp(op: Op) {
    op.CreateClaim? || op.Interfere? || op.ComputeTension? || op.Verify? || op.Accept? || op.Reject? || op.Quarantine?
  }

  ghost function Step(s: State, i: Instruction, m: Manifest, sha: Sha): Outcome<State>
    requires EdgesListed(s.graph)
  {
    match i.Name()
    case None => Blocked(UnknownOpcode)
    case Some(op) =>
      if op.EmitReceipt? then Next(s.(emitted := true))
      else if IsDataOp(op) then
        match StepData(s.data, i, op, m, sha)
        case Next(d) => Next(s.(data := d))
        case Blocked(reason) => Blocked(reason)
        case KeyMissing => KeyMissing
      else if IsClaimOp(op) then
        match StepClaim(s.graph, s.claims, i, op, m)
        case Next(c) => Next(s.(claims := c))
        case Blocked(reason) => Blocked(reason)
        case KeyMissing => KeyMissing
      else
        match StepGraph(s.graph, i, op, m)
        case Next(g) => Next(s.(graph := g))
        case Blocked(reason) => Blocked(reason)
        case KeyMissing => KeyMissing
  }
}
