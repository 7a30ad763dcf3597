/**
 What the assembler guarantees to the machine: every id in an assembled program was declared before its
 use, so the machine never meets an unknown name and its graph is the list of edges the program declares.
 */
module AssembledPrograms {
  import opened Wrappers
  import opened Sorting
  import opened Containers
  import opened Instructions
  import opened Machine
  import opened Runs
  import opened Propagation
  import opened AssemblyText
  import opened Assembler

  // ------------------------------------------------- declarations of a program

  /** The nodes and claims a piece of code creates, and its edges in order. */
  datatype Declared = Declared(nodes: set<nat>, edges: seq<Edge>, claims: set<nat>)

  function Declare(d: Declared, i: Instruction): Declared {
    match i.Name()
    case Some(CreateNode) => d.(nodes := d.nodes + {i.target})
    case Some(CreateEdge) =>
      if EdgeKindOf(i.flags).Some? then d.(edges := d.edges + [Edge(i.source, i.param, EdgeKindOf(i.flags).value)]) else d
    case Some(CreateClaim) => d.(claims := d.claims + {i.target})
    case _ => d
  }

  function Declares(code: seq<Instruction>): Declared {
    if code == [] then Declared({}, [], {}) else Declare(Declares(code[..|code| - 1]), code[|code| - 1])
  }

  /** The nodes, edges and claims an instruction refers to are declared; edges are numbered in order. */
  predicate Resolved(d: Declared, i: Instruction) {
    match i.Name()
    case None => false
    case Some(op) =>
      if op.CreateEdge? then i.source in d.nodes && i.param in d.nodes && i.target == |d.edges| && EdgeKindOf(i.flags).Some?
      else if op.CreateClaim? then i.source in d.nodes && i.param in d.nodes
      else if op.Activate? then i.target in d.nodes
      else if op.Propagate? then i.source in d.nodes && EdgeKindOf(i.flags).Some?
      else if IsClaimOp(op) then i.target in d.claims
      else true
  }

  /** The symbols an instruction needs are in the manifest, and its coefficients are bytes. */
  predicate Listed(m: Manifest, i: Instruction) {
    match i.Name()
    case Some(CreateNode) => i.target in m.nodes
    case Some(CreateClaim) => i.target in m.claims
    case Some(DeclareBasis) => i.target in m.constants
    case Some(LoadCoefficients) => i.target in m.dataBlocks && i.source <= 255 && i.flags <= 255
    case Some(VerifyHash) => i.source in m.constants
    case _ => true
  }

  ghost predicate WellDeclared(code: seq<Instruction>, m: Manifest) {
    forall k :: 0 <= k < |code| ==> Resolved(Declares(code[..k]), code[k]) && Listed(m, code[k]) && code[k].Fits()
  }

  // ------------------------------------------------- the assembler keeps them

  /** A symbol table and its listing by id are inverse to each other, and the ids count up from 0. */
  ghost predicate Inverse<T(!new)>(ids: map<T, nat>, names: map<nat, T>) {
    && (forall n :: n in ids ==> ids[n] in names && names[ids[n]] == n)
    && (forall k :: k in names ==> names[k] in ids && ids[names[k]] == k)
    && (forall k: nat :: k in names <==> k < |ids|)
  }

  lemma OneMoreKey<T>(ids: map<T, nat>, name: T, id: nat)
    requires name !in ids
    ensures |ids[name := id]| == |ids| + 1
  {
    assert ids[name := id].Keys == ids.Keys + {name};
    assert |ids| == |ids.Keys|;
    assert |ids[name := id]| == |ids[name := id].Keys|;
  }

  lemma InternKeepsInverse<T(!new)>(ids: map<T, nat>, names: map<nat, T>, name: T)
    requires Inverse(ids, names) && name !in ids
    ensures Inverse(ids[name := |ids|], names[|ids| := name])
  {
    OneMoreKey(ids, name, |ids|);
    var ids', names' := ids[name := |ids|], names[|ids| := name];
    forall k: nat | k in names'
      ensures names'[k] in ids' && ids'[names'[k]] == k
    {
      assert k != |ids| ==> k in names;
    }
    forall n | n in ids'
      ensures ids'[n] in names' && names'[ids'[n]] == n
    {
      assert n != name ==> n in ids;
    }
  }

  ghost predicate Lists(t: Symbols) {
    Inverse(t.ids, t.names)
  }

  ghost predicate Tables(a: Asm) {
    Lists(a.nodes) && Lists(a.claims) && Lists(a.dataNames) && Lists(a.constants)
  }

  lemma InternLists(t: Symbols, name: string)
    requires Lists(t) && Intern(t, name).Ok?
    ensures var u := Intern(t, name).value;
            && Lists(u) && name in u.ids && u.ids[name] in u.names && u.names[u.ids[name]] == name
            && t.names.Keys <= u.names.Keys
            && (forall n :: n in u.ids <==> n in t.ids || n == name)
            && (forall n :: n in t.ids ==> u.ids[n] == t.ids[n])
  {
    if name !in t.ids {
      InternKeepsInverse(t.ids, t.names, name);
    }
  }

  /** The node and claim ids in the tables are declared, and the edges are counted. */
  ghost predicate Matches(a: Asm, d: Declared) {
    && (forall n :: n in a.nodes.ids ==> a.nodes.ids[n] in d.nodes)
    && (forall n :: n in a.claims.ids ==> a.claims.ids[n] in d.claims)
    && a.edgeCount == |d.edges|
  }

  ghost predicate AsmInv(a: Asm) {
    Tables(a) && Matches(a, Declares(a.code)) && WellDeclared(a.code, a.Listing())
  }

  predicate Extends(m: Manifest, m': Manifest) {
    m.nodes.Keys <= m'.nodes.Keys && m.claims.Keys <= m'.claims.Keys
    && m.dataBlocks.Keys <= m'.dataBlocks.Keys && m.constants.Keys <= m'.constants.Keys
  }

  lemma StaysDeclared(code: seq<Instruction>, m: Manifest, m': Manifest)
    requires WellDeclared(code, m) && Extends(m, m')
    ensures WellDeclared(code, m')
  {
    forall k | 0 <= k < |code|
      ensures Listed(m', code[k])
    {
      assert Listed(m, code[k]);
    }
  }

  lemma DeclaresOneMore(code: seq<Instruction>, i: Instruction)
    ensures Declares(code + [i]) == Declare(Declares(code), i)
  {
    hide Declare;
    assert (code + [i])[..|code|] == code;
  }

  lemma DeclaredOneMore(code: seq<Instruction>, i: Instruction, m: Manifest)
    requires WellDeclared(code, m)
    requires Resolved(Declares(code), i) && Listed(m, i) && i.Fits()
    ensures WellDeclared(code + [i], m)
  {
    hide Resolved, Listed, Declares;
    var longer := code + [i];
    forall k | 0 <= k < |longer|
      ensures Resolved(Declares(longer[..k]), longer[k]) && Listed(m, longer[k]) && longer[k].Fits()
    {
      assert longer[..k] == code[..k];
      if k == |code| {
        assert longer[..k] == code;
      }
    }
  }

  /** The instruction a line emits keeps the invariant if its ids are in the tables. */
  lemma EmitKeeps(a: Asm, op: Op, flags: nat, target: nat, source: nat, param: int)
    requires Tables(a) && WellDeclared(a.code, a.Listing()) && Emit(a, op, flags, target, source, param).Ok?
    requires param >= 0 && flags <= 255
    requires var i := Instruction(OpCode(op), flags, target, source, param);
             Resolved(Declares(a.code), i) && Listed(a.Listing(), i) && Matches(a, Declare(Declares(a.code), i))
    ensures AsmInv(Emit(a, op, flags, target, source, param).value)
  {
    hide Resolved, Listed, Declare, Declares, Matches, WellDeclared, Lists;
    var i := Instruction(OpCode(op), flags, target, source, param);
    var b := Emit(a, op, flags, target, source, param).value;
    DeclaresOneMore(a.code, i);
    DeclaredOneMore(a.code, i, a.Listing());
    assert b.Listing() == a.Listing();
    MatchesTables(a, b, Declares(b.code));
  }

  lemma MatchesTables(a: Asm, b: Asm, d: Declared)
    requires Matches(a, d) && b.nodes == a.nodes && b.claims == a.claims && b.edgeCount == a.edgeCount
    ensures Matches(b, d)
  {
  }

  lemma IdListed(t: Symbols, name: string)
    requires Lists(t) && name in t.ids
    ensures t.ids[name] in t.names && t.names[t.ids[name]] == name
  {
  }

  lemma NodeLineKeeps(a: Asm, name: string)
    requires AsmInv(a) && AssembleGraph(a, CreateNodeLine(name)).Ok?
    ensures AsmInv(AssembleGraph(a, CreateNodeLine(name)).value)
  {
    hide Declares, WellDeclared, Lists, Intern;
    InternLists(a.nodes, name);
    var b := a.(nodes := Intern(a.nodes, name).value);
    StaysDeclared(a.code, a.Listing(), b.Listing());
    EmitKeeps(b, CreateNode, 0, b.nodes.ids[name], 0, 0);
  }

  lemma EdgeLineKeeps(a: Asm, source: string, target: string, kind: string)
    requires AsmInv(a) && AssembleGraph(a, CreateEdgeLine(source, target, kind)).Ok?
    ensures AsmInv(AssembleGraph(a, CreateEdgeLine(source, target, kind)).value)
  {
    hide Declares, WellDeclared, Lists;
    var b := a.(edgeCount := a.edgeCount + 1);
    StaysDeclared(a.code, a.Listing(), b.Listing());
    EmitKeeps(b, CreateEdge, KindFlag(kind).value, a.edgeCount, a.nodes.ids[source], a.nodes.ids[target]);
  }

  lemma GraphLineKeeps(a: Asm, line: Line)
    requires AsmInv(a) && AssembleGraph(a, line).Ok?
    ensures AsmInv(AssembleGraph(a, line).value)
  {
    hide Declares, WellDeclared, Lists, Intern;
    match line
    case CreateNodeLine(name) => NodeLineKeeps(a, name);
    case CreateEdgeLine(source, target, kind) => EdgeLineKeeps(a, source, target, kind);
    case ActivateLine(node, strength) => EmitKeeps(a, Activate, 0, a.nodes.ids[node], 0, strength.value);
    case PropagateLine(source, kind, depth) => EmitKeeps(a, Propagate, KindFlag(kind).value, 0, a.nodes.ids[source], depth.value);
    case DecayLine(factor) => EmitKeeps(a, Decay, 0, 0, 0, factor.value);
    case _ =>
  }

  lemma ClaimLineKeeps(a: Asm, line: Line)
    requires AsmInv(a) && AssembleClaim(a, line).Ok?
    ensures AsmInv(AssembleClaim(a, line).value)
  {
    hide Declares, WellDeclared, Lists, Intern;
    match line
    case CreateClaimLine(name, source, target) =>
      InternLists(a.claims, name);
      var b := a.(claims := Intern(a.claims, name).value);
      StaysDeclared(a.code, a.Listing(), b.Listing());
      EmitKeeps(b, CreateClaim, 0, b.claims.ids[name], a.nodes.ids[source], a.nodes.ids[target]);
    case ClaimLine(action, claim) => EmitKeeps(a, ActionOp(action), 0, a.claims.ids[claim], 0, 0);
    case _ =>
  }

  /** A line that names a data block and, but for LOAD_COEFFICIENTS, no other symbol. */
  lemma EmitDataKeeps(a: Asm, op: Op, name: string, flags: nat, source: nat, param: int)
    requires AsmInv(a) && EmitData(a, op, name, flags, source, param).Ok?
    requires param >= 0 && flags <= 255
    requires op.LoadCoefficients? || op.Synthesize? || op.StoreResidual? || op.ApplyResidual? || op.AcceptData? || op.RejectData?
    requires op.LoadCoefficients? ==> source <= 255
    ensures AsmInv(EmitData(a, op, name, flags, source, param).value)
  {
    hide Declares, WellDeclared, Lists, Matches;
    IdListed(a.dataNames, name);
    EmitKeeps(a, op, flags, a.dataNames.ids[name], source, param);
  }

  lemma ConstantKeeps(a: Asm, value: string)
    requires AsmInv(a) && Intern(a.constants, value).Ok?
    ensures var b := a.(constants := Intern(a.constants, value).value); AsmInv(b) && b.constants.ids[value] in b.constants.names
  {
    hide Declares, WellDeclared, Lists, Intern, Matches;
    InternLists(a.constants, value);
    var b := a.(constants := Intern(a.constants, value).value);
    StaysDeclared(a.code, a.Listing(), b.Listing());
    MatchesTables(a, b, Declares(a.code));
  }

  lemma NewBlockKeeps(a: Asm, name: string)
    requires AsmInv(a) && Intern(a.dataNames, name).Ok?
    ensures AsmInv(a.(dataNames := Intern(a.dataNames, name).value))
  {
    hide Declares, WellDeclared, Lists, Intern, Matches;
    InternLists(a.dataNames, name);
    var b := a.(dataNames := Intern(a.dataNames, name).value);
    StaysDeclared(a.code, a.Listing(), b.Listing());
    MatchesTables(a, b, Declares(a.code));
  }

  lemma DataLineKeeps(a: Asm, line: Line)
    requires AsmInv(a) && AssembleData(a, line).Ok?
    ensures AsmInv(AssembleData(a, line).value)
  {
    hide Declares, WellDeclared, Lists, Tables, Intern, Matches;
    match line
    case DeclareBasisLine(basis) =>
      ConstantKeeps(a, basis);
      var b := a.(constants := Intern(a.constants, basis).value);
      EmitKeeps(b, DeclareBasis, 0, b.constants.ids[basis], 0, 0);
    case DataBlockLine(name) => NewBlockKeeps(a, name);
    case VerifyHashLine(name, digest) =>
      ConstantKeeps(a, digest);
      var b := a.(constants := Intern(a.constants, digest).value);
      EmitKeeps(b, VerifyHash, 0, b.dataNames.ids[name], b.constants.ids[digest], 0);
    case LoadCoefficientsLine(name, start, length, delta) =>
      if length.value >= 0 {
        EmitDataKeeps(a, LoadCoefficients, name, delta.value, start.value, length.value);
      }
    case SynthesizeLine(name) => EmitDataKeeps(a, Synthesize, name, 0, 0, 0);
    case StoreResidualLine(name, offset, value) =>
      if offset.value >= 0 {
        EmitDataKeeps(a, StoreResidual, name, 0, offset.value, value.value);
      }
    case ApplyResidualLine(name) => EmitDataKeeps(a, ApplyResidual, name, 0, 0, 0);
    case AcceptDataLine(name) => EmitDataKeeps(a, AcceptData, name, 0, 0, 0);
    case RejectDataLine(name) => EmitDataKeeps(a, RejectData, name, 0, 0, 0);
    case _ =>
  }

  lemma LineKeeps(a: Asm, line: Line)
    requires AsmInv(a) && Assemble(a, line).Ok?
    ensures AsmInv(Assemble(a, line).value)
  {
    hide Declares, WellDeclared, Lists, AssembleGraph, AssembleClaim, AssembleData, Matches;
    match line
    case LogReceiptLine => EmitKeeps(a, LogReceipt, 0, 0, 0, 0);
    case EmitReceiptLine => EmitKeeps(a, EmitReceipt, 0, 0, 0, 0);
    case HaltLine => EmitKeeps(a, Halt, 0, 0, 0, 0);
    case NoOpLine => EmitKeeps(a, NoOp, 0, 0, 0, 0);
    case CreateNodeLine(_) => GraphLineKeeps(a, line);
    case CreateEdgeLine(_, _, _) => GraphLineKeeps(a, line);
    case ActivateLine(_, _) => GraphLineKeeps(a, line);
    case PropagateLine(_, _, _) => GraphLineKeeps(a, line);
    case DecayLine(_) => GraphLineKeeps(a, line);
    case CreateClaimLine(_, _, _) => ClaimLineKeeps(a, line);
    case ClaimLine(_, _) => ClaimLineKeeps(a, line);
    case _ => DataLineKeeps(a, line);
  }

  lemma EmptyInv()
    ensures AsmInv(EMPTY)
  {
  }

  lemma TextLineKeeps(a: Asm, text: string)
    requires AsmInv(a) && AssembleLine(a, text).Ok?
    ensures AsmInv(AssembleLine(a, text).value)
  {
    hide AsmInv, Assemble, ReadLine;
    match ReadLine(text)
    case Ok(Some(line)) => LineKeeps(a, line);
    case _ =>
  }

  lemma {:induction false} LinesKeep(a: Asm, texts: seq<string>)
    requires AsmInv(a) && AssembleLines(a, texts).Ok?
    ensures AsmInv(AssembleLines(a, texts).value)
    decreases |texts|
  {
    hide AsmInv, AssembleLine;
    if texts != [] {
      TextLineKeeps(a, texts[0]);
      LinesKeep(AssembleLine(a, texts[0]).value, texts[1..]);
    }
  }

  /** Every program the assembler accepts declares before use, and fits the binary layout. */
  lemma AssembledIsWellDeclared(text: string)
    requires Assembled(text).Ok?
    ensures var a := Assembled(text).value; WellDeclared(a.code, a.Listing())
  {
    hide SplitLines, AssembleLines;
    EmptyInv();
    LinesKeep(EMPTY, SplitLines(text));
  }

  // ------------------------------------------------- the machine on assembled programs

  /** The machine's graph and claims are those the code declared so far. */
  ghost predicate Tracks(s: State, d: Declared) {
    Holds(s.graph, d.edges) && s.graph.nodes == d.nodes && s.claims.table.Keys == d.claims
  }

  /** The blocks for symbols that are unknown or out of range. */
  predicate Dangling(reason: BlockReason) {
    reason.UnknownOpcode? || reason.MissingNodeSymbol? || reason.UnknownNode? || reason.UnknownEdgeType?
    || reason.MissingClaimSymbol? || reason.MissingConstant? || reason.MissingDataSymbol? || reason.CoefficientRange?
  }

  lemma {:induction false} ListsIgnoreLaterEdges(edges: seq<Edge>, edge: Edge, u: nat, n: nat)
    requires n <= |edges|
    ensures OutList(edges + [edge], u, n) == OutList(edges, u, n) && InList(edges + [edge], u, n) == InList(edges, u, n)
  {
    if n > 0 {
      ListsIgnoreLaterEdges(edges, edge, u, n - 1);
    }
  }

  /** An id above all others goes to the end. */
  lemma AddGreatest(ids: seq<nat>, id: nat)
    requires StrictlySorted(ids) && forall k :: 0 <= k < |ids| ==> ids[k] < id
    ensures AddSorted(ids, id) == ids + [id]
  {
    hide Sort;
    NatLeIsTotalOrder();
    SortIsSortedRearrangement(ids + [id], ids + [id], NatLe);
  }

  lemma NewEdgeAt(g: Graph, edges: seq<Edge>, edge: Edge, u: nat)
    requires Holds(g, edges)
    ensures var h := WithEdge(g, |edges|, edge);
            && ListAt(h.adjacencyOut, u) == OutList(edges + [edge], u, |edges| + 1)
            && ListAt(h.adjacencyIn, u) == InList(edges + [edge], u, |edges| + 1)
  {
    hide AddSorted;
    ListsIgnoreLaterEdges(edges, edge, u, |edges|);
    AddGreatest(OutList(edges, edge.source, |edges|), |edges|);
    AddGreatest(InList(edges, edge.target, |edges|), |edges|);
    assert ListAt(g.adjacencyOut, u) == OutList(edges, u, |edges|) && ListAt(g.adjacencyIn, u) == InList(edges, u, |edges|);
  }

  lemma NewEdgeHolds(g: Graph, edges: seq<Edge>, edge: Edge)
    requires Holds(g, edges)
    ensures Holds(WithEdge(g, |edges|, edge), edges + [edge])
  {
    hide AddSorted, OutList, InList;
    var longer, h := edges + [edge], WithEdge(g, |edges|, edge);
    forall u: nat
      ensures ListAt(h.adjacencyOut, u) == OutList(longer, u, |longer|)
      ensures ListAt(h.adjacencyIn, u) == InList(longer, u, |longer|)
    {
      NewEdgeAt(g, edges, edge, u);
    }
  }

  lemma SameGraphHolds(g: Graph, h: Graph, edges: seq<Edge>)
    requires Holds(g, edges)
    requires h.edges == g.edges && h.adjacencyOut == g.adjacencyOut && h.adjacencyIn == g.adjacencyIn
    ensures Holds(h, edges)
  {
  }

  lemma GraphStepTracks(g: Graph, i: Instruction, op: Op, m: Manifest, d: Declared)
    requires EdgesListed(g) && Holds(g, d.edges) && g.nodes == d.nodes
    requires i.Name() == Some(op) && Resolved(d, i) && Listed(m, i)
    requires !IsDataOp(op) && !IsClaimOp(op)
    ensures var r := StepGraph(g, i, op, m);
            && !r.KeyMissing? && (r.Blocked? ==> !Dangling(r.reason))
            && (r.Next? ==> Holds(r.state, Declare(d, i).edges) && r.state.nodes == Declare(d, i).nodes)
            && Declare(d, i).claims == d.claims
  {
    hide Holds, EdgesListed, Ticks, Decayed, WithEdge;
    var r := StepGraph(g, i, op, m);
    if op.CreateEdge? {
      var edge := Edge(i.source, i.param, EdgeKindOf(i.flags).value);
      NewEdgeHolds(g, d.edges, edge);
      assert WithEdge(g, i.target, edge).nodes == g.nodes by { NewEdgeNodes(g, i.target, edge); }
    } else if r.Next? {
      SameGraphHolds(g, r.state, d.edges);
    }
  }

  lemma NewEdgeNodes(g: Graph, id: nat, edge: Edge)
    ensures WithEdge(g, id, edge).nodes == g.nodes
  {
  }

  lemma ClaimStepTracks(g: Graph, c: Claims, i: Instruction, op: Op, m: Manifest, d: Declared)
    requires EdgesListed(g) && g.nodes == d.nodes && c.table.Keys == d.claims
    requires i.Name() == Some(op) && IsClaimOp(op) && Resolved(d, i) && Listed(m, i)
    ensures var r := StepClaim(g, c, i, op, m);
            && !r.KeyMissing? && (r.Blocked? ==> !Dangling(r.reason))
            && (r.Next? ==> r.state.table.Keys == Declare(d, i).claims)
            && Declare(d, i).edges == d.edges && Declare(d, i).nodes == d.nodes
  {
    hide EdgesListed, VerdictOf, ConflictPressure, Register;
  }

  lemma DataStepTracks(d: Data, i: Instruction, op: Op, m: Manifest, sha: Sha, declared: Declared)
    requires i.Name() == Some(op) && IsDataOp(op) && Listed(m, i)
    ensures var r := StepData(d, i, op, m, sha);
            && !r.KeyMissing? && (r.Blocked? ==> !Dangling(r.reason)) && Declare(declared, i) == declared
  {
    hide PatchAll, Register, Sort, BasisOf;
  }

  lemma StepTracks(s: State, i: Instruction, m: Manifest, sha: Sha, d: Declared)
    requires EdgesListed(s.graph) && Tracks(s, d) && Resolved(d, i) && Listed(m, i)
    ensures var r := Step(s, i, m, sha);
            && !r.KeyMissing? && (r.Blocked? ==> !Dangling(r.reason))
            && (r.Next? ==> Tracks(r.state, Declare(d, i)))
  {
    hide Holds, EdgesListed, StepGraph, StepClaim, StepData, Dangling, Listed, IsDataOp, IsClaimOp;
    var op := i.Name().value;
    if op.EmitReceipt? {
    } else if IsDataOp(op) {
      DataStepTracks(s.data, i, op, m, sha, d);
    } else if IsClaimOp(op) {
      ClaimStepTracks(s.graph, s.claims, i, op, m, d);
    } else {
      GraphStepTracks(s.graph, i, op, m, d);
    }
  }

  lemma DeclaredPrefix(code: seq<Instruction>, k: nat)
    requires 0 < k <= |code|
    ensures Declares(code[..k]) == Declare(Declares(code[..k - 1]), code[k - 1])
  {
    assert code[..k][..k - 1] == code[..k - 1];
  }

  /** At every point of a run of a well-declared program the machine's graph is the declared one. */
  lemma {:induction false} RunTracks(code: seq<Instruction>, k: nat, m: Manifest, sha: Sha)
    requires WellDeclared(code, m) && k <= |code| && After(code, k, m, sha).Some?
    ensures Tracks(After(code, k, m, sha).value, Declares(code[..k]))
  {
    hide Step, Sound, Tracks, Declare, Resolved, Listed;
    if k == 0 {
      InitialTracks();
      assert code[..0] == [];
    } else {
      RunTracks(code, k - 1, m, sha);
      DeclaredPrefix(code, k);
      var s := After(code, k - 1, m, sha).value;
      SoundListed(s);
      StepTracks(s, code[k - 1], m, sha, Declares(code[..k - 1]));
    }
  }

  lemma InitialTracks()
    ensures Tracks(INITIAL, Declared({}, [], {}))
  {
  }

  lemma SoundListed(s: State)
    requires Sound(s)
    ensures EdgesListed(s.graph)
  {
  }

  lemma {:induction false} RestDoesNotDangle(code: seq<Instruction>, k: nat, m: Manifest, sha: Sha)
    requires WellDeclared(code, m) && k <= |code| && After(code, k, m, sha).Some?
    ensures var r := Run(code[k..], After(code, k, m, sha).value, m, sha);
            !r.Failed? && (r.Stopped? ==> !Dangling(r.reason))
    decreases |code| - k
  {
    hide Step, Sound, Tracks, Declares, Resolved, Listed, EdgesListed;
    var s := After(code, k, m, sha).value;
    if k < |code| && code[k].Name() != Some(Halt) {
      assert code[k..][0] == code[k] && code[k..][1..] == code[k + 1..];
      RunTracks(code, k, m, sha);
      SoundListed(s);
      StepTracks(s, code[k], m, sha, Declares(code[..k]));
      if Step(s, code[k], m, sha).Next? {
        RestDoesNotDangle(code, k + 1, m, sha);
      }
    }
  }

  /**
   The assembler's promise: the machine never fails on a program the assembler accepts, and is never blocked
   over an unknown opcode, symbol, node, edge type, or coefficient.
   */
  lemma AssembledNeverDangles(text: string, sha: Sha)
    requires Assembled(text).Ok?
    ensures var a := Assembled(text).value;
            var r := Run(a.code, INITIAL, a.Listing(), sha);
            !r.Failed? && (r.Stopped? ==> !Dangling(r.reason))
  {
    hide Assembled, Run, WellDeclared, Dangling;
    AssembledIsWellDeclared(text);
    var a := Assembled(text).value;
    assert a.code[0..] == a.code;
    RestDoesNotDangle(a.code, 0, a.Listing(), sha);
  }

  // ------------------------------------------------- graph results of assembled programs

  /**
   PROPAGATE anywhere in an assembled program: with a the activation of its source, it is blocked exactly when
   a times the number of walks of lengths 1 to depth along the edges declared so far exceeds the energy limit;
   otherwise only activations change, each becoming the greatest of its old value and a times the number of
   walks of each of these lengths.
   */
  lemma AssembledPropagate(text: string, k: nat, kind: EdgeKind, sha: Sha)
    requires Assembled(text).Ok?
    requires var a := Assembled(text).value;
             && k < |a.code| && a.code[k].Name() == Some(Propagate) && EdgeKindOf(a.code[k].flags) == Some(kind)
             && After(a.code, k, a.Listing(), sha).Some?
    ensures var a := Assembled(text).value;
            var (i, edges) := (a.code[k], Declares(a.code[..k]).edges);
            var s := After(a.code, k, a.Listing(), sha).value;
            var value := Get(s.graph.activation, i.source);
            assert EdgesListed(s.graph) by { SoundListed(s); }
            var r := Step(s, i, a.Listing(), sha);
            if value * WalkTotal(edges, kind, i.source, 0, i.param) > ENERGY_LIMIT then r == Blocked(EnergyLimit)
            else
              && r.Next? && r.state == s.(graph := s.graph.(activation := r.state.graph.activation))
              && forall v :: GreatestOfWalks(edges, kind, i.source, value, i.param,
                                             Get(s.graph.activation, v), v, Get(r.state.graph.activation, v))
  {
    hide Assembled, WellDeclared, StepGraph, GreatestOfWalks, WalkTotal, Holds, EdgesListed, Declares, Sound;
    AssembledIsWellDeclared(text);
    var a := Assembled(text).value;
    var s := After(a.code, k, a.Listing(), sha).value;
    RunTracks(a.code, k, a.Listing(), sha);
    SoundListed(s);
    PropagateCountsWalks(s.graph, Declares(a.code[..k]).edges, a.code[k], kind, a.Listing());
  }

  /** A declared support edge from u to v. */
  ghost predicate SupportLink(edges: seq<Edge>, u: nat, v: nat) {
    Edge(u, v, Support) in edges
  }

  ghost predicate IsLinkPath(edges: seq<Edge>, path: seq<nat>) {
    path != [] && forall i :: 0 <= i < |path| - 1 ==> SupportLink(edges, path[i], path[i + 1])
  }

  ghost predicate LinkReachable(edges: seq<Edge>, source: nat, target: nat) {
    exists path :: IsLinkPath(edges, path) && path[0] == source && path[|path| - 1] == target
  }

  lemma {:induction false} OutListMembers(edges: seq<Edge>, u: nat, n: nat, id: nat)
    requires n <= |edges|
    ensures id in OutList(edges, u, n) <==> id < n && edges[id].source == u
  {
    if n > 0 {
      OutListMembers(edges, u, n - 1, id);
    }
  }

  lemma LinksAreEdges(g: Graph, edges: seq<Edge>, u: nat, v: nat)
    requires Holds(g, edges)
    ensures SupportEdge(g, u, v) <==> SupportLink(edges, u, v)
  {
    hide OutList, InList;
    assert ListAt(g.adjacencyOut, u) == OutList(edges, u, |edges|);
    forall id: nat
      ensures id in OutList(edges, u, |edges|) <==> id < |edges| && edges[id].source == u
    {
      OutListMembers(edges, u, |edges|, id);
    }
    if SupportLink(edges, u, v) {
      var id :| 0 <= id < |edges| && edges[id] == Edge(u, v, Support);
      assert id in ListAt(g.adjacencyOut, u) && g.edges[id] == edges[id];
    }
  }

  lemma SameReach(g: Graph, edges: seq<Edge>, source: nat, target: nat)
    requires Holds(g, edges)
    ensures SupportReachable(g, source, target) <==> LinkReachable(edges, source, target)
  {
    hide SupportEdge, SupportLink, Holds;
    forall u, v
      ensures SupportEdge(g, u, v) <==> SupportLink(edges, u, v)
    {
      LinksAreEdges(g, edges, u, v);
    }
    forall path
      ensures IsSupportPath(g, path) <==> IsLinkPath(edges, path)
    {
    }
  }

  /**
   VERIFY anywhere in an assembled program: rejected exactly when conflict pressure is recorded for the claim;
   otherwise verified exactly when the declared support edges lead from the claim's source to its target.
   */
  lemma AssembledVerify(text: string, k: nat, sha: Sha)
    requires Assembled(text).Ok?
    requires var a := Assembled(text).value;
             k < |a.code| && a.code[k].Name() == Some(Verify) && After(a.code, k, a.Listing(), sha).Some?
    ensures var a := Assembled(text).value;
            var (id, edges) := (a.code[k].target, Declares(a.code[..k]).edges);
            var s := After(a.code, k, a.Listing(), sha).value;
            assert EdgesListed(s.graph) by { SoundListed(s); }
            var r := Step(s, a.code[k], a.Listing(), sha);
            && id in s.claims.table && r.Next?
            && r.state == s.(claims := s.claims.(verdicts := r.state.claims.verdicts))
            && id in r.state.claims.verdicts
            && (var verdict := r.state.claims.verdicts[id];
                var claim := s.claims.table[id];
                && (verdict == Rejected <==> id in s.claims.pressure && s.claims.pressure[id].conflict > 0)
                && (verdict == Verified <==> verdict != Rejected && LinkReachable(edges, claim.source, claim.target)))
  {
    hide Assembled, Holds, EdgesListed, Declares, Sound, LinkReachable, SupportReachable;
    AssembledIsWellDeclared(text);
    var a := Assembled(text).value;
    var s := After(a.code, k, a.Listing(), sha).value;
    RunTracks(a.code, k, a.Listing(), sha);
    SoundListed(s);
    assert Resolved(Declares(a.code[..k]), a.code[k]);
    var claim := s.claims.table[a.code[k].target];
    SameReach(s.graph, Declares(a.code[..k]).edges, claim.source, claim.target);
  }
}
