/**
 The graph and claim operations of an assembled text on a run (bogvm/vm.py), each said in the words of its line, the
 edges named above it, and the activations of the moment.
 */
module SaidRuns {
  import opened Wrappers
  import opened Containers
  import opened Instructions
  import opened Machine
  import opened Runs
  import opened Propagation
  import opened AssemblyText
  import opened Assembler
  import opened AssembledPrograms
  import opened SaidLines
  import opened SaidPrograms

  // ------------------------------------------------- the instruction of a line

  lemma FinalTables(text: string)
    requires Assembled(text).Ok?
    ensures Tables(Assembled(text).value)
  {
    hide SplitLines, AssembleLines;
    EmptyInv();
    LinesKeep(EMPTY, SplitLines(text));
  }

  /** No two names of a table have one id. */
  lemma IdsDiffer(t: Symbols, m: string, n: string)
    requires Lists(t) && m in t.ids && n in t.ids
    ensures Id(t, m) == Id(t, n) <==> m == n
  {
  }

  lemma SameId(t: Symbols, u: Symbols, name: string)
    requires Kept(t, u) && name in t.ids
    ensures name in u.ids && Id(t, name) == Id(u, name)
  {
  }

  /** Line j makes the assembler's step from its tables before to its tables after. */
  lemma LineAt(text: string, j: nat)
    requires Assembled(text).Ok? && j < |SplitLines(text)|
    ensures var texts := SplitLines(text);
            && AssembleLines(EMPTY, texts).Ok? && AssembleLine(AsmAt(texts, j), texts[j]) == Ok(AsmAt(texts, j + 1))
            && TablesKept(AsmAt(texts, j), Assembled(text).value) && TablesKept(AsmAt(texts, j + 1), Assembled(text).value)
  {
    hide AsmAt, SplitLines, AssembleLine;
    WholeText(text);
    NextLine(SplitLines(text), j);
    CodeAt(text, j);
    CodeAt(text, j + 1);
  }

  /** The instruction that line j adds is the one at its place in the code. */
  lemma AddedAt(text: string, j: nat, i: Instruction)
    requires Assembled(text).Ok? && j < |SplitLines(text)|
    requires OneMore(AsmAt(SplitLines(text), j), AsmAt(SplitLines(text), j + 1), i)
    ensures OpSaid(SplitLines(text)[j]).Some? && At(text, j) < |Assembled(text).value.code| && Assembled(text).value.code[At(text, j)] == i
  {
    hide AsmAt, SplitLines, OpSaid, Assembled;
    InstructionAt(text, j);
  }

  // ------------------------------------------------- nodes and activation

  /** A name the tables know is one the lines above have made a node. */
  lemma KnownNode(text: string, j: nat, name: string, sha: Sha)
    requires Assembled(text).Ok? && j < |SplitLines(text)| && StateAt(text, j, sha).Some? && name in AsmAt(SplitLines(text), j).nodes.ids
    ensures Id(Assembled(text).value.nodes, name) in StateAt(text, j, sha).value.graph.nodes
    ensures Id(Assembled(text).value.nodes, name) == Id(AsmAt(SplitLines(text), j).nodes, name)
  {
    hide AsmAt, SplitLines, Assembled, StateAt, Links, EdgesOf, NodesSaid, Declares;
    var texts := SplitLines(text);
    LineAt(text, j);
    EdgesAreSaid(texts, j);
    GraphIsSaid(text, j, sha);
    SameId(AsmAt(texts, j).nodes, Assembled(text).value.nodes, name);
    assert name in NodesSaid(texts[..j]);
  }

  /** What the machine does on a line, given the line's instruction. */
  lemma ActsIs(text: string, j: nat, i: Instruction, sha: Sha)
    requires Assembled(text).Ok? && j < |SplitLines(text)| && StateAt(text, j, sha).Some?
    requires OneMore(AsmAt(SplitLines(text), j), AsmAt(SplitLines(text), j + 1), i)
    ensures var s := StateAt(text, j, sha).value;
            && OpSaid(SplitLines(text)[j]).Some? && EdgesListed(s.graph)
            && Acts(text, j, sha) == Step(s, i, Assembled(text).value.Listing(), sha)
  {
    hide AsmAt, SplitLines, OpSaid, Assembled, StateAt, Step, Sound, OneMore;
    AddedAt(text, j, i);
    SoundListed(StateAt(text, j, sha).value);
  }

  lemma ActivateStep(s: State, i: Instruction, m: Manifest, sha: Sha)
    requires EdgesListed(s.graph) && i.opcode == 5 && i.target in s.graph.nodes
    ensures Step(s, i, m, sha)
         == if i.param > 1000 then Blocked(ActivationRange)
            else Next(s.(graph := s.graph.(activation := s.graph.activation[i.target := i.param])))
  {
    assert i.Name() == Some(Activate);
  }

  /** ACTIVATE gives a node its strength, up to 1000. */
  lemma Activates(text: string, j: nat, sha: Sha)
    requires Assembled(text).Ok? && j < |SplitLines(text)| && StateAt(text, j, sha).Some? && Said(SplitLines(text)[j], "ACTIVATE").Some?
    ensures var w := Said(SplitLines(text)[j], "ACTIVATE").value;
            var s := StateAt(text, j, sha).value;
            && |w| == 2 && IsField(w[1]) && OpSaid(SplitLines(text)[j]).Some?
            && Acts(text, j, sha)
               == if Field(w[1]) > 1000 then Blocked(ActivationRange)
                  else Next(s.(graph := s.graph.(activation := s.graph.activation[Id(Assembled(text).value.nodes, w[0]) := Field(w[1])])))
  {
    hide AsmAt, SplitLines, Assembled, StateAt, Said, AssembleLine, IsField, Field, Sound, EdgesListed, Id, OneMore, OpSaid, Acts, Step, AssembleLines;
    var texts := SplitLines(text);
    LineAt(text, j);
    ActivateLineSays(AsmAt(texts, j), texts[j], AsmAt(texts, j + 1));
    var w := Said(texts[j], "ACTIVATE").value;
    KnownNode(text, j, w[0], sha);
    var i := Instruction(5, 0, Id(AsmAt(texts, j).nodes, w[0]), 0, Field(w[1]));
    ActsIs(text, j, i, sha);
    ActivateStep(StateAt(text, j, sha).value, i, Assembled(text).value.Listing(), sha);
  }

  lemma NodeStep(s: State, i: Instruction, m: Manifest, sha: Sha)
    requires EdgesListed(s.graph) && i.opcode == 2 && i.target in m.nodes
    ensures Step(s, i, m, sha) == Next(s.(graph := s.graph.(nodes := s.graph.nodes + {i.target})))
  {
    assert i.Name() == Some(CreateNode);
  }

  lemma NodeListed(a: Asm, name: string)
    requires Tables(a) && name in a.nodes.ids
    ensures Id(a.nodes, name) in a.Listing().nodes
  {
  }

  /** CREATE_NODE adds its node and changes nothing else. */
  lemma CreatesNode(text: string, j: nat, sha: Sha)
    requires Assembled(text).Ok? && j < |SplitLines(text)| && StateAt(text, j, sha).Some? && Said(SplitLines(text)[j], "CREATE_NODE").Some?
    ensures var w := Said(SplitLines(text)[j], "CREATE_NODE").value;
            var s := StateAt(text, j, sha).value;
            && |w| == 1 && OpSaid(SplitLines(text)[j]).Some?
            && Acts(text, j, sha) == Next(s.(graph := s.graph.(nodes := s.graph.nodes + {Id(Assembled(text).value.nodes, w[0])})))
  {
    hide AsmAt, SplitLines, Assembled, StateAt, Said, AssembleLine, Sound, EdgesListed, Id, OneMore, OpSaid, Acts, Step, AssembleLines,
         Intern, Tables;
    var (texts, a) := (SplitLines(text), Assembled(text).value);
    LineAt(text, j);
    NodeLineSays(AsmAt(texts, j), texts[j], AsmAt(texts, j + 1));
    var w := Said(texts[j], "CREATE_NODE").value;
    SameId(AsmAt(texts, j + 1).nodes, a.nodes, w[0]);
    FinalTables(text);
    NodeListed(a, w[0]);
    var i := Instruction(2, 0, Id(a.nodes, w[0]), 0, 0);
    ActsIs(text, j, i, sha);
    NodeStep(StateAt(text, j, sha).value, i, a.Listing(), sha);
  }

  lemma EdgeStep(s: State, i: Instruction, m: Manifest, sha: Sha)
    requires EdgesListed(s.graph) && i.opcode == 3 && (i.flags == 1 || i.flags == 2) && i.source in s.graph.nodes && i.param in s.graph.nodes
    ensures var r := Step(s, i, m, sha);
            && r.Next? && r.state.graph.nodes == s.graph.nodes && r.state.graph.activation == s.graph.activation
            && r.state == s.(graph := r.state.graph)
            && r.state.graph.edges == s.graph.edges[i.target := Edge(i.source, i.param, if i.flags == 1 then Support else Conflict)]
  {
    hide AddSorted;
    assert i.Name() == Some(CreateEdge);
  }

  /** CREATE_EDGE adds its edge, and changes neither nodes, activations, claims nor data. */
  lemma CreatesEdge(text: string, j: nat, sha: Sha)
    requires Assembled(text).Ok? && j < |SplitLines(text)| && StateAt(text, j, sha).Some? && Said(SplitLines(text)[j], "CREATE_EDGE").Some?
    ensures var s := StateAt(text, j, sha).value;
            && OpSaid(SplitLines(text)[j]).Some?
            && (var r := Acts(text, j, sha);
                && r.Next? && r.state.graph.nodes == s.graph.nodes && r.state.graph.activation == s.graph.activation
                && r.state == s.(graph := r.state.graph))
  {
    hide AsmAt, SplitLines, Assembled, StateAt, Said, AssembleLine, Sound, EdgesListed, Id, OneMore, OpSaid, Acts, Step, AssembleLines, Lower;
    var texts := SplitLines(text);
    LineAt(text, j);
    var x := AsmAt(texts, j);
    EdgeLineSays(x, texts[j], AsmAt(texts, j + 1));
    var w := Said(texts[j], "CREATE_EDGE").value;
    KnownNode(text, j, w[0], sha);
    KnownNode(text, j, w[1], sha);
    var i := Instruction(3, if Lower(w[2]) == "support" then 1 else 2, x.edgeCount, Id(x.nodes, w[0]), Id(x.nodes, w[1]));
    ActsIs(text, j, i, sha);
    EdgeStep(StateAt(text, j, sha).value, i, Assembled(text).value.Listing(), sha);
  }

  lemma BareStep(s: State, i: Instruction, m: Manifest, sha: Sha)
    requires EdgesListed(s.graph) && (i.opcode == 0 || i.opcode == 14 || i.opcode == 15)
    ensures Step(s, i, m, sha) == Next(if i.opcode == 15 then s.(emitted := true) else s)
  {
    hide StepGraph, StepClaim, StepData;
    NoGraphChange(s.graph, i, m);
    if i.opcode == 0 {
      assert i.Name() == Some(NoOp);
    } else if i.opcode == 14 {
      assert i.Name() == Some(LogReceipt);
    } else {
      assert i.Name() == Some(EmitReceipt);
    }
  }

  lemma NoGraphChange(g: Graph, i: Instruction, m: Manifest)
    requires EdgesListed(g)
    ensures StepGraph(g, i, NoOp, m) == Next(g) && StepGraph(g, i, LogReceipt, m) == Next(g)
  {
  }

  /** NOOP and LOG_RECEIPT do nothing; EMIT_RECEIPT emits. */
  lemma BareActs(text: string, j: nat, op: string, sha: Sha)
    requires Assembled(text).Ok? && j < |SplitLines(text)| && StateAt(text, j, sha).Some?
    requires (op == "NOOP" || op == "LOG_RECEIPT" || op == "EMIT_RECEIPT") && Said(SplitLines(text)[j], op).Some?
    ensures var s := StateAt(text, j, sha).value;
            OpSaid(SplitLines(text)[j]).Some? && Acts(text, j, sha) == Next(if op == "EMIT_RECEIPT" then s.(emitted := true) else s)
  {
    hide AsmAt, SplitLines, Assembled, StateAt, Said, AssembleLine, Sound, EdgesListed, OneMore, OpSaid, Acts, Step, AssembleLines;
    var texts := SplitLines(text);
    LineAt(text, j);
    BareLineSays(AsmAt(texts, j), texts[j], op, AsmAt(texts, j + 1));
    var i := Instruction(BareCode(op).value, 0, 0, 0, 0);
    ActsIs(text, j, i, sha);
    BareStep(StateAt(text, j, sha).value, i, Assembled(text).value.Listing(), sha);
  }

  /** The activations scaled by a factor of a thousand, rounded down, without those that fall to 0. */
  ghost predicate ScaledDown(before: map<nat, nat>, factor: nat, after: map<nat, nat>) {
    && (forall v :: Get(after, v) == Get(before, v) * factor / 1000)
    && (forall v :: v in after ==> after[v] > 0)
  }

  lemma DecayStep(s: State, i: Instruction, m: Manifest, sha: Sha)
    requires EdgesListed(s.graph) && i.opcode == 7
    ensures var r := Step(s, i, m, sha);
            if i.param > 1000 then r == Blocked(DecayRange)
            else && r.Next? && r.state == s.(graph := s.graph.(activation := r.state.graph.activation))
                 && ScaledDown(s.graph.activation, i.param, r.state.graph.activation)
  {
    assert i.Name() == Some(Decay);
    DecayedMeans(s.graph.activation, i.param);
  }

  /** DECAY scales every activation, and changes nothing else. */
  lemma Decays(text: string, j: nat, sha: Sha)
    requires Assembled(text).Ok? && j < |SplitLines(text)| && StateAt(text, j, sha).Some? && Said(SplitLines(text)[j], "DECAY").Some?
    ensures var w := Said(SplitLines(text)[j], "DECAY").value;
            var s := StateAt(text, j, sha).value;
            && |w| == 1 && IsField(w[0]) && OpSaid(SplitLines(text)[j]).Some?
            && (var r := Acts(text, j, sha);
                if Field(w[0]) > 1000 then r == Blocked(DecayRange)
                else && r.Next? && r.state == s.(graph := s.graph.(activation := r.state.graph.activation))
                     && ScaledDown(s.graph.activation, Field(w[0]), r.state.graph.activation))
  {
    hide AsmAt, SplitLines, Assembled, StateAt, Said, AssembleLine, IsField, Field, Sound, EdgesListed, OneMore, OpSaid, Acts, Step, ScaledDown, AssembleLines;
    var texts := SplitLines(text);
    LineAt(text, j);
    DecayLineSays(AsmAt(texts, j), texts[j], AsmAt(texts, j + 1));
    var i := Instruction(7, 0, 0, 0, Field(Said(texts[j], "DECAY").value[0]));
    ActsIs(text, j, i, sha);
    DecayStep(StateAt(text, j, sha).value, i, Assembled(text).value.Listing(), sha);
  }

  lemma DecayedMeans(activation: map<nat, nat>, factor: nat)
    ensures ScaledDown(activation, factor, Decayed(activation, factor))
  {
    forall v: nat
      ensures Get(Decayed(activation, factor), v) == Get(activation, v) * factor / 1000
    {
      assert v !in activation ==> 0 * factor / 1000 == 0;
    }
  }

  /** The kind a word names. */
  function KindOf(word: string): EdgeKind {
    if word == "support" then Support else Conflict
  }

  /** The result of PROPAGATE in a state, on a list of edges. */
  ghost predicate Propagated(s: State, edges: seq<Edge>, kind: EdgeKind, source: nat, depth: nat, r: Outcome<State>) {
    var value := Get(s.graph.activation, source);
    if value * WalkTotal(edges, kind, source, 0, depth) > 1000000000 then r == Blocked(EnergyLimit)
    else
      && r.Next? && r.state == s.(graph := s.graph.(activation := r.state.graph.activation))
      && forall v :: GreatestOfWalks(edges, kind, source, value, depth, Get(s.graph.activation, v), v, Get(r.state.graph.activation, v))
  }

  lemma PropagateStep(s: State, edges: seq<Edge>, i: Instruction, m: Manifest, sha: Sha)
    requires Holds(s.graph, edges) && EdgesListed(s.graph) && i.opcode == 6 && (i.flags == 1 || i.flags == 2)
    ensures Propagated(s, edges, if i.flags == 1 then Support else Conflict, i.source, i.param, Step(s, i, m, sha))
  {
    hide Holds, GreatestOfWalks, WalkTotal, StepGraph;
    assert i.Name() == Some(Propagate);
    PropagateCountsWalks(s.graph, edges, i, if i.flags == 1 then Support else Conflict, m);
  }

  /**
   PROPAGATE from a node along the edges of a kind that the lines above have named: blocked when its activation times
   the number of walks of length 1 to the depth passes the limit; otherwise each node becomes the greatest of its old
   activation and that activation times its walks of each length.
   */
  lemma Propagates(text: string, j: nat, sha: Sha)
    requires Assembled(text).Ok? && j < |SplitLines(text)| && StateAt(text, j, sha).Some? && Said(SplitLines(text)[j], "PROPAGATE").Some?
    ensures var w := Said(SplitLines(text)[j], "PROPAGATE").value;
            var t := Assembled(text).value.nodes;
            && |w| == 3 && IsField(w[2]) && OpSaid(SplitLines(text)[j]).Some? && (Lower(w[1]) == "support" || Lower(w[1]) == "conflict")
            && Propagated(StateAt(text, j, sha).value, EdgesOf(Links(SplitLines(text)[..j]), t), KindOf(Lower(w[1])),
                          Id(t, w[0]), Field(w[2]), Acts(text, j, sha))
  {
    hide AsmAt, SplitLines, Assembled, StateAt, Said, AssembleLine, IsField, Field, Sound, EdgesListed, Id, OneMore, OpSaid, Acts, Step,
         Links, EdgesOf, Holds, Propagated, Lower, AssembleLines, NodesSaid;
    var texts := SplitLines(text);
    LineAt(text, j);
    PropagateLineSays(AsmAt(texts, j), texts[j], AsmAt(texts, j + 1));
    var w := Said(texts[j], "PROPAGATE").value;
    KnownNode(text, j, w[0], sha);
    var i := Instruction(6, if Lower(w[1]) == "support" then 1 else 2, 0, Id(AsmAt(texts, j).nodes, w[0]), Field(w[2]));
    ActsIs(text, j, i, sha);
    GraphIsSaid(text, j, sha);
    PropagateStep(StateAt(text, j, sha).value, EdgesOf(Links(texts[..j]), Assembled(text).value.nodes), i, Assembled(text).value.Listing(), sha);
  }

  // ------------------------------------------------- claims

  lemma ClaimsSame(a: Asm, line: Line)
    requires Assemble(a, line).Ok? && !line.CreateClaimLine?
    ensures Assemble(a, line).value.claims == a.claims
  {
    hide Intern, KindFlag, ActionOp;
  }

  lemma NoClaimLine(a: Asm, text: string, b: Asm)
    requires AssembleLine(a, text) == Ok(b) && Said(text, "CREATE_CLAIM").None?
    ensures b.claims == a.claims && OpSaid(text) != Some(CreateClaim)
  {
    hide ReadLine, Said, Assemble;
    match ReadLine(text)
    case Ok(Some(line)) =>
      ReadSays(text, line);
      assert Mnemonic(CreateClaimWord) == "CREATE_CLAIM";
      ClaimsSame(a, line);
    case _ =>
  }

  lemma LastClaimStep(front: seq<string>, text: string, claim: string)
    ensures LastClaim(front + [text], claim)
         == match Said(text, "CREATE_CLAIM")
            case Some(w) => if |w| == 3 && w[0] == claim then Some((w[1], w[2])) else LastClaim(front, claim)
            case None => LastClaim(front, claim)
  {
    hide Said;
    assert (front + [text])[..|front|] == front;
  }

  /** A claim the tables know is one the lines above have created. */
  lemma {:induction false} KnownClaim(texts: seq<string>, n: nat, claim: string)
    requires AssembleLines(EMPTY, texts).Ok? && n <= |texts|
    ensures claim in AsmAt(texts, n).claims.ids <==> LastClaim(texts[..n], claim).Some?
  {
    hide AssembleLines, AssembleLine, Said, AsmAt;
    if n == 0 {
      EmptyAt(texts);
    } else {
      KnownClaim(texts, n - 1, claim);
      NextLine(texts, n - 1);
      var (a, text, b) := (AsmAt(texts, n - 1), texts[n - 1], AsmAt(texts, n));
      assert texts[..n] == texts[..n - 1] + [text];
      LastClaimStep(texts[..n - 1], text, claim);
      if Said(text, "CREATE_CLAIM").Some? {
        ClaimLineSays(a, text, b);
        InternNames(a.claims, Said(text, "CREATE_CLAIM").value[0]);
      } else {
        NoClaimLine(a, text, b);
      }
    }
  }

  lemma TableStep(s: State, i: Instruction, m: Manifest, sha: Sha)
    requires EdgesListed(s.graph) && Step(s, i, m, sha).Next?
    ensures var t := Step(s, i, m, sha).state;
            t.claims.table == if i.Name() == Some(CreateClaim) then s.claims.table[i.target := Claim(i.source, i.param)] else s.claims.table
  {
    hide StepGraph, StepData, ConflictPressure, VerdictOf, Register;
  }

  /** The machine's entry of a claim is the one its last CREATE_CLAIM line above has named. */
  ghost predicate ClaimHeld(text: string, j: nat, claim: string, sha: Sha)
    requires Assembled(text).Ok? && j <= |SplitLines(text)| && StateAt(text, j, sha).Some? && LastClaim(SplitLines(text)[..j], claim).Some?
  {
    var (a, table) := (Assembled(text).value, StateAt(text, j, sha).value.claims.table);
    var ends := LastClaim(SplitLines(text)[..j], claim).value;
    && claim in a.claims.ids && ends.0 in a.nodes.ids && ends.1 in a.nodes.ids
    && Id(a.claims, claim) in table && table[Id(a.claims, claim)] == Claim(Id(a.nodes, ends.0), Id(a.nodes, ends.1))
  }

  lemma CreatesClaim(text: string, j: nat, sha: Sha)
    requires Assembled(text).Ok? && j < |SplitLines(text)| && StateAt(text, j, sha).Some? && Said(SplitLines(text)[j], "CREATE_CLAIM").Some?
    ensures var w := Said(SplitLines(text)[j], "CREATE_CLAIM").value;
            var a := Assembled(text).value;
            && |w| == 3 && w[0] in a.claims.ids && w[1] in a.nodes.ids && w[2] in a.nodes.ids
            && At(text, j) < |a.code| && OpSaid(SplitLines(text)[j]).Some?
            && a.code[At(text, j)] == Instruction(4, 0, Id(a.claims, w[0]), Id(a.nodes, w[1]), Id(a.nodes, w[2]))
  {
    hide AsmAt, SplitLines, Assembled, StateAt, Said, AssembleLine, OneMore, Intern, Id;
    var texts := SplitLines(text);
    LineAt(text, j);
    var (x, y, a) := (AsmAt(texts, j), AsmAt(texts, j + 1), Assembled(text).value);
    ClaimLineSays(x, texts[j], y);
    var w := Said(texts[j], "CREATE_CLAIM").value;
    SameId(x.nodes, a.nodes, w[1]);
    SameId(x.nodes, a.nodes, w[2]);
    SameId(y.claims, a.claims, w[0]);
    AddedAt(text, j, Instruction(4, 0, Id(y.claims, w[0]), Id(x.nodes, w[1]), Id(x.nodes, w[2])));
  }

  lemma NewClaimStep(s: State, i: Instruction, m: Manifest, sha: Sha)
    requires EdgesListed(s.graph) && i.opcode == 4 && i.target in m.claims && i.source in s.graph.nodes && i.param in s.graph.nodes
    ensures Step(s, i, m, sha) == Next(s.(claims := s.claims.(table := s.claims.table[i.target := Claim(i.source, i.param)])))
  {
    hide StepOnClaim;
    assert i.Name() == Some(CreateClaim);
  }

  lemma ClaimListed(a: Asm, name: string)
    requires Tables(a) && name in a.claims.ids
    ensures Id(a.claims, name) in a.Listing().claims
  {
  }

  /** CREATE_CLAIM enters a claim between two nodes, source first, and changes nothing else. */
  lemma EntersClaim(text: string, j: nat, sha: Sha)
    requires Assembled(text).Ok? && j < |SplitLines(text)| && StateAt(text, j, sha).Some? && Said(SplitLines(text)[j], "CREATE_CLAIM").Some?
    ensures var w := Said(SplitLines(text)[j], "CREATE_CLAIM").value;
            var (a, s) := (Assembled(text).value, StateAt(text, j, sha).value);
            && |w| == 3 && OpSaid(SplitLines(text)[j]).Some?
            && Acts(text, j, sha)
               == Next(s.(claims := s.claims.(table := s.claims.table[Id(a.claims, w[0]) := Claim(Id(a.nodes, w[1]), Id(a.nodes, w[2]))])))
  {
    hide AsmAt, SplitLines, Assembled, StateAt, Said, AssembleLine, Sound, EdgesListed, OneMore, OpSaid, Acts, Step, AssembleLines,
         Intern, Id, Tables;
    var texts := SplitLines(text);
    LineAt(text, j);
    var (x, y, a) := (AsmAt(texts, j), AsmAt(texts, j + 1), Assembled(text).value);
    ClaimLineSays(x, texts[j], y);
    var w := Said(texts[j], "CREATE_CLAIM").value;
    KnownNode(text, j, w[1], sha);
    KnownNode(text, j, w[2], sha);
    SameId(y.claims, a.claims, w[0]);
    FinalTables(text);
    ClaimListed(a, w[0]);
    var i := Instruction(4, 0, Id(y.claims, w[0]), Id(x.nodes, w[1]), Id(x.nodes, w[2]));
    ActsIs(text, j, i, sha);
    NewClaimStep(StateAt(text, j, sha).value, i, a.Listing(), sha);
  }

  lemma {:induction false} ClaimsAreSaid(text: string, j: nat, claim: string, sha: Sha)
    requires Assembled(text).Ok? && j <= |SplitLines(text)| && StateAt(text, j, sha).Some? && LastClaim(SplitLines(text)[..j], claim).Some?
    ensures ClaimHeld(text, j, claim, sha)
    decreases j
  {
    hide AsmAt, SplitLines, Assembled, StateAt, Said, AssembleLine, Step, OpSaid, Sound, At, Lists, Id, LastClaim;
    if j > 0 {
      var (texts, a) := (SplitLines(text), Assembled(text).value);
      ReachedAbove(text, j - 1, j, sha);
      NextState(text, j - 1, sha);
      LineAt(text, j - 1);
      FinalTables(text);
      assert texts[..j] == texts[..j - 1] + [texts[j - 1]];
      LastClaimStep(texts[..j - 1], texts[j - 1], claim);
      var s := StateAt(text, j - 1, sha).value;
      SoundListed(s);
      if Said(texts[j - 1], "CREATE_CLAIM").Some? {
        CreatesClaim(text, j - 1, sha);
        var w := Said(texts[j - 1], "CREATE_CLAIM").value;
        TableStep(s, a.code[At(text, j - 1)], a.Listing(), sha);
        if w[0] != claim {
          ClaimsAreSaid(text, j - 1, claim, sha);
          IdsDiffer(a.claims, w[0], claim);
        }
      } else {
        ClaimsAreSaid(text, j - 1, claim, sha);
        NoClaimLine(AsmAt(texts, j - 1), texts[j - 1], AsmAt(texts, j));
        InstructionAt(text, j - 1);
        if OpSaid(texts[j - 1]).Some? {
          TableStep(s, a.code[At(text, j - 1)], a.Listing(), sha);
        }
      }
    } else {
      NoLines(text, claim);
    }
  }

  lemma NoLines(text: string, claim: string)
    ensures LastClaim(SplitLines(text)[..0], claim) == None
  {
  }

  // ------------------------------------------------- what the claim operations do

  lemma ClaimStepIs(s: State, i: Instruction, op: Op, m: Manifest, sha: Sha)
    requires EdgesListed(s.graph) && i.Name() == Some(op) && IsClaimOp(op) && !op.CreateClaim? && i.target in s.claims.table
    ensures Step(s, i, m, sha)
         == match StepOnClaim(s.graph, s.claims, i.target, op)
            case Next(c) => Next(s.(claims := c))
            case Blocked(reason) => Blocked(reason)
            case KeyMissing => KeyMissing
  {
    hide EdgesListed, StepOnClaim;
  }

  /** A line of one of the six claim operations: the claim it names was created above, and is held as it was created. */
  lemma ClaimOpAt(text: string, j: nat, op: string, sha: Sha)
    requires Assembled(text).Ok? && j < |SplitLines(text)| && StateAt(text, j, sha).Some?
    requires ClaimCode(op).Some? && Said(SplitLines(text)[j], op).Some?
    ensures var w := Said(SplitLines(text)[j], op).value;
            var a := Assembled(text).value;
            var s := StateAt(text, j, sha).value;
            && |w| == 1 && OpSaid(SplitLines(text)[j]).Some? && EdgesListed(s.graph)
            && LastClaim(SplitLines(text)[..j], w[0]).Some? && ClaimHeld(text, j, w[0], sha) && Id(a.claims, w[0]) in s.claims.table
            && Acts(text, j, sha) == Step(s, Instruction(ClaimCode(op).value, 0, Id(a.claims, w[0]), 0, 0), a.Listing(), sha)
  {
    hide AsmAt, SplitLines, Assembled, StateAt, Said, AssembleLine, Sound, EdgesListed, Id, OneMore, OpSaid, Acts, Step, AssembleLines,
         LastClaim, ClaimCode, At;
    var texts := SplitLines(text);
    LineAt(text, j);
    ClaimOpLineSays(AsmAt(texts, j), texts[j], op, AsmAt(texts, j + 1));
    var w := Said(texts[j], op).value;
    SameId(AsmAt(texts, j).claims, Assembled(text).value.claims, w[0]);
    KnownClaim(texts, j, w[0]);
    ClaimsAreSaid(text, j, w[0], sha);
    ActsIs(text, j, Instruction(ClaimCode(op).value, 0, Id(AsmAt(texts, j).claims, w[0]), 0, 0), sha);
  }

  /** What flows into a node: over the first n edges, the activation of the source of each conflict edge that leads there. */
  function Inflow(edges: seq<Edge>, activation: map<nat, nat>, node: nat, n: nat): nat
    requires n <= |edges|
  {
    if n == 0 then 0
    else Inflow(edges, activation, node, n - 1)
         + if edges[n - 1].kind == Conflict && edges[n - 1].target == node then Get(activation, edges[n - 1].source) else 0
  }

  lemma {:induction false} PressureAppend(g: Graph, ids: seq<nat>, id: nat)
    requires (forall x :: x in ids ==> x in g.edges) && id in g.edges
    ensures ConflictPressure(g, ids + [id])
         == ConflictPressure(g, ids) + if g.edges[id].kind == Conflict then Get(g.activation, g.edges[id].source) else 0
    decreases |ids|
  {
    if ids == [] {
      assert [id][1..] == [] && ids + [id] == [id];
      assert ConflictPressure(g, []) == 0;
    } else {
      assert (ids + [id])[1..] == ids[1..] + [id];
      PressureAppend(g, ids[1..], id);
    }
  }

  lemma {:induction false} PressureIsInflow(g: Graph, edges: seq<Edge>, node: nat, n: nat)
    requires Holds(g, edges) && n <= |edges|
    ensures forall id :: id in InList(edges, node, n) ==> id in g.edges
    ensures ConflictPressure(g, InList(edges, node, n)) == Inflow(edges, g.activation, node, n)
  {
    if n > 0 {
      PressureIsInflow(g, edges, node, n - 1);
      if edges[n - 1].target == node {
        PressureAppend(g, InList(edges, node, n - 1), n - 1);
      }
    }
  }

  /** The pressure and tension recorded for a claim with this target. */
  ghost predicate Interfered(s: State, edges: seq<Edge>, id: nat, node: nat, t: State) {
    var (support, conflict) := (Get(s.graph.activation, node), Inflow(edges, s.graph.activation, node, |edges|));
    t == s.(claims := s.claims.(pressure := s.claims.pressure[id := Pressure(support, conflict)],
                                tension := s.claims.tension[id := if support <= conflict then support else conflict]))
  }

  lemma InterfereStep(s: State, edges: seq<Edge>, id: nat, m: Manifest, sha: Sha)
    requires Holds(s.graph, edges) && EdgesListed(s.graph) && id in s.claims.table
    ensures var r := Step(s, Instruction(8, 0, id, 0, 0), m, sha);
            r.Next? && Interfered(s, edges, id, s.claims.table[id].target, r.state)
  {
    hide Holds, EdgesListed, ConflictPressure, Inflow, InList;
    var i := Instruction(8, 0, id, 0, 0);
    assert i.Name() == Some(Interfere);
    ClaimStepIs(s, i, Interfere, m, sha);
    PressureHere(s.graph, edges, s.claims.table[id].target);
  }

  lemma PressureHere(g: Graph, edges: seq<Edge>, node: nat)
    requires Holds(g, edges) && EdgesListed(g)
    ensures forall id :: id in ListAt(g.adjacencyIn, node) ==> id in g.edges
    ensures ConflictPressure(g, ListAt(g.adjacencyIn, node)) == Inflow(edges, g.activation, node, |edges|)
  {
    hide ConflictPressure, Inflow, InList;
    PressureIsInflow(g, edges, node, |edges|);
    assert ListAt(g.adjacencyIn, node) == InList(edges, node, |edges|);
  }

  /**
   INTERFERE records, for the claim it names, the activation of the claim's target as support, the inflow over the
   conflict edges that the lines above have named into that target as conflict, and the smaller of the two as tension.
   */
  lemma Interferes(text: string, j: nat, sha: Sha)
    requires Assembled(text).Ok? && j < |SplitLines(text)| && StateAt(text, j, sha).Some? && Said(SplitLines(text)[j], "INTERFERE").Some?
    ensures var w := Said(SplitLines(text)[j], "INTERFERE").value;
            var (front, a) := (SplitLines(text)[..j], Assembled(text).value);
            && |w| == 1 && OpSaid(SplitLines(text)[j]).Some? && LastClaim(front, w[0]).Some?
            && (var r := Acts(text, j, sha);
                r.Next? && Interfered(StateAt(text, j, sha).value, EdgesOf(Links(front), a.nodes), Id(a.claims, w[0]),
                                      Id(a.nodes, LastClaim(front, w[0]).value.1), r.state))
  {
    hide SplitLines, Assembled, StateAt, Said, Sound, EdgesListed, Id, OpSaid, Acts, Step, Links, EdgesOf, Holds, Interfered, LastClaim, NodesSaid;
    ClaimOpAt(text, j, "INTERFERE", sha);
    GraphIsSaid(text, j, sha);
    var w := Said(SplitLines(text)[j], "INTERFERE").value;
    InterfereStep(StateAt(text, j, sha).value, EdgesOf(Links(SplitLines(text)[..j]), Assembled(text).value.nodes),
                  Id(Assembled(text).value.claims, w[0]), Assembled(text).value.Listing(), sha);
  }

  /** COMPUTE_TENSION sets the tension of a claim to the smaller of its recorded pressures, 0 if there are none. */
  lemma ComputesTension(text: string, j: nat, sha: Sha)
    requires Assembled(text).Ok? && j < |SplitLines(text)| && StateAt(text, j, sha).Some? && Said(SplitLines(text)[j], "COMPUTE_TENSION").Some?
    ensures var w := Said(SplitLines(text)[j], "COMPUTE_TENSION").value;
            var s := StateAt(text, j, sha).value;
            && |w| == 1 && OpSaid(SplitLines(text)[j]).Some?
            && (var id := Id(Assembled(text).value.claims, w[0]);
                var p := if id in s.claims.pressure then s.claims.pressure[id] else Pressure(0, 0);
                Acts(text, j, sha)
                == Next(s.(claims := s.claims.(tension := s.claims.tension[id := if p.support <= p.conflict then p.support else p.conflict]))))
  {
    hide SplitLines, Assembled, StateAt, Said, Sound, EdgesListed, Id, OpSaid, Acts, Step, LastClaim, ClaimHeld;
    ClaimOpAt(text, j, "COMPUTE_TENSION", sha);
    var s := StateAt(text, j, sha).value;
    var i := Instruction(9, 0, Id(Assembled(text).value.claims, Said(SplitLines(text)[j], "COMPUTE_TENSION").value[0]), 0, 0);
    assert i.Name() == Some(ComputeTension);
    ClaimStepIs(s, i, ComputeTension, Assembled(text).value.Listing(), sha);
  }

  /** The verdict on a claim between two nodes, on a list of edges. */
  ghost function VerdictOn(s: State, edges: seq<Edge>, id: nat, source: nat, target: nat): Verdict {
    if id in s.claims.pressure && s.claims.pressure[id].conflict > 0 then Rejected
    else if LinkReachable(edges, source, target) then Verified
    else Abstained
  }

  lemma VerifyStep(s: State, edges: seq<Edge>, id: nat, m: Manifest, sha: Sha)
    requires Holds(s.graph, edges) && EdgesListed(s.graph) && id in s.claims.table
    ensures Step(s, Instruction(10, 0, id, 0, 0), m, sha)
         == Next(s.(claims := s.claims.(verdicts :=
              s.claims.verdicts[id := VerdictOn(s, edges, id, s.claims.table[id].source, s.claims.table[id].target)])))
  {
    hide Holds, EdgesListed, LinkReachable, SupportReachable;
    var i := Instruction(10, 0, id, 0, 0);
    assert i.Name() == Some(Verify);
    ClaimStepIs(s, i, Verify, m, sha);
    SameReach(s.graph, edges, s.claims.table[id].source, s.claims.table[id].target);
  }

  /**
   VERIFY enters the verdict on the claim it names: rejected if conflict pressure is recorded, else verified if the
   support edges that the lines above have named lead from its source to its target, else abstained.
   */
  lemma Verifies(text: string, j: nat, sha: Sha)
    requires Assembled(text).Ok? && j < |SplitLines(text)| && StateAt(text, j, sha).Some? && Said(SplitLines(text)[j], "VERIFY").Some?
    ensures var w := Said(SplitLines(text)[j], "VERIFY").value;
            var (front, a) := (SplitLines(text)[..j], Assembled(text).value);
            var s := StateAt(text, j, sha).value;
            && |w| == 1 && OpSaid(SplitLines(text)[j]).Some? && LastClaim(front, w[0]).Some?
            && (var (id, ends) := (Id(a.claims, w[0]), LastClaim(front, w[0]).value);
                Acts(text, j, sha)
                == Next(s.(claims := s.claims.(verdicts := s.claims.verdicts[id :=
                     VerdictOn(s, EdgesOf(Links(front), a.nodes), id, Id(a.nodes, ends.0), Id(a.nodes, ends.1))]))))
  {
    hide SplitLines, Assembled, StateAt, Said, Sound, EdgesListed, Id, OpSaid, Acts, Step, Links, EdgesOf, Holds, VerdictOn, LastClaim, NodesSaid;
    ClaimOpAt(text, j, "VERIFY", sha);
    GraphIsSaid(text, j, sha);
    var w := Said(SplitLines(text)[j], "VERIFY").value;
    VerifyStep(StateAt(text, j, sha).value, EdgesOf(Links(SplitLines(text)[..j]), Assembled(text).value.nodes),
               Id(Assembled(text).value.claims, w[0]), Assembled(text).value.Listing(), sha);
  }

  /** One list is the other with one more member. */
  ghost predicate Joined(before: seq<nat>, id: nat, after: seq<nat>) {
    StrictlySorted(after) && forall x :: x in after <==> x in before || x == id
  }

  /** What ACCEPT, REJECT and QUARANTINE do to the lists of claims. */
  ghost predicate Decided(s: State, op: string, id: nat, r: Outcome<State>) {
    var verdict := if id in s.claims.verdicts then s.claims.verdicts[id] else Abstained;
    if op == "ACCEPT" && verdict == Abstained then r == Blocked(AcceptWithoutVerify)
    else
      && r.Next?
      && r.state == s.(claims := s.claims.(accepted := r.state.claims.accepted, rejected := r.state.claims.rejected,
                                           quarantined := r.state.claims.quarantined))
      && (if op == "ACCEPT" && verdict == Verified then Joined(s.claims.accepted, id, r.state.claims.accepted)
          else r.state.claims.accepted == s.claims.accepted)
      && (if op == "REJECT" || (op == "ACCEPT" && verdict == Rejected) then Joined(s.claims.rejected, id, r.state.claims.rejected)
          else r.state.claims.rejected == s.claims.rejected)
      && (if op == "QUARANTINE" || (op == "ACCEPT" && verdict == Rejected) then Joined(s.claims.quarantined, id, r.state.claims.quarantined)
          else r.state.claims.quarantined == s.claims.quarantined)
  }

  lemma DecideStep(s: State, op: string, id: nat, m: Manifest, sha: Sha)
    requires Sound(s) && EdgesListed(s.graph) && id in s.claims.table && (op == "ACCEPT" || op == "REJECT" || op == "QUARANTINE")
    ensures Decided(s, op, id, Step(s, Instruction(ClaimCode(op).value, 0, id, 0, 0), m, sha))
  {
    hide EdgesListed, Register, Joined, Step, StrictlySorted;
    RegisterJoins(s.claims.accepted, id);
    RegisterJoins(s.claims.rejected, id);
    RegisterJoins(s.claims.quarantined, id);
    if op == "ACCEPT" {
      ClaimStepIs(s, Instruction(11, 0, id, 0, 0), Accept, m, sha);
    } else if op == "REJECT" {
      ClaimStepIs(s, Instruction(12, 0, id, 0, 0), Reject, m, sha);
    } else {
      ClaimStepIs(s, Instruction(13, 0, id, 0, 0), Quarantine, m, sha);
    }
  }

  lemma RegisterJoins(ids: seq<nat>, id: nat)
    requires StrictlySorted(ids)
    ensures Joined(ids, id, Register(ids, id))
  {
    hide Register, StrictlySorted;
    RegisterKeepsOrder(ids, id);
  }

  /**
   ACCEPT without a verdict, or on one that abstained, is blocked; of a verified claim it is accepted, and of a rejected
   one it is rejected and quarantined. REJECT and QUARANTINE enter the claim in their list.
   */
  lemma Decides(text: string, j: nat, op: string, sha: Sha)
    requires Assembled(text).Ok? && j < |SplitLines(text)| && StateAt(text, j, sha).Some?
    requires (op == "ACCEPT" || op == "REJECT" || op == "QUARANTINE") && Said(SplitLines(text)[j], op).Some?
    ensures var w := Said(SplitLines(text)[j], op).value;
            && |w| == 1 && OpSaid(SplitLines(text)[j]).Some? && LastClaim(SplitLines(text)[..j], w[0]).Some?
            && Decided(StateAt(text, j, sha).value, op, Id(Assembled(text).value.claims, w[0]), Acts(text, j, sha))
  {
    hide SplitLines, Assembled, StateAt, Said, Sound, EdgesListed, Id, OpSaid, Acts, Step, Decided, LastClaim;
    ClaimOpAt(text, j, op, sha);
    DecideStep(StateAt(text, j, sha).value, op, Id(Assembled(text).value.claims, Said(SplitLines(text)[j], op).value[0]),
               Assembled(text).value.Listing(), sha);
  }

  // ------------------------------------------------- contradiction rejects

  lemma PressureStep(s: State, i: Instruction, m: Manifest, sha: Sha, id: nat)
    requires EdgesListed(s.graph) && Step(s, i, m, sha).Next? && !(i.Name() == Some(Interfere) && i.target == id)
    ensures var t := Step(s, i, m, sha).state;
            (id in t.claims.pressure <==> id in s.claims.pressure) && (id in s.claims.pressure ==> t.claims.pressure[id] == s.claims.pressure[id])
  {
    hide StepGraph, StepData, ConflictPressure, VerdictOf, Register;
  }

  /** A line that does not interfere with a claim leaves its pressure as it was. */
  lemma NoInterference(text: string, j: nat, claim: string, sha: Sha)
    requires Assembled(text).Ok? && j < |SplitLines(text)| && StateAt(text, j + 1, sha).Some? && StateAt(text, j, sha).Some?
    requires claim in Assembled(text).value.claims.ids && Said(SplitLines(text)[j], "INTERFERE") != Some([claim])
    ensures var id := Id(Assembled(text).value.claims, claim);
            var (p, q) := (StateAt(text, j, sha).value.claims.pressure, StateAt(text, j + 1, sha).value.claims.pressure);
            (id in q <==> id in p) && (id in p ==> q[id] == p[id])
  {
    hide SplitLines, Assembled, StateAt, Said, Sound, OpSaid, Step, At, Lists, Id, LastClaim, ClaimHeld;
    var (texts, a) := (SplitLines(text), Assembled(text).value);
    var id := Id(a.claims, claim);
    NextState(text, j, sha);
    if OpSaid(texts[j]).Some? {
      var s := StateAt(text, j, sha).value;
      SoundListed(s);
      InstructionAt(text, j);
      if OpSaid(texts[j]) == Some(Interfere) {
        SaysInterfere(text, j);
        ClaimOpAt(text, j, "INTERFERE", sha);
        var w := Said(texts[j], "INTERFERE").value;
        assert w == [w[0]];
        ClaimNamed(text, j, w[0], sha);
        FinalTables(text);
        IdsDiffer(a.claims, w[0], claim);
        PressureStep(s, Instruction(8, 0, Id(a.claims, w[0]), 0, 0), a.Listing(), sha, id);
      } else {
        PressureStep(s, a.code[At(text, j)], a.Listing(), sha, id);
      }
    }
  }

  lemma ClaimNamed(text: string, j: nat, claim: string, sha: Sha)
    requires Assembled(text).Ok? && j <= |SplitLines(text)| && StateAt(text, j, sha).Some? && LastClaim(SplitLines(text)[..j], claim).Some?
    requires ClaimHeld(text, j, claim, sha)
    ensures claim in Assembled(text).value.claims.ids
  {
  }

  lemma SaysInterfere(text: string, j: nat)
    requires Assembled(text).Ok? && j < |SplitLines(text)| && OpSaid(SplitLines(text)[j]) == Some(Interfere)
    ensures Said(SplitLines(text)[j], "INTERFERE").Some?
  {
    hide SplitLines, Assembled, ReadLine, Said;
    var line := ReadLine(SplitLines(text)[j]).value.value;
    ReadSays(SplitLines(text)[j], line);
    assert line == ClaimLine(DoInterfere, line.claim) && Mnemonic(ClaimWord(DoInterfere)) == "INTERFERE";
  }

  lemma {:induction false} PressureStays(text: string, i: nat, j: nat, claim: string, sha: Sha)
    requires Assembled(text).Ok? && i <= j <= |SplitLines(text)| && StateAt(text, j, sha).Some? && StateAt(text, i, sha).Some?
    requires claim in Assembled(text).value.claims.ids && forall k :: i <= k < j ==> Said(SplitLines(text)[k], "INTERFERE") != Some([claim])
    ensures var id := Id(Assembled(text).value.claims, claim);
            var (p, q) := (StateAt(text, i, sha).value.claims.pressure, StateAt(text, j, sha).value.claims.pressure);
            (id in q <==> id in p) && (id in p ==> q[id] == p[id])
    decreases j
  {
    hide SplitLines, Assembled, StateAt, Said, Id;
    if i < j {
      ReachedAbove(text, j - 1, j, sha);
      PressureStays(text, i, j - 1, claim, sha);
      NoInterference(text, j - 1, claim, sha);
    }
  }

  /** Some named conflict edge leads into the node from an active one. */
  ghost predicate Contradicted(links: seq<Link>, t: Symbols, activation: map<nat, nat>, target: string) {
    exists k :: 0 <= k < |links| && links[k].kind == "conflict" && links[k].target == target && Get(activation, Id(t, links[k].source)) > 0
  }

  lemma {:induction false} InflowMeans(links: seq<Link>, t: Symbols, activation: map<nat, nat>, target: string, n: nat)
    requires n <= |links| && LinksKnown(links, t) && Lists(t) && target in t.ids
    ensures Inflow(EdgesOf(links, t), activation, Id(t, target), n) > 0
       <==> exists k :: 0 <= k < n && links[k].kind == "conflict" && links[k].target == target && Get(activation, Id(t, links[k].source)) > 0
  {
    hide Lists, Id;
    if n > 0 {
      InflowMeans(links, t, activation, target, n - 1);
      IdsDiffer(t, links[n - 1].target, target);
    }
  }

  /**
   A claim interfered with at line i and verified at a later line j, with no other interference in between, is rejected
   exactly when a conflict edge named above line i led into its target from a node active at line i.
   */
  lemma ContradictionRejects(text: string, i: nat, j: nat, claim: string, sha: Sha)
    requires Assembled(text).Ok? && i < j < |SplitLines(text)| && StateAt(text, j, sha).Some?
    requires Said(SplitLines(text)[i], "INTERFERE") == Some([claim]) && Said(SplitLines(text)[j], "VERIFY") == Some([claim])
    requires forall k :: i < k < j ==> Said(SplitLines(text)[k], "INTERFERE") != Some([claim])
    ensures StateAt(text, i, sha).Some? && LastClaim(SplitLines(text)[..i], claim).Some? && OpSaid(SplitLines(text)[j]).Some?
    ensures var (a, r) := (Assembled(text).value, Acts(text, j, sha));
            && r.Next? && Id(a.claims, claim) in r.state.claims.verdicts
            && (r.state.claims.verdicts[Id(a.claims, claim)] == Rejected
                <==> Contradicted(Links(SplitLines(text)[..i]), a.nodes, StateAt(text, i, sha).value.graph.activation,
                                  LastClaim(SplitLines(text)[..i], claim).value.1))
  {
    hide SplitLines, Assembled, StateAt, Said, Sound, OpSaid, Step, At, Lists, Id, LastClaim, EdgesOf, Links, NodesSaid, LinksKnown, Inflow,
         LinkReachable, Holds, Acts;
    var (texts, a) := (SplitLines(text), Assembled(text).value);
    ReachedAbove(text, i, j, sha);
    ReachedAbove(text, i + 1, j, sha);
    Interferes(text, i, sha);
    ClaimOpAt(text, i, "INTERFERE", sha);
    NextState(text, i, sha);
    ClaimNamed(text, i, claim, sha);
    NotHalt(text, i);
    PressureStays(text, i + 1, j, claim, sha);
    Verifies(text, j, sha);
    GraphIsSaid(text, i, sha);
    FinalTables(text);
    var links := Links(texts[..i]);
    InflowMeans(links, a.nodes, StateAt(text, i, sha).value.graph.activation, LastClaim(texts[..i], claim).value.1, |links|);
    EdgesCount(links, a.nodes);
  }

  lemma EdgesCount(links: seq<Link>, t: Symbols)
    ensures |EdgesOf(links, t)| == |links|
  {
  }

  lemma NotHalt(text: string, j: nat)
    requires Assembled(text).Ok? && j < |SplitLines(text)| && Said(SplitLines(text)[j], "INTERFERE").Some?
    ensures OpSaid(SplitLines(text)[j]) != Some(Halt)
  {
    hide SplitLines, Assembled, ReadLine, Said;
    match ReadLine(SplitLines(text)[j])
    case Ok(Some(line)) =>
      ReadSays(SplitLines(text)[j], line);
      assert Mnemonic(ClaimWord(DoInterfere)) == "INTERFERE";
    case _ =>
  }

  // ------------------------------------------------- how a run ends

  /** The run of a text from line j on. */
  ghost function RunFrom(text: string, j: nat, sha: Sha): Final
    requires Assembled(text).Ok? && j <= |SplitLines(text)| && StateAt(text, j, sha).Some?
  {
    var (a, s) := (Assembled(text).value, StateAt(text, j, sha).value);
    SoundListed(s);
    Run(a.code[At(text, j)..], s, a.Listing(), sha)
  }

  /** A run goes line by line: it completes at HALT, stops at the first line that is blocked, and is blocked at the end of the text. */
  lemma RunStep(text: string, j: nat, sha: Sha)
    requires Assembled(text).Ok? && j <= |SplitLines(text)| && StateAt(text, j, sha).Some?
    ensures var s := StateAt(text, j, sha).value;
            if j == |SplitLines(text)| then RunFrom(text, j, sha) == Stopped(s, EndedWithoutHalt)
            else if OpSaid(SplitLines(text)[j]).None? then
              StateAt(text, j + 1, sha).Some? && RunFrom(text, j, sha) == RunFrom(text, j + 1, sha)
            else if OpSaid(SplitLines(text)[j]) == Some(Halt) then RunFrom(text, j, sha) == Completed(s)
            else match Acts(text, j, sha)
                 case Next(t) => StateAt(text, j + 1, sha) == Some(t) && RunFrom(text, j, sha) == RunFrom(text, j + 1, sha)
                 case Blocked(reason) => RunFrom(text, j, sha) == Stopped(s, reason)
                 case KeyMissing => RunFrom(text, j, sha) == Failed
  {
    hide SplitLines, Assembled, StateAt, OpSaid, Step, At;
    var a := Assembled(text).value;
    if j == |SplitLines(text)| {
      AtEnd(text);
      assert a.code[|a.code|..] == [];
    } else {
      NextState(text, j, sha);
      InstructionAt(text, j);
      var code := a.code[At(text, j)..];
      if OpSaid(SplitLines(text)[j]).Some? {
        AtNext(text, j);
        assert code[0] == a.code[At(text, j)] && code[1..] == a.code[At(text, j) + 1..];
        ActsHere(text, j, sha);
      }
    }
  }

  /** A run starts at line 0 with nothing there. */
  lemma RunStarts(text: string, sha: Sha)
    requires Assembled(text).Ok?
    ensures StateAt(text, 0, sha) == Some(INITIAL)
    ensures var a := Assembled(text).value; EdgesListed(INITIAL.graph) && RunFrom(text, 0, sha) == Run(a.code, INITIAL, a.Listing(), sha)
  {
    hide SplitLines, AssembleLines;
    WholeText(text);
    EmptyAt(SplitLines(text));
    assert Assembled(text).value.code[0..] == Assembled(text).value.code;
  }

  lemma AtEnd(text: string)
    requires Assembled(text).Ok?
    ensures At(text, |SplitLines(text)|) == |Assembled(text).value.code|
  {
    hide SplitLines, AssembleLines;
    WholeText(text);
  }

  lemma AtNext(text: string, j: nat)
    requires Assembled(text).Ok? && j < |SplitLines(text)| && OpSaid(SplitLines(text)[j]).Some?
    ensures At(text, j) < |Assembled(text).value.code|
  {
    hide SplitLines, Assembled, OpSaid, At;
    InstructionAt(text, j);
  }

  lemma ActsHere(text: string, j: nat, sha: Sha)
    requires Assembled(text).Ok? && j < |SplitLines(text)| && StateAt(text, j, sha).Some? && OpSaid(SplitLines(text)[j]).Some?
    ensures At(text, j) < |Assembled(text).value.code| && EdgesListed(StateAt(text, j, sha).value.graph)
    ensures Acts(text, j, sha)
         == Step(StateAt(text, j, sha).value, Assembled(text).value.code[At(text, j)], Assembled(text).value.Listing(), sha)
  {
    hide SplitLines, Assembled, StateAt, OpSaid, Step, At;
    AtNext(text, j);
    SoundListed(StateAt(text, j, sha).value);
  }
}
