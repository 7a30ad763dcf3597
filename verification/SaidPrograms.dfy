/**
 What running an assembled text does, in the words of the text (bogvm/assembler.py, bogvm/vm.py): the graph is the
 list of edges its CREATE_EDGE lines name, and every operation is said on that list.
 */
module SaidPrograms {
  import opened Wrappers
  import opened Containers
  import opened Instructions
  import opened Machine
  import opened Runs
  import opened Propagation
  import opened AssemblyText
  import opened Assembler
  import opened AssembledPrograms
  import opened SaidLines

  // ------------------------------------------------- what a text declares

  /** An edge as a line names it: two nodes and a kind. */
  datatype Link = Link(source: string, target: string, kind: string)

  function LinkSaid(text: string): seq<Link> {
    match Said(text, "CREATE_EDGE")
    case Some(w) => if |w| == 3 then [Link(w[0], w[1], Lower(w[2]))] else []
    case None => []
  }

  /** The edges the lines name, in their order. */
  function Links(texts: seq<string>): seq<Link> {
    if texts == [] then [] else Links(texts[..|texts| - 1]) + LinkSaid(texts[|texts| - 1])
  }

  function NodeSaid(text: string): set<string> {
    match Said(text, "CREATE_NODE")
    case Some(w) => if |w| == 1 then {w[0]} else {}
    case None => {}
  }

  function NodesSaid(texts: seq<string>): set<string> {
    if texts == [] then {} else NodesSaid(texts[..|texts| - 1]) + NodeSaid(texts[|texts| - 1])
  }

  /** Source and target of the last line that creates a claim of this name. */
  function LastClaim(texts: seq<string>, claim: string): Option<(string, string)> {
    if texts == [] then None
    else
      match Said(texts[|texts| - 1], "CREATE_CLAIM")
      case Some(w) => if |w| == 3 && w[0] == claim then Some((w[1], w[2])) else LastClaim(texts[..|texts| - 1], claim)
      case None => LastClaim(texts[..|texts| - 1], claim)
  }

  function EdgeOf(link: Link, t: Symbols): Edge {
    Edge(Id(t, link.source), Id(t, link.target), if link.kind == "support" then Support else Conflict)
  }

  function EdgesOf(links: seq<Link>, t: Symbols): (r: seq<Edge>)
    ensures |r| == |links|
  {
    seq(|links|, i requires 0 <= i < |links| => EdgeOf(links[i], t))
  }

  ghost predicate LinksKnown(links: seq<Link>, t: Symbols) {
    forall i :: 0 <= i < |links| ==>
      links[i].source in t.ids && links[i].target in t.ids && (links[i].kind == "support" || links[i].kind == "conflict")
  }

  function IdsOf(names: set<string>, t: Symbols): set<nat> {
    set n | n in names :: Id(t, n)
  }

  ghost predicate DeclaresSaid(a: Asm, texts: seq<string>) {
    && Declares(a.code).edges == EdgesOf(Links(texts), a.nodes) && LinksKnown(Links(texts), a.nodes)
    && a.nodes.ids.Keys == NodesSaid(texts) && Declares(a.code).nodes == IdsOf(NodesSaid(texts), a.nodes)
  }

  lemma SameEdgesOf(links: seq<Link>, t: Symbols, u: Symbols)
    requires LinksKnown(links, t) && Kept(t, u)
    ensures EdgesOf(links, t) == EdgesOf(links, u) && LinksKnown(links, u)
  {
  }

  lemma SameIdsOf(names: set<string>, t: Symbols, u: Symbols)
    requires names <= t.ids.Keys && Kept(t, u)
    ensures IdsOf(names, t) == IdsOf(names, u)
  {
    assert forall n :: n in names ==> Id(t, n) == Id(u, n);
  }

  lemma NodesSame(a: Asm, line: Line)
    requires Assemble(a, line).Ok? && !line.CreateNodeLine?
    ensures Assemble(a, line).value.nodes == a.nodes
  {
    hide Intern, KindFlag, ActionOp;
  }

  /** A line that creates neither a node nor an edge. */
  lemma OtherLine(a: Asm, text: string, b: Asm)
    requires AssembleLine(a, text) == Ok(b) && Said(text, "CREATE_NODE").None? && Said(text, "CREATE_EDGE").None?
    ensures b.nodes == a.nodes && Declares(b.code).nodes == Declares(a.code).nodes && Declares(b.code).edges == Declares(a.code).edges
  {
    hide ReadLine, Said, Assemble, Declares;
    TextLineGrows(a, text);
    match ReadLine(text)
    case Ok(Some(line)) =>
      ReadSays(text, line);
      NodesSame(a, line);
      assert Mnemonic(CreateNodeWord) == "CREATE_NODE" && Mnemonic(CreateEdgeWord) == "CREATE_EDGE";
      OneMoreDeclared(a, b, OpSaid(text));
    case _ =>
  }

  lemma OneMoreDeclared(a: Asm, b: Asm, op: Option<Op>)
    requires Grows(a, b, op) && op != Some(CreateNode) && op != Some(CreateEdge)
    ensures Declares(b.code).nodes == Declares(a.code).nodes && Declares(b.code).edges == Declares(a.code).edges
  {
    if op.Some? {
      assert b.code == a.code + [b.code[|a.code|]];
      DeclaresOneMore(a.code, b.code[|a.code|]);
    }
  }

  lemma OneMoreSaid(front: seq<string>, text: string)
    ensures Links(front + [text]) == Links(front) + LinkSaid(text) && NodesSaid(front + [text]) == NodesSaid(front) + NodeSaid(text)
  {
    hide LinkSaid, NodeSaid;
    assert (front + [text])[..|front|] == front;
  }

  lemma InternNames(t: Symbols, name: string)
    requires Intern(t, name).Ok?
    ensures Kept(t, Intern(t, name).value) && Intern(t, name).value.ids.Keys == t.ids.Keys + {name}
  {
  }

  lemma OneNode(text: string)
    requires Said(text, "CREATE_NODE").Some? && |Said(text, "CREATE_NODE").value| == 1
    ensures NodeSaid(text) == {Said(text, "CREATE_NODE").value[0]} && LinkSaid(text) == []
  {
    hide Said;
    NotBoth(text);
  }

  lemma OneMoreId(names: set<string>, name: string, t: Symbols)
    ensures IdsOf(names + {name}, t) == IdsOf(names, t) + {Id(t, name)}
  {
  }

  lemma NodeLineDeclares(a: Asm, text: string, b: Asm, front: seq<string>)
    requires AssembleLine(a, text) == Ok(b) && Said(text, "CREATE_NODE").Some? && DeclaresSaid(a, front)
    ensures DeclaresSaid(b, front + [text])
  {
    hide Said, Declares, EdgesOf, AssembleLine, Links, NodesSaid, LinkSaid, NodeSaid, IdsOf, Id, Intern, LinksKnown, Kept;
    NodeLineSays(a, text, b);
    var w := Said(text, "CREATE_NODE").value;
    InternNames(a.nodes, w[0]);
    SameEdgesOf(Links(front), a.nodes, b.nodes);
    SameIdsOf(NodesSaid(front), a.nodes, b.nodes);
    DeclaresOneMore(a.code, Instruction(2, 0, Id(b.nodes, w[0]), 0, 0));
    OneMoreSaid(front, text);
    OneNode(text);
    OneMoreId(NodesSaid(front), w[0], b.nodes);
    assert Links(front) + [] == Links(front);
  }

  lemma NotBoth(text: string)
    requires Said(text, "CREATE_NODE").Some?
    ensures Said(text, "CREATE_EDGE").None?
  {
    hide Words, Cut, Upper;
    assert "CREATE_NODE"[7] == 'N' && "CREATE_EDGE"[7] == 'E';
  }

  lemma EdgeLineDeclares(a: Asm, text: string, b: Asm, front: seq<string>)
    requires AssembleLine(a, text) == Ok(b) && Said(text, "CREATE_EDGE").Some? && DeclaresSaid(a, front)
    ensures DeclaresSaid(b, front + [text])
  {
    hide Said, Declares, AssembleLine, Lower;
    EdgeLineSays(a, text, b);
    if Said(text, "CREATE_NODE").Some? {
      NotBoth(text);
    }
    EdgeLineNodes(a, text, b);
    var w := Said(text, "CREATE_EDGE").value;
    var i := Instruction(3, if Lower(w[2]) == "support" then 1 else 2, a.edgeCount, Id(a.nodes, w[0]), Id(a.nodes, w[1]));
    DeclaresOneMore(a.code, i);
    assert (front + [text])[..|front|] == front;
  }

  lemma EdgeLineNodes(a: Asm, text: string, b: Asm)
    requires AssembleLine(a, text) == Ok(b) && Said(text, "CREATE_NODE").None?
    ensures b.nodes == a.nodes
  {
    hide ReadLine, Said, Assemble;
    match ReadLine(text)
    case Ok(Some(line)) =>
      ReadSays(text, line);
      assert Mnemonic(CreateNodeWord) == "CREATE_NODE";
      NodesSame(a, line);
    case _ =>
  }

  lemma OtherLineDeclares(a: Asm, text: string, b: Asm, front: seq<string>)
    requires AssembleLine(a, text) == Ok(b) && Said(text, "CREATE_NODE").None? && Said(text, "CREATE_EDGE").None?
    requires DeclaresSaid(a, front)
    ensures DeclaresSaid(b, front + [text])
  {
    hide Said, Declares, EdgesOf, AssembleLine;
    OtherLine(a, text, b);
    assert (front + [text])[..|front|] == front;
    assert Links(front) + [] == Links(front) && NodesSaid(front) + {} == NodesSaid(front);
  }

  lemma NothingDeclared()
    ensures DeclaresSaid(EMPTY, [])
  {
  }

  /**
   The edges an accepted text declares, decoded from its code, are those its CREATE_EDGE lines name, in their order:
   between the nodes of the names, Support for "support" and Conflict for "conflict". The same for every beginning.
   */
  lemma {:induction false} EdgesAreSaid(texts: seq<string>, n: nat)
    requires AssembleLines(EMPTY, texts).Ok? && n <= |texts|
    ensures DeclaresSaid(AsmAt(texts, n), texts[..n])
  {
    hide AssembleLines, AssembleLine, DeclaresSaid, Said, AsmAt;
    if n == 0 {
      NothingDeclared();
      EmptyAt(texts);
    } else {
      EdgesAreSaid(texts, n - 1);
      NextLine(texts, n - 1);
      var (a, text, b) := (AsmAt(texts, n - 1), texts[n - 1], AsmAt(texts, n));
      assert texts[..n] == texts[..n - 1] + [text];
      if Said(text, "CREATE_NODE").Some? {
        NodeLineDeclares(a, text, b, texts[..n - 1]);
      } else if Said(text, "CREATE_EDGE").Some? {
        EdgeLineDeclares(a, text, b, texts[..n - 1]);
      } else {
        OtherLineDeclares(a, text, b, texts[..n - 1]);
      }
    }
  }

  lemma EmptyAt(texts: seq<string>)
    requires AssembleLines(EMPTY, texts).Ok?
    ensures AsmAt(texts, 0) == EMPTY && texts[..0] == []
  {
  }

  // ------------------------------------------------- the machine between the lines

  /** The number of instructions the first j lines emit. */
  function At(text: string, j: nat): (k: nat)
    requires Assembled(text).Ok? && j <= |SplitLines(text)|
    ensures k <= |Assembled(text).value.code|
  {
    CodeAt(text, j);
    |AsmAt(SplitLines(text), j).code|
  }

  lemma CodeAt(text: string, j: nat)
    requires Assembled(text).Ok? && j <= |SplitLines(text)|
    ensures var a := Assembled(text).value;
            var b := AsmAt(SplitLines(text), j);
            |b.code| <= |a.code| && a.code[..|b.code|] == b.code && TablesKept(b, a)
  {
    hide AsmAt, SplitLines;
    WholeText(text);
    LinesGrow(SplitLines(text), j, |SplitLines(text)|);
  }

  /** The state of the machine before line j of a text, if it gets there. */
  ghost function StateAt(text: string, j: nat, sha: Sha): (r: Option<State>)
    requires Assembled(text).Ok? && j <= |SplitLines(text)|
    ensures r.Some? ==> Sound(r.value)
  {
    var a := Assembled(text).value;
    After(a.code, At(text, j), a.Listing(), sha)
  }

  /** What the machine does on line j. */
  ghost function Acts(text: string, j: nat, sha: Sha): Outcome<State>
    requires Assembled(text).Ok? && j < |SplitLines(text)| && StateAt(text, j, sha).Some? && OpSaid(SplitLines(text)[j]).Some?
  {
    InstructionAt(text, j);
    var s := StateAt(text, j, sha).value;
    SoundListed(s);
    Step(s, Assembled(text).value.code[At(text, j)], Assembled(text).value.Listing(), sha)
  }

  /** Line j emits one instruction, or none for DATA_BLOCK, comments and empty lines. */
  lemma InstructionAt(text: string, j: nat)
    requires Assembled(text).Ok? && j < |SplitLines(text)|
    ensures var (a, b) := (Assembled(text).value, AsmAt(SplitLines(text), j + 1));
            var op := OpSaid(SplitLines(text)[j]);
            if op.None? then At(text, j + 1) == At(text, j)
            else At(text, j + 1) == At(text, j) + 1 && a.code[At(text, j)] == b.code[At(text, j)] && a.code[At(text, j)].Name() == op
  {
    hide AsmAt, SplitLines, OpSaid, AssembleLine;
    var texts := SplitLines(text);
    WholeText(text);
    NextLine(texts, j);
    TextLineGrows(AsmAt(texts, j), texts[j]);
    CodeAt(text, j);
    CodeAt(text, j + 1);
  }

  /** The state before the next line. */
  lemma NextState(text: string, j: nat, sha: Sha)
    requires Assembled(text).Ok? && j < |SplitLines(text)| && StateAt(text, j, sha).Some?
    ensures var op := OpSaid(SplitLines(text)[j]);
            if op.None? then StateAt(text, j + 1, sha) == StateAt(text, j, sha)
            else if op == Some(Halt) then StateAt(text, j + 1, sha) == None
            else StateAt(text, j + 1, sha) == match Acts(text, j, sha) case Next(t) => Some(t) case _ => None
  {
    hide Assembled, SplitLines, OpSaid, Step, Sound;
    InstructionAt(text, j);
  }

  /** Before a line the machine reaches, it reached all lines above. */
  lemma {:induction false} ReachedAbove(text: string, i: nat, j: nat, sha: Sha)
    requires Assembled(text).Ok? && i <= j <= |SplitLines(text)| && StateAt(text, j, sha).Some?
    ensures StateAt(text, i, sha).Some?
    decreases j
  {
    hide Assembled, SplitLines, OpSaid, After, At;
    if i < j {
      InstructionAt(text, j - 1);
      var a := Assembled(text).value;
      OneEarlier(a.code, At(text, j), a.Listing(), sha);
      ReachedAbove(text, i, j - 1, sha);
    }
  }

  lemma OneEarlier(code: seq<Instruction>, k: nat, m: Manifest, sha: Sha)
    requires k <= |code| && After(code, k, m, sha).Some?
    ensures k > 0 ==> After(code, k - 1, m, sha).Some?
  {
  }

  /** At every line the machine's graph is the one the lines above have named. */
  lemma GraphIsSaid(text: string, j: nat, sha: Sha)
    requires Assembled(text).Ok? && j <= |SplitLines(text)| && StateAt(text, j, sha).Some?
    ensures var (g, t) := (StateAt(text, j, sha).value.graph, Assembled(text).value.nodes);
            var front := SplitLines(text)[..j];
            Holds(g, EdgesOf(Links(front), t)) && LinksKnown(Links(front), t) && g.nodes == IdsOf(NodesSaid(front), t)
  {
    hide SplitLines, Links, NodesSaid, EdgesOf, Declares, WellDeclared, After, AsmAt, AssembleLines;
    var (a, texts) := (Assembled(text).value, SplitLines(text));
    var k := At(text, j);
    AssembledIsWellDeclared(text);
    RunTracks(a.code, k, a.Listing(), sha);
    CodeAt(text, j);
    EdgesAreSaid(texts, j);
    var b := AsmAt(texts, j);
    assert a.code[..k] == b.code;
    SameEdgesOf(Links(texts[..j]), b.nodes, a.nodes);
    SameIdsOf(NodesSaid(texts[..j]), b.nodes, a.nodes);
  }
}
