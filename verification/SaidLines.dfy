/**
 What the lines of an assembly text say, word by word, and the instruction each of them becomes
 (bogvm/assembler.py, bogvm/opcodes.py). Edges are read off the words, not off the emitted code.
 */
module SaidLines {
  import opened Wrappers
  import opened Decimals
  import opened Instructions
  import opened Machine
  import opened AssemblyText
  import opened Assembler

  // ------------------------------------------------- words

  /** The words after the operation, if this is the operation of a line. */
  function Said(text: string, op: string): Option<seq<string>> {
    var words := Words(Cut(text));
    if words != [] && Upper(words[0]) == op then Some(words[1..]) else None
  }

  /** A line that names an operation reads as a line of it, if the number of its words is right. */
  lemma SaidReads(text: string, op: Operation)
    requires Said(text, Mnemonic(op)).Some?
    ensures var words := Words(Cut(text));
            words != [] && ReadLine(text) == if Takes(op, |words|) then Ok(Some(LineOf(op, words))) else Err(WrongWordCount)
  {
    hide Mnemonic, OPERATIONS, OperationOf, Upper, Takes, LineOf, Words, Cut;
    MnemonicCapitals(op);
    CapitalsRead(Mnemonic(op));
    OperationReads(op);
  }

  /** And a line that reads as a line of an operation names it. */
  lemma ReadSays(text: string, line: Line)
    requires ReadLine(text) == Ok(Some(line))
    ensures Said(text, Mnemonic(OperationIn(line))).Some?
    ensures forall op: Operation :: Said(text, Mnemonic(op)).Some? ==> op == OperationIn(line)
  {
    hide Mnemonic, OPERATIONS, OperationOf, Upper, Words, Cut, Lower, IntOf;
    var words := Words(Cut(text));
    var op := OperationOf(Upper(words[0]), OPERATIONS).value;
    assert OperationIn(LineOf(op, words)) == op;
    forall other: Operation | Said(text, Mnemonic(other)).Some?
      ensures other == op
    {
      MnemonicsDiffer(other, op);
    }
  }

  /** The operation of a line in the machine; DATA_BLOCK has none. */
  function OpIn(line: Line): Option<Op> {
    match line
    case CreateNodeLine(_) => Some(CreateNode)
    case CreateEdgeLine(_, _, _) => Some(CreateEdge)
    case CreateClaimLine(_, _, _) => Some(CreateClaim)
    case ActivateLine(_, _) => Some(Activate)
    case PropagateLine(_, _, _) => Some(Propagate)
    case DecayLine(_) => Some(Decay)
    case ClaimLine(action, _) => Some(ActionOp(action))
    case LogReceiptLine => Some(LogReceipt)
    case EmitReceiptLine => Some(EmitReceipt)
    case HaltLine => Some(Halt)
    case NoOpLine => Some(NoOp)
    case DeclareBasisLine(_) => Some(DeclareBasis)
    case DataBlockLine(_) => None
    case LoadCoefficientsLine(_, _, _, _) => Some(LoadCoefficients)
    case SynthesizeLine(_) => Some(Synthesize)
    case StoreResidualLine(_, _, _) => Some(StoreResidual)
    case ApplyResidualLine(_) => Some(ApplyResidual)
    case VerifyHashLine(_, _) => Some(VerifyHash)
    case AcceptDataLine(_) => Some(AcceptData)
    case RejectDataLine(_) => Some(RejectData)
  }

  // ------------------------------------------------- the tables only grow

  ghost predicate Kept(t: Symbols, u: Symbols) {
    forall n :: n in t.ids ==> n in u.ids && u.ids[n] == t.ids[n]
  }

  ghost predicate TablesKept(a: Asm, b: Asm) {
    Kept(a.nodes, b.nodes) && Kept(a.claims, b.claims) && Kept(a.dataNames, b.dataNames) && Kept(a.constants, b.constants)
  }

  /** One more instruction, of this operation. */
  ghost predicate Emitted(a: Asm, b: Asm, op: Op) {
    |b.code| == |a.code| + 1 && b.code[..|a.code|] == a.code && b.code[|a.code|].Name() == Some(op)
  }

  ghost predicate Grows(a: Asm, b: Asm, op: Option<Op>) {
    TablesKept(a, b) && if op.None? then b.code == a.code else Emitted(a, b, op.value)
  }

  lemma EmitGrows(a: Asm, b: Asm, op: Op, flags: int, target: int, source: int, param: int)
    requires TablesKept(a, b) && b.code == a.code && Emit(b, op, flags, target, source, param).Ok?
    ensures Grows(a, Emit(b, op, flags, target, source, param).value, Some(op))
  {
  }

  lemma InternKeeps(t: Symbols, name: string)
    requires Intern(t, name).Ok?
    ensures Kept(t, Intern(t, name).value) && Kept(t, t)
  {
  }

  lemma GraphLineGrows(a: Asm, line: Line)
    requires AssembleGraph(a, line).Ok?
    requires line.CreateNodeLine? || line.CreateEdgeLine? || line.ActivateLine? || line.PropagateLine? || line.DecayLine?
    ensures Grows(a, AssembleGraph(a, line).value, OpIn(line))
  {
    hide Intern, Emit, KindFlag, Grows;
    match line
    case CreateNodeLine(name) =>
      InternKeeps(a.nodes, name);
      var b := a.(nodes := Intern(a.nodes, name).value);
      EmitGrows(a, b, CreateNode, 0, b.nodes.ids[name], 0, 0);
    case CreateEdgeLine(source, target, kind) =>
      EmitGrows(a, a.(edgeCount := a.edgeCount + 1), CreateEdge, KindFlag(kind).value, a.edgeCount, a.nodes.ids[source], a.nodes.ids[target]);
    case ActivateLine(node, strength) => EmitGrows(a, a, Activate, 0, a.nodes.ids[node], 0, strength.value);
    case PropagateLine(source, kind, depth) => EmitGrows(a, a, Propagate, KindFlag(kind).value, 0, a.nodes.ids[source], depth.value);
    case DecayLine(factor) => EmitGrows(a, a, Decay, 0, 0, 0, factor.value);
  }

  lemma ClaimLineGrows(a: Asm, line: Line)
    requires AssembleClaim(a, line).Ok? && (line.CreateClaimLine? || line.ClaimLine?)
    ensures Grows(a, AssembleClaim(a, line).value, OpIn(line))
  {
    hide Intern, Emit, ActionOp, Grows;
    match line
    case CreateClaimLine(name, source, target) =>
      InternKeeps(a.claims, name);
      var b := a.(claims := Intern(a.claims, name).value);
      EmitGrows(a, b, CreateClaim, 0, b.claims.ids[name], a.nodes.ids[source], a.nodes.ids[target]);
    case ClaimLine(action, claim) => EmitGrows(a, a, ActionOp(action), 0, a.claims.ids[claim], 0, 0);
  }

  lemma DataOpGrows(a: Asm, b: Asm, op: Op, name: string, flags: int, source: int, param: int)
    requires TablesKept(a, b) && b.code == a.code && EmitData(b, op, name, flags, source, param).Ok?
    ensures Grows(a, EmitData(b, op, name, flags, source, param).value, Some(op))
  {
    hide Emit, Grows;
    EmitGrows(a, b, op, flags, b.dataNames.ids[name], source, param);
  }

  lemma DataLineGrows(a: Asm, line: Line)
    requires AssembleData(a, line).Ok?
    requires line.DeclareBasisLine? || line.DataBlockLine? || line.LoadCoefficientsLine? || line.SynthesizeLine? || line.StoreResidualLine?
             || line.ApplyResidualLine? || line.VerifyHashLine? || line.AcceptDataLine? || line.RejectDataLine?
    ensures Grows(a, AssembleData(a, line).value, OpIn(line))
  {
    hide Intern, Emit, EmitData, Grows;
    match line
    case DeclareBasisLine(basis) =>
      InternKeeps(a.constants, basis);
      var b := a.(constants := Intern(a.constants, basis).value);
      EmitGrows(a, b, DeclareBasis, 0, b.constants.ids[basis], 0, 0);
    case DataBlockLine(name) => BlockLineGrows(a, name);
    case LoadCoefficientsLine(name, start, length, delta) =>
      DataOpGrows(a, a, LoadCoefficients, name, delta.value, start.value, length.value);
    case SynthesizeLine(name) => DataOpGrows(a, a, Synthesize, name, 0, 0, 0);
    case StoreResidualLine(name, offset, value) => DataOpGrows(a, a, StoreResidual, name, 0, offset.value, value.value);
    case ApplyResidualLine(name) => DataOpGrows(a, a, ApplyResidual, name, 0, 0, 0);
    case VerifyHashLine(name, digest) =>
      InternKeeps(a.constants, digest);
      var b := a.(constants := Intern(a.constants, digest).value);
      DataOpGrows(a, b, VerifyHash, name, 0, b.constants.ids[digest], 0);
    case AcceptDataLine(name) => DataOpGrows(a, a, AcceptData, name, 0, 0, 0);
    case RejectDataLine(name) => DataOpGrows(a, a, RejectData, name, 0, 0, 0);
  }

  lemma BlockLineGrows(a: Asm, name: string)
    requires AssembleData(a, DataBlockLine(name)).Ok?
    ensures Grows(a, AssembleData(a, DataBlockLine(name)).value, None)
  {
    hide Intern;
    InternKeeps(a.dataNames, name);
  }

  /** Every accepted line keeps the ids given so far and emits one instruction of its operation; DATA_BLOCK emits none. */
  lemma LineGrows(a: Asm, line: Line)
    requires Assemble(a, line).Ok?
    ensures Grows(a, Assemble(a, line).value, OpIn(line))
  {
    hide AssembleGraph, AssembleClaim, AssembleData, Grows, Emit;
    match line
    case LogReceiptLine => EmitGrows(a, a, LogReceipt, 0, 0, 0, 0);
    case EmitReceiptLine => EmitGrows(a, a, EmitReceipt, 0, 0, 0, 0);
    case HaltLine => EmitGrows(a, a, Halt, 0, 0, 0, 0);
    case NoOpLine => EmitGrows(a, a, NoOp, 0, 0, 0, 0);
    case CreateNodeLine(_) => GraphLineGrows(a, line);
    case CreateEdgeLine(_, _, _) => GraphLineGrows(a, line);
    case ActivateLine(_, _) => GraphLineGrows(a, line);
    case PropagateLine(_, _, _) => GraphLineGrows(a, line);
    case DecayLine(_) => GraphLineGrows(a, line);
    case CreateClaimLine(_, _, _) => ClaimLineGrows(a, line);
    case ClaimLine(_, _) => ClaimLineGrows(a, line);
    case _ => DataLineGrows(a, line);
  }

  /** The operation a line of text emits. */
  function OpSaid(text: string): Option<Op> {
    match ReadLine(text)
    case Ok(Some(line)) => OpIn(line)
    case _ => None
  }

  lemma TextLineGrows(a: Asm, text: string)
    requires AssembleLine(a, text).Ok?
    ensures Grows(a, AssembleLine(a, text).value, OpSaid(text))
  {
    hide Assemble, ReadLine, OpIn;
    match ReadLine(text)
    case Ok(Some(line)) => LineGrows(a, line);
    case _ =>
  }

  // ------------------------------------------------- the lines of a text one after the other

  lemma {:induction false} AssembleBoth(a: Asm, x: seq<string>, y: seq<string>)
    ensures AssembleLines(a, x + y) == match AssembleLines(a, x) case Ok(b) => AssembleLines(b, y) case Err(e) => Err(e)
    decreases |x|
  {
    hide AssembleLine;
    if x == [] {
      assert x + y == y;
    } else {
      assert (x + y)[1..] == x[1..] + y;
      match AssembleLine(a, x[0])
      case Ok(b) => AssembleBoth(b, x[1..], y);
      case Err(_) =>
    }
  }

  /** The assembler's tables after the first j lines of a text it accepts. */
  function AsmAt(texts: seq<string>, j: nat): (a: Asm)
    requires j <= |texts| && AssembleLines(EMPTY, texts).Ok?
  {
    FrontAccepted(texts, j);
    AssembleLines(EMPTY, texts[..j]).value
  }

  lemma FrontAccepted(texts: seq<string>, j: nat)
    requires j <= |texts| && AssembleLines(EMPTY, texts).Ok?
    ensures AssembleLines(EMPTY, texts[..j]).Ok?
    ensures AssembleLines(AssembleLines(EMPTY, texts[..j]).value, texts[j..]) == AssembleLines(EMPTY, texts)
  {
    hide AssembleLines;
    assert texts == texts[..j] + texts[j..];
    AssembleBoth(EMPTY, texts[..j], texts[j..]);
  }

  lemma NextLine(texts: seq<string>, j: nat)
    requires j < |texts| && AssembleLines(EMPTY, texts).Ok?
    ensures AssembleLine(AsmAt(texts, j), texts[j]) == Ok(AsmAt(texts, j + 1))
  {
    hide AssembleLine;
    FrontAccepted(texts, j);
    FrontAccepted(texts, j + 1);
    assert texts[..j + 1] == texts[..j] + [texts[j]];
    AssembleBoth(EMPTY, texts[..j], [texts[j]]);
    assert [texts[j]][1..] == [];
  }

  lemma {:induction false} LinesGrow(texts: seq<string>, j: nat, n: nat)
    requires j <= n <= |texts| && AssembleLines(EMPTY, texts).Ok?
    ensures TablesKept(AsmAt(texts, j), AsmAt(texts, n))
    ensures |AsmAt(texts, j).code| <= |AsmAt(texts, n).code| && AsmAt(texts, n).code[..|AsmAt(texts, j).code|] == AsmAt(texts, j).code
    decreases n - j
  {
    hide AsmAt, AssembleLines, AssembleLine, OpSaid;
    if j < n {
      LinesGrow(texts, j, n - 1);
      NextLine(texts, n - 1);
      TextLineGrows(AsmAt(texts, n - 1), texts[n - 1]);
      GrowTwice(AsmAt(texts, j), AsmAt(texts, n - 1), AsmAt(texts, n), OpSaid(texts[n - 1]));
    } else {
      SameTables(AsmAt(texts, j));
    }
  }

  lemma SameTables(a: Asm)
    ensures TablesKept(a, a) && a.code[..|a.code|] == a.code
  {
  }

  lemma GrowTwice(a: Asm, b: Asm, c: Asm, op: Option<Op>)
    requires TablesKept(a, b) && |a.code| <= |b.code| && b.code[..|a.code|] == a.code && Grows(b, c, op)
    ensures TablesKept(a, c) && |a.code| <= |c.code| && c.code[..|a.code|] == a.code
  {
    assert c.code[..|b.code|] == b.code;
    assert c.code[..|a.code|] == c.code[..|b.code|][..|a.code|];
  }

  lemma WholeText(text: string)
    requires Assembled(text).Ok?
    ensures AssembleLines(EMPTY, SplitLines(text)).Ok? && AsmAt(SplitLines(text), |SplitLines(text)|) == Assembled(text).value
  {
    hide AssembleLines, SplitLines;
    var texts := SplitLines(text);
    assert texts[..|texts|] == texts;
  }

  // ------------------------------------------------- the instruction of each line

  /** The id of a name. */
  function Id(t: Symbols, name: string): nat {
    if name in t.ids then t.ids[name] else 0
  }

  /** A word that `int` reads as a number of 16 bits. */
  predicate IsField(word: string) {
    IntOf(word).Some? && 0 <= IntOf(word).value <= 65535
  }

  function Field(word: string): nat {
    if IsField(word) then IntOf(word).value else 0
  }

  ghost predicate OneMore(a: Asm, b: Asm, i: Instruction) {
    b.code == a.code + [i]
  }

  lemma NodeLineSays(a: Asm, text: string, b: Asm)
    requires Said(text, "CREATE_NODE").Some? && AssembleLine(a, text) == Ok(b)
    ensures var w := Said(text, "CREATE_NODE").value;
            |w| == 1 && w[0] in b.nodes.ids && OneMore(a, b, Instruction(2, 0, Id(b.nodes, w[0]), 0, 0))
            && Intern(a.nodes, w[0]) == Ok(b.nodes)
  {
    hide ReadLine, Words, Cut, Upper;
    SaidReads(text, CreateNodeWord);
  }

  lemma EdgeLineSays(a: Asm, text: string, b: Asm)
    requires Said(text, "CREATE_EDGE").Some? && AssembleLine(a, text) == Ok(b)
    ensures var w := Said(text, "CREATE_EDGE").value;
            && |w| == 3 && w[0] in a.nodes.ids && w[1] in a.nodes.ids && (Lower(w[2]) == "support" || Lower(w[2]) == "conflict")
            && OneMore(a, b, Instruction(3, if Lower(w[2]) == "support" then 1 else 2, a.edgeCount, Id(a.nodes, w[0]), Id(a.nodes, w[1])))
  {
    hide ReadLine, Words, Cut, Upper, Lower;
    SaidReads(text, CreateEdgeWord);
  }

  lemma ClaimLineSays(a: Asm, text: string, b: Asm)
    requires Said(text, "CREATE_CLAIM").Some? && AssembleLine(a, text) == Ok(b)
    ensures var w := Said(text, "CREATE_CLAIM").value;
            && |w| == 3 && w[1] in a.nodes.ids && w[2] in a.nodes.ids && w[0] in b.claims.ids
            && OneMore(a, b, Instruction(4, 0, Id(b.claims, w[0]), Id(a.nodes, w[1]), Id(a.nodes, w[2])))
            && Intern(a.claims, w[0]) == Ok(b.claims) && b.nodes == a.nodes
  {
    hide ReadLine, Words, Cut, Upper;
    SaidReads(text, CreateClaimWord);
  }

  lemma ActivateLineSays(a: Asm, text: string, b: Asm)
    requires Said(text, "ACTIVATE").Some? && AssembleLine(a, text) == Ok(b)
    ensures var w := Said(text, "ACTIVATE").value;
            && |w| == 2 && w[0] in a.nodes.ids && IsField(w[1])
            && OneMore(a, b, Instruction(5, 0, Id(a.nodes, w[0]), 0, Field(w[1])))
  {
    hide ReadLine, Words, Cut, Upper, IntOf;
    SaidReads(text, ActivateWord);
  }

  lemma PropagateLineSays(a: Asm, text: string, b: Asm)
    requires Said(text, "PROPAGATE").Some? && AssembleLine(a, text) == Ok(b)
    ensures var w := Said(text, "PROPAGATE").value;
            && |w| == 3 && w[0] in a.nodes.ids && (Lower(w[1]) == "support" || Lower(w[1]) == "conflict") && IsField(w[2])
            && OneMore(a, b, Instruction(6, if Lower(w[1]) == "support" then 1 else 2, 0, Id(a.nodes, w[0]), Field(w[2])))
  {
    hide ReadLine, Words, Cut, Upper, Lower, IntOf;
    SaidReads(text, PropagateWord);
  }

  lemma DecayLineSays(a: Asm, text: string, b: Asm)
    requires Said(text, "DECAY").Some? && AssembleLine(a, text) == Ok(b)
    ensures var w := Said(text, "DECAY").value;
            |w| == 1 && IsField(w[0]) && OneMore(a, b, Instruction(7, 0, 0, 0, Field(w[0])))
  {
    hide ReadLine, Words, Cut, Upper, IntOf;
    SaidReads(text, DecayWord);
  }

  /** The six operations on a claim, with their codes. */
  function ClaimCode(op: string): Option<nat> {
    if op == "INTERFERE" then Some(8) else if op == "COMPUTE_TENSION" then Some(9) else if op == "VERIFY" then Some(10)
    else if op == "ACCEPT" then Some(11) else if op == "REJECT" then Some(12) else if op == "QUARANTINE" then Some(13) else None
  }

  function ActionNamed(op: string): (action: ClaimAction)
    requires ClaimCode(op).Some?
    ensures Mnemonic(ClaimWord(action)) == op && OpCode(ActionOp(action)) == ClaimCode(op).value
  {
    if op == "INTERFERE" then DoInterfere else if op == "COMPUTE_TENSION" then DoComputeTension else if op == "VERIFY" then DoVerify
    else if op == "ACCEPT" then DoAccept else if op == "REJECT" then DoReject else DoQuarantine
  }

  lemma ClaimOpLineSays(a: Asm, text: string, op: string, b: Asm)
    requires ClaimCode(op).Some? && Said(text, op).Some? && AssembleLine(a, text) == Ok(b)
    ensures var w := Said(text, op).value;
            |w| == 1 && w[0] in a.claims.ids && OneMore(a, b, Instruction(ClaimCode(op).value, 0, Id(a.claims, w[0]), 0, 0))
  {
    hide ReadLine, Words, Cut, Upper, Mnemonic, ActionOp, ClaimCode, ActionNamed;
    var action := ActionNamed(op);
    SaidReads(text, ClaimWord(action));
  }

  // ------------------------------------------------- data lines

  lemma BasisLineSays(a: Asm, text: string, b: Asm)
    requires Said(text, "DECLARE_BASIS").Some? && AssembleLine(a, text) == Ok(b)
    ensures var w := Said(text, "DECLARE_BASIS").value;
            |w| == 1 && w[0] in b.constants.ids && OneMore(a, b, Instruction(16, 0, Id(b.constants, w[0]), 0, 0))
  {
    hide ReadLine, Words, Cut, Upper;
    SaidReads(text, DeclareBasisWord);
  }

  lemma LoadLineSays(a: Asm, text: string, b: Asm)
    requires Said(text, "LOAD_COEFFICIENTS").Some? && AssembleLine(a, text) == Ok(b)
    ensures var w := Said(text, "LOAD_COEFFICIENTS").value;
            && (|w| == 3 || |w| == 4) && w[0] in a.dataNames.ids && IsField(w[1]) && IsField(w[2]) && (|w| == 4 ==> IsField(w[3]))
            && Field(w[1]) <= 255 && (|w| == 4 ==> Field(w[3]) <= 255)
            && OneMore(a, b, Instruction(17, if |w| == 4 then Field(w[3]) else 0, Id(a.dataNames, w[0]), Field(w[1]), Field(w[2])))
  {
    hide ReadLine, Words, Cut, Upper, IntOf;
    SaidReads(text, LoadCoefficientsWord);
  }

  lemma StoreLineSays(a: Asm, text: string, b: Asm)
    requires Said(text, "STORE_RESIDUAL").Some? && AssembleLine(a, text) == Ok(b)
    ensures var w := Said(text, "STORE_RESIDUAL").value;
            && |w| == 3 && w[0] in a.dataNames.ids && IsField(w[1]) && IsField(w[2]) && Field(w[2]) <= 255
            && OneMore(a, b, Instruction(21, 0, Id(a.dataNames, w[0]), Field(w[1]), Field(w[2])))
  {
    hide ReadLine, Words, Cut, Upper, IntOf;
    SaidReads(text, StoreResidualWord);
  }

  lemma HashLineSays(a: Asm, text: string, b: Asm)
    requires Said(text, "VERIFY_HASH").Some? && AssembleLine(a, text) == Ok(b)
    ensures var w := Said(text, "VERIFY_HASH").value;
            && |w| == 2 && w[0] in a.dataNames.ids && w[1] in b.constants.ids
            && OneMore(a, b, Instruction(19, 0, Id(a.dataNames, w[0]), Id(b.constants, w[1]), 0))
  {
    hide ReadLine, Words, Cut, Upper;
    SaidReads(text, VerifyHashWord);
  }

  /** The four operations on a data block that name only it, with their codes. */
  function BlockCode(op: string): Option<nat> {
    if op == "SYNTHESIZE" then Some(18) else if op == "ACCEPT_DATA" then Some(20) else if op == "APPLY_RESIDUAL" then Some(22)
    else if op == "REJECT_DATA" then Some(23) else None
  }

  /** The operation in the machine of the lines that name one block, and of the lines that name nothing. */
  function PlainOp(word: Operation): Op {
    match word
    case SynthesizeWord => Synthesize
    case AcceptDataWord => AcceptData
    case ApplyResidualWord => ApplyResidual
    case RejectDataWord => RejectData
    case HaltWord => Halt
    case LogReceiptWord => LogReceipt
    case EmitReceiptWord => EmitReceipt
    case _ => NoOp
  }

  predicate IsBlockWord(word: Operation) {
    word.SynthesizeWord? || word.AcceptDataWord? || word.ApplyResidualWord? || word.RejectDataWord?
  }

  predicate IsBareWord(word: Operation) {
    word.NoOpWord? || word.HaltWord? || word.LogReceiptWord? || word.EmitReceiptWord?
  }

  function BlockNamed(op: string): (word: Operation)
    requires BlockCode(op).Some?
    ensures IsBlockWord(word) && Mnemonic(word) == op && OpCode(PlainOp(word)) == BlockCode(op).value
  {
    if op == "SYNTHESIZE" then SynthesizeWord else if op == "ACCEPT_DATA" then AcceptDataWord
    else if op == "APPLY_RESIDUAL" then ApplyResidualWord else RejectDataWord
  }

  lemma BlockAssembles(a: Asm, word: Operation, words: seq<string>)
    requires IsBlockWord(word)
    ensures Takes(word, |words|) <==> |words| == 2
    ensures |words| == 2 ==> Assemble(a, LineOf(word, words)) == EmitData(a, PlainOp(word), words[1], 0, 0, 0)
  {
    hide EmitData;
  }

  lemma BlockOpLineSays(a: Asm, text: string, op: string, b: Asm)
    requires BlockCode(op).Some? && Said(text, op).Some? && AssembleLine(a, text) == Ok(b)
    ensures var w := Said(text, op).value;
            |w| == 1 && w[0] in a.dataNames.ids && OneMore(a, b, Instruction(BlockCode(op).value, 0, Id(a.dataNames, w[0]), 0, 0))
  {
    hide ReadLine, Words, Cut, Upper, Mnemonic, BlockCode, PlainOp, Takes, LineOf, Assemble;
    var word := BlockNamed(op);
    SaidReads(text, word);
    BlockAssembles(a, word, Words(Cut(text)));
  }

  /** HALT, NOOP and the two receipt operations, with their codes; more words on the line are passed over. */
  function BareCode(op: string): Option<nat> {
    if op == "NOOP" then Some(0) else if op == "HALT" then Some(1) else if op == "LOG_RECEIPT" then Some(14)
    else if op == "EMIT_RECEIPT" then Some(15) else None
  }

  function BareNamed(op: string): (word: Operation)
    requires BareCode(op).Some?
    ensures IsBareWord(word) && Mnemonic(word) == op && OpCode(PlainOp(word)) == BareCode(op).value
  {
    if op == "NOOP" then NoOpWord else if op == "HALT" then HaltWord else if op == "LOG_RECEIPT" then LogReceiptWord else EmitReceiptWord
  }

  lemma BareAssembles(a: Asm, word: Operation, words: seq<string>)
    requires IsBareWord(word)
    ensures Takes(word, |words|) && Assemble(a, LineOf(word, words)) == Emit(a, PlainOp(word), 0, 0, 0, 0)
  {
    hide Emit;
  }

  lemma BareLineSays(a: Asm, text: string, op: string, b: Asm)
    requires BareCode(op).Some? && Said(text, op).Some? && AssembleLine(a, text) == Ok(b)
    ensures OneMore(a, b, Instruction(BareCode(op).value, 0, 0, 0, 0))
  {
    hide ReadLine, Words, Cut, Upper, Mnemonic, BareCode, PlainOp, Takes, LineOf, Assemble;
    var word := BareNamed(op);
    SaidReads(text, word);
    BareAssembles(a, word, Words(Cut(text)));
  }
}
