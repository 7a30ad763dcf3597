/**
 The assembler (bogvm/assembler.py): names become ids in order of first use, and every line of the text emits
 at most one instruction. The class updates its tables line by line; the value `Asm` is what they hold.
 */
module Assembler {
  import opened Wrappers
  import opened Instructions
  import opened Machine
  import opened AssemblyText

  /** A table of names: their ids in order of first use, and the listing of the names by id. */
  datatype Symbols = Symbols(ids: map<string, nat>, names: map<nat, string>)

  /** The tables of the assembler and the code emitted so far. */
  datatype Asm = Asm(
    nodes: Symbols, claims: Symbols, dataNames: Symbols, constants: Symbols, edgeCount: nat, code: seq<Instruction>)
  {
    /** The symbol part of the manifest that is written in front of the code. */
    function Listing(): Manifest {
      Manifest(nodes.names, claims.names, dataNames.names, constants.names)
    }
  }

  const NOTHING: Symbols := Symbols(map[], map[])

  const EMPTY: Asm := Asm(NOTHING, NOTHING, NOTHING, NOTHING, 0, [])

  function ActionOp(action: ClaimAction): Op {
    match action
    case DoInterfere => Interfere
    case DoComputeTension => ComputeTension
    case DoVerify => Verify
    case DoAccept => Accept
    case DoReject => Reject
    case DoQuarantine => Quarantine
  }

  function KindFlag(kind: string): Option<nat> {
    if kind == "support" then Some(1) else if kind == "conflict" then Some(2) else None
  }

  function Emit(a: Asm, op: Op, flags: int, target: int, source: int, param: int): Result<Asm, AssemblerError> {
    if 0 <= flags <= 65535 && 0 <= target <= 65535 && 0 <= source <= 65535 && 0 <= param <= 65535 then
      Ok(a.(code := a.code + [Instruction(OpCode(op), flags, target, source, param)]))
    else Err(FieldRange)
  }

  /** Enters a name under the next id unless it has one; ids are 16-bit. */
  function Intern(t: Symbols, name: string): (r: Result<Symbols, AssemblerError>)
    ensures r.Ok? ==> name in r.value.ids
  {
    if name in t.ids then Ok(t)
    else if |t.ids| > 65535 then Err(TableFull)
    else Ok(Symbols(t.ids[name := |t.ids|], t.names[|t.ids| := name]))
  }

  function EmitData(a: Asm, op: Op, name: string, flags: int, source: int, param: int): Result<Asm, AssemblerError> {
    if name !in a.dataNames.ids then Err(UnknownDataName) else Emit(a, op, flags, a.dataNames.ids[name], source, param)
  }

  function AssembleGraph(a: Asm, line: Line): Result<Asm, AssemblerError> {
    match line
    case CreateNodeLine(name) =>
      var nodes :- Intern(a.nodes, name);
      Emit(a.(nodes := nodes), CreateNode, 0, nodes.ids[name], 0, 0)
    case CreateEdgeLine(source, target, kind) =>
      if source !in a.nodes.ids || target !in a.nodes.ids then Err(UnknownNodeName)
      else if KindFlag(kind).None? then Err(UnknownEdgeKind)
      else Emit(a.(edgeCount := a.edgeCount + 1), CreateEdge, KindFlag(kind).value, a.edgeCount,
                a.nodes.ids[source], a.nodes.ids[target])
    case ActivateLine(node, strength) =>
      if node !in a.nodes.ids then Err(UnknownNodeName)
      else if strength.None? then Err(BadNumber)
      else Emit(a, Activate, 0, a.nodes.ids[node], 0, strength.value)
    case PropagateLine(source, kind, depth) =>
      if source !in a.nodes.ids then Err(UnknownNodeName)
      else if depth.None? then Err(BadNumber)
      else if KindFlag(kind).None? then Err(UnknownEdgeKind)
      else Emit(a, Propagate, KindFlag(kind).value, 0, a.nodes.ids[source], depth.value)
    case DecayLine(factor) => if factor.None? then Err(BadNumber) else Emit(a, Decay, 0, 0, 0, factor.value)
    case _ => Ok(a)
  }

  function AssembleClaim(a: Asm, line: Line): Result<Asm, AssemblerError> {
    match line
    case CreateClaimLine(name, source, target) =>
      if source !in a.nodes.ids || target !in a.nodes.ids then Err(UnknownNodeName)
      else
        var claims :- Intern(a.claims, name);
        Emit(a.(claims := claims), CreateClaim, 0, claims.ids[name], a.nodes.ids[source], a.nodes.ids[target])
    case ClaimLine(action, claim) =>
      if claim !in a.claims.ids then Err(UnknownClaimName) else Emit(a, ActionOp(action), 0, a.claims.ids[claim], 0, 0)
    case _ => Ok(a)
  }

  function AssembleData(a: Asm, line: Line): Result<Asm, AssemblerError> {
    match line
    case DeclareBasisLine(basis) =>
      var constants :- Intern(a.constants, basis);
      Emit(a.(constants := constants), DeclareBasis, 0, constants.ids[basis], 0, 0)
    case DataBlockLine(name) =>
      var dataNames :- Intern(a.dataNames, name);
      Ok(a.(dataNames := dataNames))
    case LoadCoefficientsLine(name, start, length, delta) =>
      if name !in a.dataNames.ids then Err(UnknownDataName)
      else if start.None? || length.None? || delta.None? then Err(BadNumber)
      else if !(0 <= start.value <= 255) || !(0 <= delta.value <= 255) then Err(ByteRange)
      else EmitData(a, LoadCoefficients, name, delta.value, start.value, length.value)
    case SynthesizeLine(name) => EmitData(a, Synthesize, name, 0, 0, 0)
    case StoreResidualLine(name, offset, value) =>
      if name !in a.dataNames.ids then Err(UnknownDataName)
      else if offset.None? || value.None? then Err(BadNumber)
      else if !(0 <= value.value <= 255) then Err(ByteRange)
      else EmitData(a, StoreResidual, name, 0, offset.value, value.value)
    case ApplyResidualLine(name) => EmitData(a, ApplyResidual, name, 0, 0, 0)
    case VerifyHashLine(name, digest) =>
      if name !in a.dataNames.ids then Err(UnknownDataName)
      else
        var constants :- Intern(a.constants, digest);
        EmitData(a.(constants := constants), VerifyHash, name, 0, constants.ids[digest], 0)
    case AcceptDataLine(name) => EmitData(a, AcceptData, name, 0, 0, 0)
    case RejectDataLine(name) => EmitData(a, RejectData, name, 0, 0, 0)
    case _ => Ok(a)
  }

  function Assemble(a: Asm, line: Line): Result<Asm, AssemblerError> {
    match line
    case CreateNodeLine(_) => AssembleGraph(a, line)
    case CreateEdgeLine(_, _, _) => AssembleGraph(a, line)
    case ActivateLine(_, _) => AssembleGraph(a, line)
    case PropagateLine(_, _, _) => AssembleGraph(a, line)
    case DecayLine(_) => AssembleGraph(a, line)
    case CreateClaimLine(_, _, _) => AssembleClaim(a, line)
    case ClaimLine(_, _) => AssembleClaim(a, line)
    case LogReceiptLine => Emit(a, LogReceipt, 0, 0, 0, 0)
    case EmitReceiptLine => Emit(a, EmitReceipt, 0, 0, 0, 0)
    case HaltLine => Emit(a, Halt, 0, 0, 0, 0)
    case NoOpLine => Emit(a, NoOp, 0, 0, 0, 0)
    case _ => AssembleData(a, line)
  }

  function AssembleAll(a: Asm, lines: seq<Line>): Result<Asm, AssemblerError>
    decreases |lines|
  {
    if lines == [] then Ok(a)
    else
      var b :- Assemble(a, lines[0]);
      AssembleAll(b, lines[1..])
  }

  /** One line of text. */
  function AssembleLine(a: Asm, text: string): Result<Asm, AssemblerError> {
    match ReadLine(text)
    case Err(e) => Err(e)
    case Ok(None) => Ok(a)
    case Ok(Some(line)) => Assemble(a, line)
  }

  function AssembleLines(a: Asm, texts: seq<string>): Result<Asm, AssemblerError>
    decreases |texts|
  {
    if texts == [] then Ok(a)
    else
      var b :- AssembleLine(a, texts[0]);
      AssembleLines(b, texts[1..])
  }

  /** The tables and the code a whole text assembles to. */
  function Assembled(text: string): Result<Asm, AssemblerError> {
    AssembleLines(EMPTY, SplitLines(text))
  }

  // ------------------------------------------------- the class

  class Assembler {
    var nodes: Symbols
    var claims: Symbols
    var dataNames: Symbols
    var constants: Symbols
    var edgeCount: nat
    var instructions: seq<Instruction>

    /** The value of the tables and the code. */
    function Contents(): Asm
      reads this
    {
      Asm(nodes, claims, dataNames, constants, edgeCount, instructions)
    }

    /** What a method that stands for the transition `r` has done. */
    ghost predicate Did(result: Result<(), AssemblerError>, r: Result<Asm, AssemblerError>)
      reads this
    {
      match r
      case Ok(a) => result == Ok(()) && Contents() == a
      case Err(e) => result == Err(e)
    }

    constructor ()
      ensures Contents() == EMPTY
    {
      nodes, claims, dataNames, constants := NOTHING, NOTHING, NOTHING, NOTHING;
      edgeCount := 0;
      instructions := [];
    }

    method AddNode(name: string) returns (r: Result<nat, AssemblerError>)
      modifies this`nodes
      ensures match Intern(old(nodes), name) case Ok(t) => nodes == t && r == Ok(t.ids[name]) case Err(e) => r == Err(e)
    {
      if name in nodes.ids {
        return Ok(nodes.ids[name]);
      }
      var id := |nodes.ids|;
      if id > 65535 {
        return Err(TableFull);
      }
      nodes := Symbols(nodes.ids[name := id], nodes.names[id := name]);
      r := Ok(id);
    }

    method AddClaim(name: string) returns (r: Result<nat, AssemblerError>)
      modifies this`claims
      ensures match Intern(old(claims), name) case Ok(t) => claims == t && r == Ok(t.ids[name]) case Err(e) => r == Err(e)
    {
      if name in claims.ids {
        return Ok(claims.ids[name]);
      }
      var id := |claims.ids|;
      if id > 65535 {
        return Err(TableFull);
      }
      claims := Symbols(claims.ids[name := id], claims.names[id := name]);
      r := Ok(id);
    }

    method AddData(name: string) returns (r: Result<nat, AssemblerError>)
      modifies this`dataNames
      ensures match Intern(old(dataNames), name) case Ok(t) => dataNames == t && r == Ok(t.ids[name]) case Err(e) => r == Err(e)
    {
      if name in dataNames.ids {
        return Ok(dataNames.ids[name]);
      }
      var id := |dataNames.ids|;
      if id > 65535 {
        return Err(TableFull);
      }
      dataNames := Symbols(dataNames.ids[name := id], dataNames.names[id := name]);
      r := Ok(id);
    }

    method AddConstant(value: string) returns (r: Result<nat, AssemblerError>)
      modifies this`constants
      ensures match Intern(old(constants), value) case Ok(t) => constants == t && r == Ok(t.ids[value]) case Err(e) => r == Err(e)
    {
      if value in constants.ids {
        return Ok(constants.ids[value]);
      }
      var id := |constants.ids|;
      if id > 65535 {
        return Err(TableFull);
      }
      constants := Symbols(constants.ids[value := id], constants.names[id := value]);
      r := Ok(id);
    }

    method EmitInstruction(op: Op, flags: int, target: int, source: int, param: int) returns (r: Result<(), AssemblerError>)
      modifies this`instructions
      ensures Did(r, Emit(old(Contents()), op, flags, target, source, param))
    {
      if !(0 <= flags <= 65535 && 0 <= target <= 65535 && 0 <= source <= 65535 && 0 <= param <= 65535) {
        return Err(FieldRange);
      }
      instructions := instructions + [Instruction(OpCode(op), flags, target, source, param)];
      r := Ok(());
    }

    method EmitOnData(op: Op, name: string, flags: int, source: int, param: int) returns (r: Result<(), AssemblerError>)
      modifies this`instructions
      ensures Did(r, EmitData(old(Contents()), op, name, flags, source, param))
    {
      if name !in dataNames.ids {
        return Err(UnknownDataName);
      }
      r := EmitInstruction(op, flags, dataNames.ids[name], source, param);
    }

    method ParseGraphLine(line: Line) returns (r: Result<(), AssemblerError>)
      modifies this`nodes, this`edgeCount, this`instructions
      ensures Did(r, AssembleGraph(old(Contents()), line))
    {
      hide Intern, Emit, KindFlag;
      match line
      case CreateNodeLine(name) =>
        var id := AddNode(name);
        if id.Err? {
          return Err(id.error);
        }
        r := EmitInstruction(CreateNode, 0, id.value, 0, 0);
      case CreateEdgeLine(source, target, kind) =>
        if source !in nodes.ids || target !in nodes.ids {
          return Err(UnknownNodeName);
        }
        var flag := KindFlag(kind);
        if flag.None? {
          return Err(UnknownEdgeKind);
        }
        var edgeId := edgeCount;
        edgeCount := edgeCount + 1;
        r := EmitInstruction(CreateEdge, flag.value, edgeId, nodes.ids[source], nodes.ids[target]);
      case ActivateLine(node, strength) =>
        if node !in nodes.ids {
          return Err(UnknownNodeName);
        }
        if strength.None? {
          return Err(BadNumber);
        }
        r := EmitInstruction(Activate, 0, nodes.ids[node], 0, strength.value);
      case PropagateLine(source, kind, depth) =>
        if source !in nodes.ids {
          return Err(UnknownNodeName);
        }
        if depth.None? {
          return Err(BadNumber);
        }
        var flag := KindFlag(kind);
        if flag.None? {
          return Err(UnknownEdgeKind);
        }
        r := EmitInstruction(Propagate, flag.value, 0, nodes.ids[source], depth.value);
      case DecayLine(factor) =>
        if factor.None? {
          return Err(BadNumber);
        }
        r := EmitInstruction(Decay, 0, 0, 0, factor.value);
      case _ =>
        r := Ok(());
    }

    method ParseClaimLine(line: Line) returns (r: Result<(), AssemblerError>)
      modifies this`claims, this`instructions
      ensures Did(r, AssembleClaim(old(Contents()), line))
    {
      hide Intern, Emit, ActionOp;
      match line
      case CreateClaimLine(name, source, target) =>
        if source !in nodes.ids || target !in nodes.ids {
          return Err(UnknownNodeName);
        }
        var id := AddClaim(name);
        if id.Err? {
          return Err(id.error);
        }
        r := EmitInstruction(CreateClaim, 0, id.value, nodes.ids[source], nodes.ids[target]);
      case ClaimLine(action, claim) =>
        if claim !in claims.ids {
          return Err(UnknownClaimName);
        }
        r := EmitInstruction(ActionOp(action), 0, claims.ids[claim], 0, 0);
      case _ =>
        r := Ok(());
    }

    method ParseDataLine(line: Line) returns (r: Result<(), AssemblerError>)
      modifies this`dataNames, this`constants, this`instructions
      ensures Did(r, AssembleData(old(Contents()), line))
    {
      hide Intern, Emit, EmitData;
      match line
      case DeclareBasisLine(basis) =>
        var id := AddConstant(basis);
        if id.Err? {
          return Err(id.error);
        }
        r := EmitInstruction(DeclareBasis, 0, id.value, 0, 0);
      case DataBlockLine(name) =>
        var id := AddData(name);
        r := if id.Ok? then Ok(()) else Err(id.error);
      case LoadCoefficientsLine(name, start, length, delta) =>
        if name !in dataNames.ids {
          return Err(UnknownDataName);
        }
        if start.None? || length.None? || delta.None? {
          return Err(BadNumber);
        }
        if !(0 <= start.value <= 255) || !(0 <= delta.value <= 255) {
          return Err(ByteRange);
        }
        r := EmitOnData(LoadCoefficients, name, delta.value, start.value, length.value);
      case SynthesizeLine(name) =>
        r := EmitOnData(Synthesize, name, 0, 0, 0);
      case StoreResidualLine(name, offset, value) =>
        if name !in dataNames.ids {
          return Err(UnknownDataName);
        }
        if offset.None? || value.None? {
          return Err(BadNumber);
        }
        if !(0 <= value.value <= 255) {
          return Err(ByteRange);
        }
        r := EmitOnData(StoreResidual, name, 0, offset.value, value.value);
      case ApplyResidualLine(name) =>
        r := EmitOnData(ApplyResidual, name, 0, 0, 0);
      case VerifyHashLine(name, digest) =>
        if name !in dataNames.ids {
          return Err(UnknownDataName);
        }
        var id := AddConstant(digest);
        if id.Err? {
          return Err(id.error);
        }
        r := EmitOnData(VerifyHash, name, 0, id.value, 0);
      case AcceptDataLine(name) =>
        r := EmitOnData(AcceptData, name, 0, 0, 0);
      case RejectDataLine(name) =>
        r := EmitOnData(RejectData, name, 0, 0, 0);
      case _ =>
        r := Ok(());
    }

    method ParseOperation(line: Line) returns (r: Result<(), AssemblerError>)
      modifies this
      ensures Did(r, Assemble(old(Contents()), line))
    {
      hide AssembleGraph, AssembleClaim, AssembleData, Emit;
      match line
      case CreateNodeLine(_) => r := ParseGraphLine(line);
      case CreateEdgeLine(_, _, _) => r := ParseGraphLine(line);
      case ActivateLine(_, _) => r := ParseGraphLine(line);
      case PropagateLine(_, _, _) => r := ParseGraphLine(line);
      case DecayLine(_) => r := ParseGraphLine(line);
      case CreateClaimLine(_, _, _) => r := ParseClaimLine(line);
      case ClaimLine(_, _) => r := ParseClaimLine(line);
      case LogReceiptLine => r := EmitInstruction(LogReceipt, 0, 0, 0, 0);
      case EmitReceiptLine => r := EmitInstruction(EmitReceipt, 0, 0, 0, 0);
      case HaltLine => r := EmitInstruction(Halt, 0, 0, 0, 0);
      case NoOpLine => r := EmitInstruction(NoOp, 0, 0, 0, 0);
      case _ => r := ParseDataLine(line);
    }

    method ParseLine(text: string) returns (r: Result<(), AssemblerError>)
      modifies this
      ensures Did(r, AssembleLine(old(Contents()), text))
    {
      hide Assemble, ReadLine;
      match ReadLine(text)
      case Err(e) => return Err(e);
      case Ok(None) => return Ok(());
      case Ok(Some(line)) => r := ParseOperation(line);
    }

    method AssembleText(text: string) returns (r: Result<(), AssemblerError>)
      modifies this
      ensures Did(r, AssembleLines(old(Contents()), SplitLines(text)))
    {
      hide AssembleLine, SplitLines;
      var lines := SplitLines(text);
      for k := 0 to |lines|
        invariant AssembleLines(old(Contents()), lines) == AssembleLines(Contents(), lines[k..])
      {
        assert lines[k..][0] == lines[k] && lines[k..][1..] == lines[k + 1..];
        var parsed := ParseLine(lines[k]);
        if parsed.Err? {
          return parsed;
        }
      }
      r := Ok(());
    }
  }
}
