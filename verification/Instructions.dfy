/** Opcodes and the eight-byte instruction layout (bogvm/opcodes.py, bogvm/instruction.py). */
module Instructions {
  import opened Wrappers
  import opened ByteStrings

  datatype Op =
    | NoOp | Halt | CreateNode | CreateEdge | CreateClaim | Activate | Propagate | Decay
    | Interfere | ComputeTension | Verify | Accept | Reject | Quarantine | LogReceipt | EmitReceipt
    | DeclareBasis | LoadCoefficients | Synthesize | VerifyHash | AcceptData | StoreResidual | ApplyResidual | RejectData

  /** The operations in the order of their codes 0x00 to 0x17. */
  const OPS: seq<Op> := [
    NoOp, Halt, CreateNode, CreateEdge, CreateClaim, Activate, Propagate, Decay,
    Interfere, ComputeTension, Verify, Accept, Reject, Quarantine, LogReceipt, EmitReceipt,
    DeclareBasis, LoadCoefficients, Synthesize, VerifyHash, AcceptData, StoreResidual, ApplyResidual, RejectData]

  function OpCode(op: Op): (code: nat)
    ensures code < |OPS| && OPS[code] == op
  {
    match op
    case NoOp => 0 case Halt => 1 case CreateNode => 2 case CreateEdge => 3
    case CreateClaim => 4 case Activate => 5 case Propagate => 6 case Decay => 7
    case Interfere => 8 case ComputeTension => 9 case Verify => 10 case Accept => 11
    case Reject => 12 case Quarantine => 13 case LogReceipt => 14 case EmitReceipt => 15
    case DeclareBasis => 16 case LoadCoefficients => 17 case Synthesize => 18 case VerifyHash => 19
    case AcceptData => 20 case StoreResidual => 21 case ApplyResidual => 22 case RejectData => 23
  }

  datatype Instruction = Instruction(opcode: nat, flags: nat, target: nat, source: nat, param: nat) {
    /** `OP_NAMES.get(opcode)`. */
    function Name(): Option<Op> {
      if opcode < |OPS| then Some(OPS[opcode]) else None
    }

    /** What the byte layout can hold: two bytes' worth of opcode and flags, three 16-bit fields. */
    predicate Fits() {
      opcode < 256 && flags < 256 && target < 65536 && source < 65536 && param < 65536
    }
  }

  /** Big-endian `>BBHHH`. */
  function Pack(i: Instruction): (r: Bytes)
    requires i.Fits()
    ensures |r| == 8
  {
    [i.opcode, i.flags, i.target / 256, i.target % 256, i.source / 256, i.source % 256, i.param / 256, i.param % 256]
  }

  function Word(high: nat, low: nat): nat {
    256 * high + low
  }

  function Unpack(data: Bytes): (i: Instruction)
    requires |data| == 8
    ensures i.Fits()
  {
    Instruction(data[0], data[1], Word(data[2], data[3]), Word(data[4], data[5]), Word(data[6], data[7]))
  }

  function PackAll(instructions: seq<Instruction>): (r: Bytes)
    requires forall k :: 0 <= k < |instructions| ==> instructions[k].Fits()
    ensures |r| == 8 * |instructions|
  {
    if instructions == [] then [] else Pack(instructions[0]) + PackAll(instructions[1..])
  }

  /** Reads a stream back, refusing one that is not a whole number of instructions. */
  function UnpackAll(stream: Bytes): Option<seq<Instruction>> {
    if stream == [] then Some([])
    else if |stream| < 8 then None
    else match UnpackAll(stream[8..])
      case None => None
      case Some(rest) => Some([Unpack(stream[..8])] + rest)
  }

  lemma UnpackUndoesPack(i: Instruction)
    requires i.Fits()
    ensures Unpack(Pack(i)) == i
  {
    assert 256 * (i.target / 256) + i.target % 256 == i.target;
    assert 256 * (i.source / 256) + i.source % 256 == i.source;
    assert 256 * (i.param / 256) + i.param % 256 == i.param;
  }

  /** A packed program reads back as the same instructions; streams of other lengths are refused. */
  lemma {:induction false} StreamRoundTrip(instructions: seq<Instruction>)
    requires forall k :: 0 <= k < |instructions| ==> instructions[k].Fits()
    ensures UnpackAll(PackAll(instructions)) == Some(instructions)
  {
    hide Pack, Unpack;
    if instructions != [] {
      var stream := PackAll(instructions);
      UnpackUndoesPack(instructions[0]);
      StreamRoundTrip(instructions[1..]);
      assert stream[..8] == Pack(instructions[0]) && stream[8..] == PackAll(instructions[1..]);
      assert instructions == [instructions[0]] + instructions[1..];
    }
  }

  /** The other direction: every stream of whole instructions is the packing of what it reads back as. */
  lemma {:induction false} StreamReadBack(stream: Bytes)
    ensures UnpackAll(stream).Some? <==> |stream| % 8 == 0
    ensures UnpackAll(stream).Some? ==>
              && (forall k :: 0 <= k < |UnpackAll(stream).value| ==> UnpackAll(stream).value[k].Fits())
              && PackAll(UnpackAll(stream).value) == stream
    decreases |stream|
  {
    if |stream| >= 8 {
      StreamReadBack(stream[8..]);
      PackUndoesUnpack(stream[..8]);
      assert stream == stream[..8] + stream[8..];
    }
  }

  lemma PackUndoesUnpack(data: Bytes)
    requires |data| == 8
    ensures Pack(Unpack(data)) == data
  {
  }

  /** The place of every field in a stream: eight bytes an instruction, each 16-bit field with its high byte first. */
  lemma {:induction false} StreamLayout(instructions: seq<Instruction>, k: nat)
    requires k < |instructions| && forall n :: 0 <= n < |instructions| ==> instructions[n].Fits()
    ensures var (b, i) := (PackAll(instructions)[8 * k..8 * k + 8], instructions[k]);
            && b[0] == i.opcode && b[1] == i.flags && 256 * b[2] as nat + b[3] == i.target
            && 256 * b[4] as nat + b[5] == i.source && 256 * b[6] as nat + b[7] == i.param
  {
    hide Unpack;
    var stream := PackAll(instructions);
    if k == 0 {
      assert stream[..8] == Pack(instructions[0]);
    } else {
      hide Pack;
      StreamLayout(instructions[1..], k - 1);
      assert stream[8..] == PackAll(instructions[1..]);
      assert stream[8 * k..8 * k + 8] == stream[8..][8 * (k - 1)..8 * (k - 1) + 8];
    }
  }
}
