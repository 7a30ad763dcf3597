/** The data operations of an assembled text on a run (bogvm/vm.py), each said in the words of its line. */
module SaidData {
  import opened Wrappers
  import opened Sorting
  import opened ByteStrings
  import opened Bases
  import opened Optimizer
  import opened Containers
  import opened Instructions
  import opened Machine
  import opened Runs
  import opened AssemblyText
  import opened Assembler
  import opened AssembledPrograms
  import opened SaidLines
  import opened SaidPrograms
  import opened SaidRuns

  // ------------------------------------------------- declaring and loading

  /** The generators by their names; a name that is none of these is none. */
  lemma BasisNames(name: string)
    ensures BasisOf("zero_block") == Some(ZeroBlock) && BasisOf("repeat_byte") == Some(RepeatByte) && BasisOf("delta_u8") == Some(DeltaU8)
    ensures BasisOf("dictionary_u8") == Some(DictionaryU8) && BasisOf("rle_u8") == Some(RleU8) && BasisOf("ramp_u8") == Some(RampU8)
    ensures BasisOf("triangle_u8") == Some(TriangleU8) && BasisOf("sine8_u8") == Some(Sine8U8) && BasisOf("fourier8_u8") == Some(Fourier8U8)
    ensures BasisOf(name).Some? <==> name in {"zero_block", "repeat_byte", "delta_u8", "dictionary_u8", "rle_u8", "ramp_u8", "triangle_u8",
                                              "sine8_u8", "fourier8_u8"}
  {
  }

  lemma BasisStep(s: State, i: Instruction, m: Manifest, sha: Sha)
    requires EdgesListed(s.graph) && i.opcode == 16 && i.target in m.constants
    ensures Step(s, i, m, sha)
         == if BasisOf(m.constants[i.target]).None? then Blocked(UnsupportedBasis)
            else Next(s.(data := s.data.(basis := BasisOf(m.constants[i.target]))))
  {
    hide BasisOf, EdgesListed;
    assert i.Name() == Some(DeclareBasis);
  }

  lemma ConstantListed(a: Asm, name: string)
    requires Tables(a) && name in a.constants.ids
    ensures Id(a.constants, name) in a.Listing().constants && a.Listing().constants[Id(a.constants, name)] == name
  {
  }

  /** DECLARE_BASIS makes the generator of this name the one that later blocks are loaded for. */
  lemma DeclaresBasis(text: string, j: nat, sha: Sha)
    requires Assembled(text).Ok? && j < |SplitLines(text)| && StateAt(text, j, sha).Some? && Said(SplitLines(text)[j], "DECLARE_BASIS").Some?
    ensures var w := Said(SplitLines(text)[j], "DECLARE_BASIS").value;
            var s := StateAt(text, j, sha).value;
            && |w| == 1 && OpSaid(SplitLines(text)[j]).Some?
            && Acts(text, j, sha)
               == if BasisOf(w[0]).None? then Blocked(UnsupportedBasis) else Next(s.(data := s.data.(basis := BasisOf(w[0]))))
  {
    hide AsmAt, SplitLines, Assembled, StateAt, Said, AssembleLine, Sound, EdgesListed, Id, OneMore, OpSaid, Acts, Step, AssembleLines,
         BasisOf, Tables;
    var (texts, a) := (SplitLines(text), Assembled(text).value);
    LineAt(text, j);
    BasisLineSays(AsmAt(texts, j), texts[j], AsmAt(texts, j + 1));
    var w := Said(texts[j], "DECLARE_BASIS").value;
    SameId(AsmAt(texts, j + 1).constants, a.constants, w[0]);
    FinalTables(text);
    ConstantListed(a, w[0]);
    var i := Instruction(16, 0, Id(a.constants, w[0]), 0, 0);
    ActsIs(text, j, i, sha);
    BasisStep(StateAt(text, j, sha).value, i, a.Listing(), sha);
  }

  lemma LoadStep(s: State, i: Instruction, m: Manifest, sha: Sha)
    requires EdgesListed(s.graph) && i.opcode == 17 && i.target in m.dataBlocks && i.source <= 255 && i.flags <= 255
    ensures Step(s, i, m, sha)
         == Next(s.(data := s.data.(blocks := s.data.blocks[i.target := Block(s.data.basis, i.source, i.flags, i.param, [], [])])))
  {
    hide EdgesListed;
    assert i.Name() == Some(LoadCoefficients);
  }

  lemma BlockListed(a: Asm, name: string)
    requires Tables(a) && name in a.dataNames.ids
    ensures Id(a.dataNames, name) in a.Listing().dataBlocks
  {
  }

  /** LOAD_COEFFICIENTS makes a new block of the basis declared last: start, length, and step, which is 0 when not given. */
  lemma Loads(text: string, j: nat, sha: Sha)
    requires Assembled(text).Ok? && j < |SplitLines(text)| && StateAt(text, j, sha).Some?
    requires Said(SplitLines(text)[j], "LOAD_COEFFICIENTS").Some?
    ensures var w := Said(SplitLines(text)[j], "LOAD_COEFFICIENTS").value;
            var s := StateAt(text, j, sha).value;
            && (|w| == 3 || |w| == 4) && IsField(w[1]) && Field(w[1]) <= 255 && IsField(w[2])
            && (|w| == 4 ==> IsField(w[3]) && Field(w[3]) <= 255) && OpSaid(SplitLines(text)[j]).Some?
            && Acts(text, j, sha)
               == Next(s.(data := s.data.(blocks := s.data.blocks[Id(Assembled(text).value.dataNames, w[0]) :=
                    Block(s.data.basis, Field(w[1]), if |w| == 4 then Field(w[3]) else 0, Field(w[2]), [], [])])))
  {
    hide AsmAt, SplitLines, Assembled, StateAt, Said, AssembleLine, Sound, EdgesListed, Id, OneMore, OpSaid, Acts, Step, AssembleLines,
         IsField, Field, Tables;
    var (texts, a) := (SplitLines(text), Assembled(text).value);
    LineAt(text, j);
    LoadLineSays(AsmAt(texts, j), texts[j], AsmAt(texts, j + 1));
    var w := Said(texts[j], "LOAD_COEFFICIENTS").value;
    SameId(AsmAt(texts, j).dataNames, a.dataNames, w[0]);
    FinalTables(text);
    BlockListed(a, w[0]);
    var i := Instruction(17, if |w| == 4 then Field(w[3]) else 0, Id(a.dataNames, w[0]), Field(w[1]), Field(w[2]));
    ActsIs(text, j, i, sha);
    LoadStep(StateAt(text, j, sha).value, i, a.Listing(), sha);
  }

  // ------------------------------------------------- residuals

  /** The list with one patch more, by rising offset and, at one offset, rising byte. */
  ghost predicate Stored(before: seq<Patch>, patch: Patch, after: seq<Patch>) {
    && multiset(after) == multiset(before) + multiset{patch}
    && forall i, j :: 0 <= i < j < |after| ==>
         after[i].offset < after[j].offset || (after[i].offset == after[j].offset && after[i].value <= after[j].value)
  }

  lemma SortStores(residuals: seq<Patch>, patch: Patch)
    ensures Stored(residuals, patch, Sort(residuals + [patch], PatchLe))
  {
    assert Comparable(PatchLe);
    SortSorted(residuals + [patch], PatchLe);
    var after := Sort(residuals + [patch], PatchLe);
    forall i, j | 0 <= i < j < |after|
      ensures after[i].offset < after[j].offset || (after[i].offset == after[j].offset && after[i].value <= after[j].value)
    {
      assert PatchLe(after[i], after[j]);
    }
  }

  /** The result of storing a patch for a block. */
  ghost predicate StoredIn(s: State, id: nat, offset: nat, value: byte, r: Outcome<State>) {
    if id !in s.data.blocks then r == Blocked(MissingBlock)
    else if offset >= s.data.blocks[id].length then r == Blocked(ResidualRange)
    else
      && r.Next? && id in r.state.data.blocks
      && r.state == s.(data := s.data.(blocks := s.data.blocks[id := s.data.blocks[id].(residuals := r.state.data.blocks[id].residuals)]))
      && Stored(s.data.blocks[id].residuals, Patch(offset, value), r.state.data.blocks[id].residuals)
  }

  lemma StoreStep(s: State, i: Instruction, m: Manifest, sha: Sha)
    requires EdgesListed(s.graph) && i.opcode == 21 && i.param <= 255
    ensures StoredIn(s, i.target, i.source, i.param, Step(s, i, m, sha))
  {
    hide EdgesListed, Stored, Sort;
    assert i.Name() == Some(StoreResidual);
    if i.target in s.data.blocks {
      SortStores(s.data.blocks[i.target].residuals, Patch(i.source, i.param));
    }
  }

  /** STORE_RESIDUAL adds one patch to a block's list, refusing offsets outside the block. */
  lemma Stores(text: string, j: nat, sha: Sha)
    requires Assembled(text).Ok? && j < |SplitLines(text)| && StateAt(text, j, sha).Some?
    requires Said(SplitLines(text)[j], "STORE_RESIDUAL").Some?
    ensures var w := Said(SplitLines(text)[j], "STORE_RESIDUAL").value;
            && |w| == 3 && IsField(w[1]) && IsField(w[2]) && Field(w[2]) <= 255 && OpSaid(SplitLines(text)[j]).Some?
            && StoredIn(StateAt(text, j, sha).value, Id(Assembled(text).value.dataNames, w[0]), Field(w[1]), Field(w[2]), Acts(text, j, sha))
  {
    hide AsmAt, SplitLines, Assembled, StateAt, Said, AssembleLine, Sound, EdgesListed, Id, OneMore, OpSaid, Acts, Step, AssembleLines,
         IsField, Field, StoredIn;
    var (texts, a) := (SplitLines(text), Assembled(text).value);
    LineAt(text, j);
    StoreLineSays(AsmAt(texts, j), texts[j], AsmAt(texts, j + 1));
    var w := Said(texts[j], "STORE_RESIDUAL").value;
    SameId(AsmAt(texts, j).dataNames, a.dataNames, w[0]);
    var i := Instruction(21, 0, Id(a.dataNames, w[0]), Field(w[1]), Field(w[2]));
    ActsIs(text, j, i, sha);
    StoreStep(StateAt(text, j, sha).value, i, a.Listing(), sha);
  }

  /** The value the last patch at an offset gives it. */
  function LastAt(residuals: seq<Patch>, offset: nat): Option<byte> {
    if residuals == [] then None
    else if residuals[|residuals| - 1].offset == offset then Some(residuals[|residuals| - 1].value)
    else LastAt(residuals[..|residuals| - 1], offset)
  }

  lemma {:induction false} LastAtCons(patch: Patch, rest: seq<Patch>, offset: nat)
    ensures LastAt([patch] + rest, offset)
         == if LastAt(rest, offset).Some? then LastAt(rest, offset) else if patch.offset == offset then Some(patch.value) else None
    decreases |rest|
  {
    var all := [patch] + rest;
    if rest == [] {
      assert all == [patch] && all[..0] == [];
    } else {
      assert all[..|all| - 1] == [patch] + rest[..|rest| - 1];
      LastAtCons(patch, rest[..|rest| - 1], offset);
    }
  }

  /** Patching is refused when a patch lies outside the bytes; otherwise each byte is that of its last patch, or stays. */
  lemma {:induction false} PatchAllMeans(bytes: Bytes, residuals: seq<Patch>, k: nat)
    ensures PatchAll(bytes, residuals).Some? <==> forall p :: p in residuals ==> p.offset < |bytes|
    ensures k < |bytes| && PatchAll(bytes, residuals).Some? ==>
              PatchAll(bytes, residuals).value[k] == match LastAt(residuals, k) case Some(v) => v case None => bytes[k]
    decreases |residuals|
  {
    if residuals != [] {
      assert residuals == [residuals[0]] + residuals[1..];
      if residuals[0].offset < |bytes| {
        PatchAllMeans(bytes[residuals[0].offset := residuals[0].value], residuals[1..], k);
        LastAtCons(residuals[0], residuals[1..], k);
      }
    }
  }

  // ------------------------------------------------- operations on one block

  /** A line of an operation that names one block. */
  lemma BlockOpAt(text: string, j: nat, op: string, sha: Sha)
    requires Assembled(text).Ok? && j < |SplitLines(text)| && StateAt(text, j, sha).Some?
    requires BlockCode(op).Some? && Said(SplitLines(text)[j], op).Some?
    ensures var w := Said(SplitLines(text)[j], op).value;
            var (a, s) := (Assembled(text).value, StateAt(text, j, sha).value);
            && |w| == 1 && OpSaid(SplitLines(text)[j]).Some? && EdgesListed(s.graph)
            && Acts(text, j, sha) == Step(s, Instruction(BlockCode(op).value, 0, Id(a.dataNames, w[0]), 0, 0), a.Listing(), sha)
  {
    hide AsmAt, SplitLines, Assembled, StateAt, Said, AssembleLine, Sound, EdgesListed, Id, OneMore, OpSaid, Acts, Step, AssembleLines, BlockCode;
    var (texts, a) := (SplitLines(text), Assembled(text).value);
    LineAt(text, j);
    BlockOpLineSays(AsmAt(texts, j), texts[j], op, AsmAt(texts, j + 1));
    var w := Said(texts[j], op).value;
    SameId(AsmAt(texts, j).dataNames, a.dataNames, w[0]);
    ActsIs(text, j, Instruction(BlockCode(op).value, 0, Id(a.dataNames, w[0]), 0, 0), sha);
  }

  /** The result of an operation on a block. */
  ghost predicate BlockDone(s: State, op: string, id: nat, r: Outcome<State>) {
    if id !in s.data.blocks then r == Blocked(MissingBlock)
    else
      var block := s.data.blocks[id];
      if op == "SYNTHESIZE" then
        r == if block.basis.None? then Blocked(SynthesisFailed)
             else Next(WithBytes(s, id, SynthesizeBasis(block.basis.value, block.start, block.length, block.delta)))
      else if op == "APPLY_RESIDUAL" then
        r == match PatchAll(block.bytes, block.residuals) case None => Blocked(ResidualRange) case Some(bytes) => Next(WithBytes(s, id, bytes))
      else if op == "ACCEPT_DATA" then
        if id in s.data.hashVerified && s.data.hashVerified[id] then
          && r.Next? && r.state == s.(data := s.data.(accepted := r.state.data.accepted))
          && Joined(s.data.accepted, id, r.state.data.accepted)
        else r == Blocked(AcceptDataWithoutHash)
      else
        if id in s.data.hashVerified && !s.data.hashVerified[id] then
          && r.Next? && r.state == s.(data := s.data.(rejected := r.state.data.rejected))
          && Joined(s.data.rejected, id, r.state.data.rejected)
        else r == Blocked(RejectDataWithoutFailure)
  }

  ghost function WithBytes(s: State, id: nat, bytes: Bytes): State
    requires id in s.data.blocks
  {
    s.(data := s.data.(blocks := s.data.blocks[id := s.data.blocks[id].(bytes := bytes)]))
  }

  lemma DataStepIs(s: State, i: Instruction, op: Op, m: Manifest, sha: Sha)
    requires EdgesListed(s.graph) && i.Name() == Some(op) && IsDataOp(op) && !op.DeclareBasis? && !op.LoadCoefficients?
    ensures Step(s, i, m, sha)
         == if i.target !in s.data.blocks then Blocked(MissingBlock)
            else match StepOnBlock(s.data, i, op, m, sha)
              case Next(d) => Next(s.(data := d))
              case Blocked(reason) => Blocked(reason)
              case KeyMissing => KeyMissing
  {
    hide EdgesListed, StepOnBlock;
  }

  lemma BytesStep(s: State, op: string, id: nat, m: Manifest, sha: Sha)
    requires EdgesListed(s.graph) && (op == "SYNTHESIZE" || op == "APPLY_RESIDUAL")
    ensures BlockDone(s, op, id, Step(s, Instruction(BlockCode(op).value, 0, id, 0, 0), m, sha))
  {
    hide EdgesListed, Step, PatchAll, SynthesizeBasis;
    if op == "SYNTHESIZE" {
      DataStepIs(s, Instruction(18, 0, id, 0, 0), Synthesize, m, sha);
    } else {
      DataStepIs(s, Instruction(22, 0, id, 0, 0), ApplyResidual, m, sha);
    }
  }

  lemma GateStep(s: State, op: string, id: nat, m: Manifest, sha: Sha)
    requires Sound(s) && EdgesListed(s.graph) && (op == "ACCEPT_DATA" || op == "REJECT_DATA")
    ensures BlockDone(s, op, id, Step(s, Instruction(BlockCode(op).value, 0, id, 0, 0), m, sha))
  {
    hide EdgesListed, Register, Joined, Step, StrictlySorted;
    RegisterJoins(s.data.accepted, id);
    RegisterJoins(s.data.rejected, id);
    if op == "ACCEPT_DATA" {
      DataStepIs(s, Instruction(20, 0, id, 0, 0), AcceptData, m, sha);
    } else {
      DataStepIs(s, Instruction(23, 0, id, 0, 0), RejectData, m, sha);
    }
  }

  lemma BlockStep(s: State, op: string, id: nat, m: Manifest, sha: Sha)
    requires Sound(s) && EdgesListed(s.graph) && BlockCode(op).Some?
    ensures BlockDone(s, op, id, Step(s, Instruction(BlockCode(op).value, 0, id, 0, 0), m, sha))
  {
    hide EdgesListed, Sound, Step, BlockDone;
    if op == "SYNTHESIZE" || op == "APPLY_RESIDUAL" {
      BytesStep(s, op, id, m, sha);
    } else {
      GateStep(s, op, id, m, sha);
    }
  }

  /**
   SYNTHESIZE gives a block the bytes of its basis and coefficients, APPLY_RESIDUAL patches them, ACCEPT_DATA accepts a
   block whose latest hash check succeeded and REJECT_DATA rejects one whose latest failed; else they are blocked.
   */
  lemma BlockActs(text: string, j: nat, op: string, sha: Sha)
    requires Assembled(text).Ok? && j < |SplitLines(text)| && StateAt(text, j, sha).Some?
    requires BlockCode(op).Some? && Said(SplitLines(text)[j], op).Some?
    ensures var w := Said(SplitLines(text)[j], op).value;
            && |w| == 1 && OpSaid(SplitLines(text)[j]).Some?
            && BlockDone(StateAt(text, j, sha).value, op, Id(Assembled(text).value.dataNames, w[0]), Acts(text, j, sha))
  {
    hide SplitLines, Assembled, StateAt, Said, Sound, EdgesListed, Id, OpSaid, Acts, Step, BlockDone, BlockCode;
    BlockOpAt(text, j, op, sha);
    BlockStep(StateAt(text, j, sha).value, op, Id(Assembled(text).value.dataNames, Said(SplitLines(text)[j], op).value[0]),
              Assembled(text).value.Listing(), sha);
  }

  lemma HashStep(s: State, i: Instruction, m: Manifest, sha: Sha)
    requires EdgesListed(s.graph) && i.opcode == 19 && i.source in m.constants
    ensures Step(s, i, m, sha)
         == if i.target !in s.data.blocks then Blocked(MissingBlock)
            else Next(s.(data := s.data.(hashVerified :=
                   s.data.hashVerified[i.target := sha(s.data.blocks[i.target].bytes) == m.constants[i.source]])))
  {
    hide EdgesListed;
    DataStepIs(s, i, VerifyHash, m, sha);
  }

  /** VERIFY_HASH records whether the bytes a block has now hash to the digest on the line. */
  lemma ChecksHash(text: string, j: nat, sha: Sha)
    requires Assembled(text).Ok? && j < |SplitLines(text)| && StateAt(text, j, sha).Some? && Said(SplitLines(text)[j], "VERIFY_HASH").Some?
    ensures var w := Said(SplitLines(text)[j], "VERIFY_HASH").value;
            var s := StateAt(text, j, sha).value;
            && |w| == 2 && OpSaid(SplitLines(text)[j]).Some?
            && (var id := Id(Assembled(text).value.dataNames, w[0]);
                Acts(text, j, sha)
                == if id !in s.data.blocks then Blocked(MissingBlock)
                   else Next(s.(data := s.data.(hashVerified := s.data.hashVerified[id := sha(s.data.blocks[id].bytes) == w[1]]))))
  {
    hide AsmAt, SplitLines, Assembled, StateAt, Said, AssembleLine, Sound, EdgesListed, Id, OneMore, OpSaid, Acts, Step, AssembleLines, Tables;
    var (texts, a) := (SplitLines(text), Assembled(text).value);
    LineAt(text, j);
    HashLineSays(AsmAt(texts, j), texts[j], AsmAt(texts, j + 1));
    var w := Said(texts[j], "VERIFY_HASH").value;
    SameId(AsmAt(texts, j).dataNames, a.dataNames, w[0]);
    SameId(AsmAt(texts, j + 1).constants, a.constants, w[1]);
    FinalTables(text);
    ConstantListed(a, w[1]);
    var i := Instruction(19, 0, Id(a.dataNames, w[0]), Id(a.constants, w[1]), 0);
    ActsIs(text, j, i, sha);
    HashStep(StateAt(text, j, sha).value, i, a.Listing(), sha);
  }
}
