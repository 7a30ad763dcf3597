/**
 The machine runs compiled containers the way containers are reconstructed: it completes with every chunk
 accepted exactly when every chunk's bytes have its digest, and otherwise stops at the first that has not.
 */
module ProgramRuns {
  import opened Wrappers
  import opened Sorting
  import opened ByteStrings
  import opened Bases
  import opened Optimizer
  import opened ResidualCodec
  import opened Containers
  import opened Instructions
  import opened Machine
  import opened Runs
  import opened Assembler
  import opened AssembledPrograms
  import opened Programs
  import opened ProgramCode

  // ------------------------------------------------- data code on its own

  datatype DataEnd = Ran(data: Data) | Halted(data: Data, reason: BlockReason)

  ghost predicate DataCode(code: seq<Instruction>) {
    forall k :: 0 <= k < |code| ==> code[k].Name().Some? && IsDataOp(code[k].Name().value)
  }

  function ExecData(code: seq<Instruction>, d: Data, m: Manifest, sha: Sha): DataEnd
    requires DataCode(code)
  {
    if code == [] then Ran(d)
    else match StepData(d, code[0], code[0].Name().value, m, sha)
      case Next(t) => ExecData(code[1..], t, m, sha)
      case Blocked(reason) => Halted(d, reason)
  }

  lemma {:induction false} ExecInTwo(x: seq<Instruction>, y: seq<Instruction>, d: Data, m: Manifest, sha: Sha)
    requires DataCode(x) && DataCode(y)
    ensures ExecData(x + y, d, m, sha) == match ExecData(x, d, m, sha) case Ran(t) => ExecData(y, t, m, sha) case end => end
  {
    hide StepData;
    if x == [] {
      assert x + y == y;
    } else {
      assert (x + y)[1..] == x[1..] + y;
      match StepData(d, x[0], x[0].Name().value, m, sha)
      case Next(t) => ExecInTwo(x[1..], y, t, m, sha);
      case Blocked(_) =>
    }
  }

  lemma ExecOne(i: Instruction, d: Data, m: Manifest, sha: Sha)
    requires i.Name().Some? && IsDataOp(i.Name().value)
    ensures DataCode([i])
    ensures ExecData([i], d, m, sha) == match StepData(d, i, i.Name().value, m, sha)
      case Next(t) => Ran(t)
      case Blocked(reason) => Halted(d, reason)
  {
    hide StepData;
    assert [i][1..] == [];
  }

  /** Data instructions touch the data part of the machine only. */
  lemma {:induction false} RunOfData(code: seq<Instruction>, rest: seq<Instruction>, s: State, m: Manifest, sha: Sha)
    requires DataCode(code) && EdgesListed(s.graph)
    ensures Run(code + rest, s, m, sha) == match ExecData(code, s.data, m, sha)
      case Ran(d) => Run(rest, s.(data := d), m, sha)
      case Halted(d, reason) => Stopped(s.(data := d), reason)
    decreases |code|
  {
    hide StepData, EdgesListed;
    if code == [] {
      assert code + rest == rest;
    } else {
      assert (code + rest)[0] == code[0] && (code + rest)[1..] == code[1..] + rest;
      match StepData(s.data, code[0], code[0].Name().value, m, sha)
      case Next(d) => RunOfData(code[1..], rest, s.(data := d), m, sha);
      case Blocked(_) =>
    }
  }

  // ------------------------------------------------- patches in the machine

  lemma {:induction false} PatchAllOneMore(bytes: Bytes, residuals: seq<Patch>, p: Patch)
    ensures PatchAll(bytes, residuals + [p]) == match PatchAll(bytes, residuals)
      case None => None
      case Some(b) => if p.offset >= |b| then None else Some(b[p.offset := p.value])
    decreases |residuals|
  {
    if residuals == [] {
      assert residuals + [p] == [p] && [p][1..] == [];
    } else {
      assert (residuals + [p])[1..] == residuals[1..] + [p];
      if residuals[0].offset < |bytes| {
        PatchAllOneMore(bytes[residuals[0].offset := residuals[0].value], residuals[1..], p);
      }
    }
  }

  /** APPLY_RESIDUAL on well-placed residuals is what reconstruction does. */
  lemma {:induction false} PatchAllIsApply(bytes: Bytes, residuals: seq<Patch>)
    requires WellPlaced(residuals, |bytes|)
    ensures PatchAll(bytes, residuals) == Some(ApplyPatches(bytes, residuals))
  {
    hide PatchAll;
    if residuals == [] {
      NothingPatched(bytes);
    } else {
      var last := |residuals| - 1;
      PatchAllIsApply(bytes, residuals[..last]);
      PatchAllOneMore(bytes, residuals[..last], residuals[last]);
      assert residuals == residuals[..last] + [residuals[last]];
    }
  }

  lemma NothingPatched(bytes: Bytes)
    ensures PatchAll(bytes, []) == Some(bytes)
  {
  }

  lemma PatchLeIsTotalOrder()
    ensures TotalOrder(PatchLe)
  {
  }

  /** Stored in order, patches stay as they are when the machine sorts them. */
  lemma StoredInOrder(residuals: seq<Patch>, length: nat, k: nat)
    requires WellPlaced(residuals, length) && k < |residuals|
    ensures Sort(residuals[..k] + [residuals[k]], PatchLe) == residuals[..k + 1]
  {
    hide Sort;
    PatchLeIsTotalOrder();
    assert residuals[..k] + [residuals[k]] == residuals[..k + 1];
    SortIsSortedRearrangement(residuals[..k + 1], residuals[..k + 1], PatchLe);
  }

  // ------------------------------------------------- one chunk

  function WithBlock(d: Data, id: nat, block: Block): Data {
    d.(blocks := d.blocks[id := block])
  }

  lemma WithBlockTwice(d: Data, id: nat, x: Block, y: Block)
    ensures WithBlock(WithBlock(d, id, x), id, y) == WithBlock(d, id, y)
  {
    assert d.blocks[id := x][id := y] == d.blocks[id := y];
  }

  function BlockOf(p: Piece, bytes: Bytes, residuals: seq<Patch>): Block {
    Block(Some(p.basis), p.start, p.delta, p.length, bytes, residuals)
  }

  lemma BasisOfName(basis: Basis)
    ensures BasisOf(BasisName(basis)) == Some(basis)
  {
  }

  function Generated(p: Piece): Bytes {
    SynthesizeBasis(p.basis, p.start, p.length, p.delta)
  }

  lemma OpeningRuns(id: nat, basisId: nat, p: Piece, d: Data, m: Manifest, sha: Sha)
    requires basisId in m.constants && m.constants[basisId] == BasisName(p.basis) && id in m.dataBlocks
    ensures DataCode(OpeningCode(id, basisId, p))
    ensures ExecData(OpeningCode(id, basisId, p), d, m, sha)
         == Ran(WithBlock(d.(basis := Some(p.basis)), id, BlockOf(p, Generated(p), [])))
  {
    hide BasisOf, BasisName, ExecData, SynthesizeBasis;
    var code := OpeningCode(id, basisId, p);
    BasisOfName(p.basis);
    ExecInTwo([code[0]], [code[1], code[2]], d, m, sha);
    assert code == [code[0]] + [code[1], code[2]];
    ExecOne(code[0], d, m, sha);
    var based := d.(basis := Some(p.basis));
    LoadingRuns(id, p, based, m, sha);
  }

  lemma LoadingRuns(id: nat, p: Piece, d: Data, m: Manifest, sha: Sha)
    requires id in m.dataBlocks && d.basis == Some(p.basis)
    ensures var code := [Instr(LoadCoefficients, p.delta, id, p.start, p.length), Instr(Synthesize, 0, id, 0, 0)];
            DataCode(code) && ExecData(code, d, m, sha) == Ran(WithBlock(d, id, BlockOf(p, Generated(p), [])))
  {
    hide ExecData, SynthesizeBasis;
    var load, synthesize := Instr(LoadCoefficients, p.delta, id, p.start, p.length), Instr(Synthesize, 0, id, 0, 0);
    ExecInTwo([load], [synthesize], d, m, sha);
    assert [load, synthesize] == [load] + [synthesize];
    ExecOne(load, d, m, sha);
    var loaded := WithBlock(d, id, BlockOf(p, [], []));
    ExecOne(synthesize, loaded, m, sha);
    WithBlockTwice(d, id, BlockOf(p, [], []), BlockOf(p, Generated(p), []));
  }

  lemma {:induction false} StoresRun(id: nat, p: Piece, k: nat, bytes: Bytes, d: Data, m: Manifest, sha: Sha)
    requires p.Ok() && k <= |p.residuals|
    ensures DataCode(StoreCode(id, p.residuals[k..]))
    ensures ExecData(StoreCode(id, p.residuals[k..]), WithBlock(d, id, BlockOf(p, bytes, p.residuals[..k])), m, sha)
         == Ran(WithBlock(d, id, BlockOf(p, bytes, p.residuals)))
    decreases |p.residuals| - k
  {
    hide StepData, Sort, Placed;
    if k == |p.residuals| {
      assert p.residuals[..k] == p.residuals;
    } else {
      PlacedBounds(p.residuals, 0, p.length);
      StoredInOrder(p.residuals, p.length, k);
      StoreRuns(id, p, k, bytes, d, m, sha);
      StoresRun(id, p, k + 1, bytes, d, m, sha);
      assert p.residuals[k..][1..] == p.residuals[k + 1..];
    }
  }

  lemma StoreRuns(id: nat, p: Piece, k: nat, bytes: Bytes, d: Data, m: Manifest, sha: Sha)
    requires WellPlaced(p.residuals, p.length) && k < |p.residuals|
    requires Sort(p.residuals[..k] + [p.residuals[k]], PatchLe) == p.residuals[..k + 1]
    ensures var i := Instr(StoreResidual, 0, id, p.residuals[k].offset, p.residuals[k].value);
            && i.Name() == Some(StoreResidual)
            && StepData(WithBlock(d, id, BlockOf(p, bytes, p.residuals[..k])), i, StoreResidual, m, sha)
            == Next(WithBlock(d, id, BlockOf(p, bytes, p.residuals[..k + 1])))
  {
    hide Sort;
    WithBlockTwice(d, id, BlockOf(p, bytes, p.residuals[..k]), BlockOf(p, bytes, p.residuals[..k + 1]));
  }

  /** Whether the bytes of a chunk have its digest. */
  predicate Hashes(p: Piece, sha: Sha)
    requires p.Ok()
  {
    sha(p.Content()) == p.digest
  }

  function Checked(d: Data, id: nat, p: Piece, sha: Sha): Data
    requires p.Ok()
  {
    WithBlock(d, id, BlockOf(p, p.Content(), p.residuals)).(hashVerified := d.hashVerified[id := Hashes(p, sha)])
  }

  lemma PatchingRuns(id: nat, digestId: nat, p: Piece, d: Data, m: Manifest, sha: Sha)
    requires p.Ok() && digestId in m.constants && m.constants[digestId] == p.digest
    ensures var code := [Instr(ApplyResidual, 0, id, 0, 0), Instr(VerifyHash, 0, id, digestId, 0)];
            && DataCode(code)
            && ExecData(code, WithBlock(d, id, BlockOf(p, Generated(p), p.residuals)), m, sha) == Ran(Checked(d, id, p, sha))
  {
    hide ExecData, SynthesizeBasis, PatchAll, Placed, ApplyPatches;
    var apply, verify := Instr(ApplyResidual, 0, id, 0, 0), Instr(VerifyHash, 0, id, digestId, 0);
    var before := WithBlock(d, id, BlockOf(p, Generated(p), p.residuals));
    PlacedBounds(p.residuals, 0, p.length);
    PatchAllIsApply(Generated(p), p.residuals);
    ExecInTwo([apply], [verify], before, m, sha);
    assert [apply, verify] == [apply] + [verify];
    ExecOne(apply, before, m, sha);
    WithBlockTwice(d, id, BlockOf(p, Generated(p), p.residuals), BlockOf(p, p.Content(), p.residuals));
    ExecOne(verify, WithBlock(d, id, BlockOf(p, p.Content(), p.residuals)), m, sha);
  }

  lemma ClosingRuns(id: nat, digestId: nat, p: Piece, d: Data, m: Manifest, sha: Sha)
    requires p.Ok() && digestId in m.constants && m.constants[digestId] == p.digest
    requires StrictlySorted(d.accepted) && forall k :: 0 <= k < |d.accepted| ==> d.accepted[k] < id
    ensures DataCode(ClosingCode(id, digestId))
    ensures ExecData(ClosingCode(id, digestId), WithBlock(d, id, BlockOf(p, Generated(p), p.residuals)), m, sha)
         == if Hashes(p, sha) then Ran(Checked(d, id, p, sha).(accepted := d.accepted + [id]))
            else Halted(Checked(d, id, p, sha), AcceptDataWithoutHash)
  {
    hide ExecData, Placed, AddSorted, Hashes;
    var code := ClosingCode(id, digestId);
    var before := WithBlock(d, id, BlockOf(p, Generated(p), p.residuals));
    PatchingRuns(id, digestId, p, d, m, sha);
    ExecInTwo([code[0], code[1]], [code[2]], before, m, sha);
    assert code == [code[0], code[1]] + [code[2]];
    ExecOne(code[2], Checked(d, id, p, sha), m, sha);
    AddGreatest(d.accepted, id);
  }

  /** The effect of one chunk's code. */
  function AfterPiece(d: Data, id: nat, p: Piece, sha: Sha): Data
    requires p.Ok()
  {
    Checked(d.(basis := Some(p.basis)), id, p, sha)
  }

  lemma ChunkRuns(id: nat, basisId: nat, digestId: nat, p: Piece, d: Data, m: Manifest, sha: Sha)
    requires p.Ok() && id in m.dataBlocks
    requires basisId in m.constants && m.constants[basisId] == BasisName(p.basis)
    requires digestId in m.constants && m.constants[digestId] == p.digest
    requires StrictlySorted(d.accepted) && forall k :: 0 <= k < |d.accepted| ==> d.accepted[k] < id
    ensures DataCode(ChunkCode(id, basisId, digestId, p))
    ensures ExecData(ChunkCode(id, basisId, digestId, p), d, m, sha)
         == if Hashes(p, sha) then Ran(AfterPiece(d, id, p, sha).(accepted := d.accepted + [id]))
            else Halted(AfterPiece(d, id, p, sha), AcceptDataWithoutHash)
  {
    hide ExecData, Placed, BasisName, OpeningCode, StoreCode, ClosingCode, Checked, Hashes, Generated;
    var opening, stores, closing := OpeningCode(id, basisId, p), StoreCode(id, p.residuals), ClosingCode(id, digestId);
    var based := d.(basis := Some(p.basis));
    OpeningRuns(id, basisId, p, d, m, sha);
    assert p.residuals[0..] == p.residuals && p.residuals[..0] == [];
    StoresRun(id, p, 0, Generated(p), based, m, sha);
    ClosingRuns(id, digestId, p, based, m, sha);
    ExecInTwo(opening, stores, d, m, sha);
    ExecInTwo(opening + stores, closing, d, m, sha);
  }

  // ------------------------------------------------- whole programs

  /** How many chunks, from the first on, have bytes that match their digests. */
  function Good(pieces: seq<Piece>, sha: Sha): (n: nat)
    requires AllOk(pieces)
    ensures n <= |pieces|
  {
    if pieces == [] || !Hashes(pieces[0], sha) then 0 else 1 + Good(pieces[1..], sha)
  }

  lemma {:induction false} GoodIsFirstBad(pieces: seq<Piece>, sha: Sha)
    requires AllOk(pieces)
    ensures forall i :: 0 <= i < Good(pieces, sha) ==> Hashes(pieces[i], sha)
    ensures Good(pieces, sha) < |pieces| ==> !Hashes(pieces[Good(pieces, sha)], sha)
  {
    hide Hashes;
    if pieces != [] {
      GoodIsFirstBad(pieces[1..], sha);
      assert pieces == [pieces[0]] + pieces[1..];
    }
  }

  function Range(first: nat, n: nat): (r: seq<nat>)
    ensures |r| == n
  {
    seq(n, i requires 0 <= i < n => first + i)
  }

  predicate HasBytes(d: Data, id: nat, bytes: Bytes) {
    id in d.blocks && d.blocks[id].bytes == bytes
  }

  /** The chunks up to the first bad one are in place. */
  ghost predicate Holding(d: Data, first: nat, pieces: seq<Piece>, n: nat)
    requires AllOk(pieces)
  {
    forall i :: 0 <= i < |pieces| && i <= n ==> HasBytes(d, first + i, pieces[i].Content())
  }

  ghost predicate Keeps(d: Data, t: Data, first: nat) {
    forall id :: id in d.blocks && id < first ==> id in t.blocks && t.blocks[id] == d.blocks[id]
  }

  ghost predicate BodyEnd(r: DataEnd, d: Data, first: nat, pieces: seq<Piece>, sha: Sha)
    requires AllOk(pieces)
  {
    var n := Good(pieces, sha);
    && r.data.accepted == d.accepted + Range(first, n)
    && (if n == |pieces| then r.Ran? else r.Halted? && r.reason == AcceptDataWithoutHash)
    && Holding(r.data, first, pieces, n) && Keeps(d, r.data, first)
  }

  ghost predicate Below(ids: seq<nat>, first: nat) {
    StrictlySorted(ids) && forall k :: 0 <= k < |ids| ==> ids[k] < first
  }

  ghost predicate Named(m: Manifest, t: Symbols, first: nat, n: nat) {
    && Table(t) && m.constants == t.names
    && forall id :: first <= id < first + n ==> id in m.dataBlocks
  }

  lemma ChunkOfBody(t: Symbols, first: nat, pieces: seq<Piece>, d: Data, m: Manifest, sha: Sha)
    requires AllOk(pieces) && pieces != [] && Covers(t, pieces) && Named(m, t, first, |pieces|) && Below(d.accepted, first)
    ensures var p := pieces[0];
            var code := ChunkCode(first, IdOf(t, BasisName(p.basis)), IdOf(t, p.digest), p);
            && DataCode(code)
            && ExecData(code, d, m, sha)
            == if Hashes(p, sha) then Ran(AfterPiece(d, first, p, sha).(accepted := d.accepted + [first]))
               else Halted(AfterPiece(d, first, p, sha), AcceptDataWithoutHash)
  {
    hide ExecData, BasisName, ChunkCode, Hashes, AfterPiece, Table;
    IdFits(t, BasisName(pieces[0].basis));
    IdFits(t, pieces[0].digest);
    ChunkRuns(first, IdOf(t, BasisName(pieces[0].basis)), IdOf(t, pieces[0].digest), pieces[0], d, m, sha);
  }

  lemma AfterPieceHolds(d: Data, id: nat, p: Piece, sha: Sha, accepted: seq<nat>)
    requires p.Ok()
    ensures var t := AfterPiece(d, id, p, sha).(accepted := accepted);
            && HasBytes(t, id, p.Content()) && Keeps(d, t, id)
    ensures AfterPiece(d, id, p, sha).accepted == d.accepted
  {
    hide Hashes;
  }

  lemma BodyEndCons(r: DataEnd, d: Data, t: Data, first: nat, pieces: seq<Piece>, sha: Sha)
    requires AllOk(pieces) && pieces != [] && Hashes(pieces[0], sha)
    requires t == AfterPiece(d, first, pieces[0], sha).(accepted := d.accepted + [first])
    requires BodyEnd(r, t, first + 1, pieces[1..], sha)
    ensures BodyEnd(r, d, first, pieces, sha)
  {
    hide Hashes, AfterPiece;
    AfterPieceHolds(d, first, pieces[0], sha, d.accepted + [first]);
    var n := Good(pieces[1..], sha);
    assert [first] + Range(first + 1, n) == Range(first, n + 1);
    assert d.accepted + [first] + Range(first + 1, n) == d.accepted + ([first] + Range(first + 1, n));
    forall i | 0 <= i < |pieces| && i <= n + 1
      ensures HasBytes(r.data, first + i, pieces[i].Content())
    {
      if i > 0 {
        var j := i - 1;
        assert pieces[1..][j] == pieces[i];
        assert first + 1 + j == first + i;
      }
    }
    assert Good(pieces, sha) == n + 1;
    assert Holding(r.data, first, pieces, n + 1);
    assert Keeps(d, r.data, first);
    assert r.data.accepted == d.accepted + Range(first, n + 1);
  }

  lemma BodyEndsHere(d: Data, first: nat, pieces: seq<Piece>, sha: Sha)
    requires AllOk(pieces) && pieces != [] && !Hashes(pieces[0], sha)
    ensures BodyEnd(Halted(AfterPiece(d, first, pieces[0], sha), AcceptDataWithoutHash), d, first, pieces, sha)
  {
    hide Hashes, AfterPiece;
    AfterPieceHolds(d, first, pieces[0], sha, d.accepted);
    assert AfterPiece(d, first, pieces[0], sha).(accepted := d.accepted) == AfterPiece(d, first, pieces[0], sha);
    assert d.accepted + Range(first, 0) == d.accepted;
  }

  lemma NoBodyEnd(d: Data, first: nat, sha: Sha)
    ensures BodyEnd(Ran(d), d, first, [], sha)
  {
    assert d.accepted + Range(first, 0) == d.accepted;
  }

  lemma {:induction false} BodyRuns(t: Symbols, first: nat, pieces: seq<Piece>, d: Data, m: Manifest, sha: Sha)
    requires AllOk(pieces) && Covers(t, pieces) && Named(m, t, first, |pieces|) && Below(d.accepted, first)
    ensures DataCode(BodyCode(t, first, pieces))
    ensures BodyEnd(ExecData(BodyCode(t, first, pieces), d, m, sha), d, first, pieces, sha)
    decreases |pieces|
  {
    hide BasisName, ChunkCode, Hashes, AfterPiece, StepData, BodyEnd, Table;
    if pieces == [] {
      NoBodyEnd(d, first, sha);
    } else {
      var p := pieces[0];
      var code := ChunkCode(first, IdOf(t, BasisName(p.basis)), IdOf(t, p.digest), p);
      ChunkOfBody(t, first, pieces, d, m, sha);
      var u := AfterPiece(d, first, p, sha).(accepted := d.accepted + [first]);
      BodyRuns(t, first + 1, pieces[1..], u, m, sha);
      ExecInTwo(code, BodyCode(t, first + 1, pieces[1..]), d, m, sha);
      if Hashes(p, sha) {
        BodyEndCons(ExecData(BodyCode(t, first, pieces), d, m, sha), d, u, first, pieces, sha);
      } else {
        BodyEndsHere(d, first, pieces, sha);
      }
    }
  }

  /** The last two instructions complete the run. */
  lemma TailCompletes(s: State, m: Manifest, sha: Sha)
    requires EdgesListed(s.graph)
    ensures Run([Instr(EmitReceipt, 0, 0, 0, 0), Instr(Halt, 0, 0, 0, 0)], s, m, sha) == Completed(s.(emitted := true))
  {
    hide EdgesListed;
    var code := [Instr(EmitReceipt, 0, 0, 0, 0), Instr(Halt, 0, 0, 0, 0)];
    assert code[1..] == [Instr(Halt, 0, 0, 0, 0)];
    assert Run(code[1..], s.(emitted := true), m, sha) == Completed(s.(emitted := true));
  }

  /** The run of an assembled program. */
  ghost function Execution(a: Asm, sha: Sha): Final {
    InitialListed();
    Run(a.code, INITIAL, a.Listing(), sha)
  }

  ghost predicate RunAgrees(r: Final, pieces: seq<Piece>, sha: Sha)
    requires AllOk(pieces)
  {
    var n := Good(pieces, sha);
    && (if n == |pieces| then r.Completed? else r.Stopped? && r.reason == AcceptDataWithoutHash)
    && r.state.data.accepted == Range(0, n)
    && Holding(r.state.data, 0, pieces, n)
  }

  /**
   The run of a chunk program. It completes with blocks 0 to n - 1 accepted exactly when all n chunks match
   their digests; otherwise it is blocked at the first chunk that does not, with exactly the earlier blocks
   accepted. The blocks hold the bytes their chunks stand for.
   */
  lemma ProgramOutcome(names: seq<string>, pieces: seq<Piece>, sha: Sha)
    requires |names| == |pieces| && AllOk(pieces) && NoRepeats(names)
    requires AssembleAll(EMPTY, ProgramLines(names, pieces)).Ok?
    ensures RunAgrees(Execution(AssembleAll(EMPTY, ProgramLines(names, pieces)).value, sha), pieces, sha)
  {
    hide AssembleAll, ProgramLines, BodyCode, Run, ExecData, Good, Holding, EdgesListed, AllOk;
    ProgramAssembles(names, pieces);
    var a := AssembleAll(EMPTY, ProgramLines(names, pieces)).value;
    var m, body := a.Listing(), BodyCode(a.constants, 0, pieces);
    var tail := [Instr(EmitReceipt, 0, 0, 0, 0), Instr(Halt, 0, 0, 0, 0)];
    BlocksListed(a, |pieces|);
    InitialListed();
    BodyRuns(a.constants, 0, pieces, INITIAL.data, m, sha);
    RunOfData(body, tail, INITIAL, m, sha);
    var n := Good(pieces, sha);
    assert [] + Range(0, n) == Range(0, n);
    var end := ExecData(body, INITIAL.data, m, sha);
    if end.Ran? {
      TailCompletes(INITIAL.(data := end.data), m, sha);
    }
  }

  lemma InitialListed()
    ensures EdgesListed(INITIAL.graph)
  {
  }

  lemma BlocksListed(a: Asm, n: nat)
    requires Table(a.dataNames) && Table(a.constants) && |a.dataNames.ids| == n
    ensures Named(a.Listing(), a.constants, 0, n)
  {
  }
}
