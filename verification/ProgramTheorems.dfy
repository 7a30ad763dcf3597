/** What running compiled containers and packed files comes to. */
module ProgramTheorems {
  import opened Sorting
  import opened ByteStrings
  import opened Bases
  import opened ResidualCodec
  import opened Containers
  import opened Planner
  import opened Builder
  import opened Machine
  import opened Runs
  import opened AssemblyText
  import opened Assembler
  import opened Programs
  import opened ProgramText
  import opened ProgramCode
  import opened ProgramRuns

  // ------------------------------------------------- containers

  lemma {:induction false} ValidPieces(chunks: seq<Chunk>, index: nat, offset: nat, chunkSize: nat)
    requires ChunksOk(chunks, index, offset, chunkSize)
    ensures forall i :: 0 <= i < |chunks| ==> Placed(chunks[i].residuals, 0, chunks[i].length)
    ensures AllOk(Pieces(chunks))
    decreases |chunks|
  {
    hide Placed, IsSha256;
    if chunks != [] {
      ValidPieces(chunks[1..], index + 1, offset + chunks[0].length, chunkSize);
      assert chunks == [chunks[0]] + chunks[1..];
      assert Pieces(chunks) == [PieceOf(chunks[0])] + Pieces(chunks[1..]);
    }
  }

  lemma NamesAreDistinct(prefix: string, n: nat)
    ensures NoRepeats(ChunkNames(prefix, n))
  {
    hide ChunkName;
    forall i, j | 0 <= i < j < n
      ensures ChunkNames(prefix, n)[i] != ChunkNames(prefix, n)[j]
    {
      ChunkNamesDiffer(prefix, i, j);
    }
  }

  /** Chunk i of a container has the bytes its digest names. */
  predicate ChunkMatches(c: Container, i: nat, sha: Sha)
    requires i < |c.chunks| && Placed(c.chunks[i].residuals, 0, c.chunks[i].length)
  {
    sha(Stored(c.chunks[i])) == c.chunks[i].chunkSha
  }

  ghost predicate PlacedChunks(c: Container) {
    forall i :: 0 <= i < |c.chunks| ==> Placed(c.chunks[i].residuals, 0, c.chunks[i].length)
  }

  /** The first n chunks match, and chunk n, if there is one, does not. */
  ghost predicate MatchUpTo(c: Container, n: nat, sha: Sha)
    requires PlacedChunks(c)
  {
    && n <= |c.chunks|
    && (forall i :: 0 <= i < n ==> ChunkMatches(c, i, sha))
    && (n < |c.chunks| ==> !ChunkMatches(c, n, sha))
  }

  /** The run r of a container's program accepted the first n chunks and no others. */
  ghost predicate Accepted(c: Container, r: Final, n: nat)
    requires PlacedChunks(c)
  {
    && (if n == |c.chunks| then r.Completed? else r.Stopped? && r.reason == AcceptDataWithoutHash)
    && r.state.data.accepted == Range(0, n)
    && forall i :: 0 <= i < n && i < |c.chunks| ==> HasBytes(r.state.data, i, Stored(c.chunks[i]))
  }

  /** Chunks that were checked have digests for tokens. */
  lemma {:induction false} ValidDigests(chunks: seq<Chunk>, index: nat, offset: nat, chunkSize: nat)
    requires ChunksOk(chunks, index, offset, chunkSize)
    ensures Digested(Pieces(chunks))
    decreases |chunks|
  {
    hide Placed, IsSha256;
    if chunks != [] {
      ValidDigests(chunks[1..], index + 1, offset + chunks[0].length, chunkSize);
      assert Pieces(chunks) == [PieceOf(chunks[0])] + Pieces(chunks[1..]);
    }
  }

  /** The text of a compiled container assembles as its lines do. */
  lemma CompiledTextReads(c: Container)
    requires Valid(c)
    ensures Assembled(CompiledText(c)) == AssembleAll(EMPTY, CompiledLines(c))
  {
    hide Assembled, AssembleAll, ProgramLines, ChunkNames, ChunksOk, TextOf, Printed, ContainerHeader, Digested, NamesAreTokens, NamesUncut, Header;
    ValidDigests(c.chunks, 0, 0, c.chunkSize);
    PayloadIsToken();
    ChunkNamesWords(PAYLOAD, |c.chunks|);
    ContainerHeaderIsComments(c);
    UncutProgramAssembles(ContainerHeader(c), ChunkNames(PAYLOAD, |c.chunks|), Pieces(c.chunks));
  }

  lemma PayloadIsToken()
    ensures IsToken(PAYLOAD) && !HasHashSign(PAYLOAD)
  {
  }

  /**
   Compiling a valid container, assembling the text and running it agrees with reconstruction chunk by chunk. The
   text assembles exactly within the 16-bit limits; then, with n the number of leading chunks whose patched basis
   matches its digest, the run accepts exactly blocks 0 to n - 1, completes if these are all, and is blocked at
   chunk n otherwise.
   */
  lemma CompiledContainerRuns(c: Container, sha: Sha) returns (n: nat)
    requires Valid(c)
    ensures PlacedChunks(c)
    ensures var r := Assembled(CompiledText(c));
            && (r.Ok? <==> Room(0, {}, Pieces(c.chunks)))
            && (r.Ok? ==> MatchUpTo(c, n, sha) && Accepted(c, Execution(r.value, sha), n))
  {
    hide Assembled, AssembleAll, ProgramLines, Execution, ChunkNames, Placed, RunAgrees, Accepted, MatchUpTo, Room, CompiledText, BodyCode;
    var pieces := Pieces(c.chunks);
    ValidPieces(c.chunks, 0, 0, c.chunkSize);
    NamesAreDistinct(PAYLOAD, |c.chunks|);
    CompiledTextReads(c);
    ProgramAssembles(ChunkNames(PAYLOAD, |c.chunks|), pieces);
    n := Good(pieces, sha);
    if Assembled(CompiledText(c)).Ok? {
      ProgramOutcome(ChunkNames(PAYLOAD, |c.chunks|), pieces, sha);
      Translate(c, Execution(AssembleAll(EMPTY, CompiledLines(c)).value, sha), n, sha);
    }
  }

  lemma Translate(c: Container, r: Final, n: nat, sha: Sha)
    requires PlacedChunks(c) && AllOk(Pieces(c.chunks)) && n == Good(Pieces(c.chunks), sha)
    requires RunAgrees(r, Pieces(c.chunks), sha)
    ensures MatchUpTo(c, n, sha) && Accepted(c, r, n)
  {
    hide Good, Placed, Transformed, HasBytes;
    GoodIsFirstBad(Pieces(c.chunks), sha);
    var pieces := Pieces(c.chunks);
    forall i: nat | i < |c.chunks|
      ensures pieces[i].Content() == Stored(c.chunks[i])
      ensures i <= n ==> HasBytes(r.state.data, i, Stored(c.chunks[i]))
    {
      assert pieces[i] == PieceOf(c.chunks[i]) && 0 + i == i;
    }
  }

  /** A container that reconstructs and is within the limits runs to completion, with all its chunks accepted. */
  lemma ReconstructibleRuns(c: Container, sha: Sha)
    requires Reconstruct(c, sha).Ok? && Room(0, {}, Pieces(c.chunks))
    ensures PlacedChunks(c) && Assembled(CompiledText(c)).Ok?
    ensures var r := Execution(Assembled(CompiledText(c)).value, sha); r.Completed? && Accepted(c, r, |c.chunks|)
  {
    hide Assembled, CompiledText, Execution, ChunksOk, Placed, ChunkMatches, Room;
    var n := CompiledContainerRuns(c, sha);
    if n < |c.chunks| {
      ReconstructedMatches(c.chunks, 0, 0, c.chunkSize, sha, n);
      Mismatch(c, n, sha);
    }
  }

  lemma Mismatch(c: Container, n: nat, sha: Sha)
    requires PlacedChunks(c) && n < |c.chunks| && !ChunkMatches(c, n, sha)
    ensures sha(Stored(c.chunks[n])) != c.chunks[n].chunkSha
  {
  }

  lemma {:induction false} ReconstructedMatches(chunks: seq<Chunk>, index: nat, offset: nat, chunkSize: nat, sha: Sha, i: nat)
    requires ChunksOk(chunks, index, offset, chunkSize) && ReconstructChunks(chunks, index, offset, chunkSize, sha).Ok?
    requires i < |chunks| && Placed(chunks[i].residuals, 0, chunks[i].length)
    ensures sha(Stored(chunks[i])) == chunks[i].chunkSha
    decreases |chunks|
  {
    hide Placed, IsSha256, Stored;
    if i > 0 {
      ReconstructedMatches(chunks[1..], index + 1, offset + chunks[0].length, chunkSize, sha, i - 1);
    }
  }

  // ------------------------------------------------- packed files

  /** The bytes of blocks 0 to n - 1, one after the other. */
  function BlockBytes(d: Data, first: nat, n: nat): Bytes
    decreases n
  {
    if n == 0 then [] else (if first in d.blocks then d.blocks[first].bytes else []) + BlockBytes(d, first + 1, n - 1)
  }

  lemma PlannedPiece(data: Bytes, index: nat, chunkSize: nat, sha: Sha)
    ensures var p := PieceOf(MakeChunk(data, index, chunkSize, false, sha));
            p.Ok() && p.Content() == data && Hashes(p, sha) && p.length == |data|
    ensures PieceOf(MakeChunk(data, index, chunkSize, false, sha)) == PlanPiece(PlanFor(data, sha))
  {
    hide PlanFor, Placed, Transformed;
    PlanIsExact(data, sha);
  }

  /** The planned chunks all match their digests, and their blocks hold the data. */
  lemma {:induction false} PlannedPieces(data: Bytes, index: nat, chunkSize: nat, sha: Sha)
    requires chunkSize > 0
    ensures var pieces := Pieces(MakeChunks(data, index, chunkSize, false, sha));
            && AllOk(pieces) && Good(pieces, sha) == |pieces|
            && (forall i :: 0 <= i < |pieces| ==> pieces[i].length <= chunkSize)
            && (|pieces| > 0 ==> (|pieces| - 1) * chunkSize < |data|)
    decreases |data|
  {
    hide MakeChunk, Hashes, PlanFor;
    if data != [] {
      var n := if |data| < chunkSize then |data| else chunkSize;
      PlannedPiece(data[..n], index, chunkSize, sha);
      PlannedPieces(data[n..], index + 1, chunkSize, sha);
      var head, rest := MakeChunk(data[..n], index, chunkSize, false, sha), MakeChunks(data[n..], index + 1, chunkSize, false, sha);
      assert MakeChunks(data, index, chunkSize, false, sha) == [head] + rest;
      PiecesCons(head, rest, sha);
      OneMoreChunk(|data|, chunkSize, |rest|);
    }
  }

  lemma OneMoreChunk(length: nat, chunkSize: nat, rest: nat)
    requires length > 0 && chunkSize > 0
    requires rest > 0 ==> length >= chunkSize && (rest - 1) * chunkSize < length - chunkSize
    ensures rest * chunkSize < length
  {
    if rest > 0 {
      assert rest * chunkSize == (rest - 1) * chunkSize + chunkSize;
    }
  }

  lemma PiecesCons(head: Chunk, rest: seq<Chunk>, sha: Sha)
    requires PieceOf(head).Ok() && AllOk(Pieces(rest))
    ensures var pieces := Pieces([head] + rest);
            && pieces == [PieceOf(head)] + Pieces(rest) && AllOk(pieces)
            && Good(pieces, sha) == if Hashes(PieceOf(head), sha) then 1 + Good(Pieces(rest), sha) else 0
  {
    hide Hashes, Placed;
    assert ([head] + rest)[1..] == rest;
  }

  lemma {:induction false} BlocksHoldData(d: Data, data: Bytes, index: nat, chunkSize: nat, sha: Sha)
    requires chunkSize > 0
    requires var pieces := Pieces(MakeChunks(data, index, chunkSize, false, sha));
             AllOk(pieces) && Holding(d, index, pieces, |pieces|)
    ensures BlockBytes(d, index, |MakeChunks(data, index, chunkSize, false, sha)|) == data
    decreases |data|
  {
    hide MakeChunk, Hashes, PlanFor, Placed;
    if data != [] {
      var n := if |data| < chunkSize then |data| else chunkSize;
      var head, rest := MakeChunk(data[..n], index, chunkSize, false, sha), MakeChunks(data[n..], index + 1, chunkSize, false, sha);
      assert MakeChunks(data, index, chunkSize, false, sha) == [head] + rest;
      PlannedPiece(data[..n], index, chunkSize, sha);
      PlannedPieces(data[n..], index + 1, chunkSize, sha);
      PiecesCons(head, rest, sha);
      HoldingCons(d, index, Pieces([head] + rest));
      BlocksHoldData(d, data[n..], index + 1, chunkSize, sha);
      assert data == data[..n] + data[n..];
    }
  }

  lemma HoldingCons(d: Data, first: nat, pieces: seq<Piece>)
    requires AllOk(pieces) && Holding(d, first, pieces, |pieces|) && pieces != []
    ensures AllOk(pieces[1..]) && Holding(d, first + 1, pieces[1..], |pieces| - 1)
    ensures HasBytes(d, first, pieces[0].Content())
  {
    hide Placed, Transformed, HasBytes;
    forall i: nat | i < |pieces| - 1
      ensures HasBytes(d, first + 1 + i, pieces[1..][i].Content())
    {
      var j := i + 1;
      assert pieces[j] == pieces[1..][i] && first + j == first + 1 + i;
    }
  }

  /** The names of the nine bases. */
  const BASIS_NAMES: set<string> :=
    {"zero_block", "repeat_byte", "delta_u8", "dictionary_u8", "rle_u8", "ramp_u8", "triangle_u8", "sine8_u8", "fourier8_u8"}

  function Digests(pieces: seq<Piece>): (r: set<string>)
    ensures |r| <= |pieces|
  {
    if pieces == [] then {} else {pieces[0].digest} + Digests(pieces[1..])
  }

  lemma BasisNamed(basis: Basis)
    ensures BasisName(basis) in BASIS_NAMES
  {
  }

  lemma {:induction false} ConstantsAre(pieces: seq<Piece>)
    ensures Constants(pieces) <= BASIS_NAMES + Digests(pieces)
  {
    hide BasisName;
    if pieces != [] {
      BasisNamed(pieces[0].basis);
      ConstantsAre(pieces[1..]);
    }
  }

  lemma UnionCount<T>(a: set<T>, b: set<T>)
    ensures |a + b| <= |a| + |b|
  {
    assert a + b == a + (b - a);
    SubsetCount(b - a, b);
  }

  /** Up to 65527 chunks of at most 65535 bytes are always within the limits. */
  lemma SmallProgramsFit(pieces: seq<Piece>)
    requires |pieces| <= 65527 && forall i :: 0 <= i < |pieces| ==> pieces[i].length <= 65535
    ensures Room(0, {}, pieces)
  {
    ConstantsAre(pieces);
    NineNames();
    UnionCount(BASIS_NAMES, Digests(pieces));
    SubsetCount({} + Constants(pieces), BASIS_NAMES + Digests(pieces));
  }

  lemma NineNames()
    ensures |BASIS_NAMES| <= 9
  {
    var few := {"zero_block", "repeat_byte", "delta_u8"};
    var more := {"dictionary_u8", "rle_u8", "ramp_u8"};
    var rest := {"triangle_u8", "sine8_u8", "fourier8_u8"};
    AtMostThree("zero_block", "repeat_byte", "delta_u8");
    AtMostThree("dictionary_u8", "rle_u8", "ramp_u8");
    AtMostThree("triangle_u8", "sine8_u8", "fourier8_u8");
    UnionCount(few, more);
    UnionCount(few + more, rest);
    assert BASIS_NAMES == few + more + rest;
  }

  lemma AtMostThree<T>(x: T, y: T, z: T)
    ensures |{x, y, z}| <= 3
  {
    assert {x, y, z} == {x} + {y} + {z};
    UnionCount({x}, {y});
    UnionCount({x} + {y}, {z});
  }

  /** The run of the program of n chunks completed, accepted them all, and their blocks are the data. */
  ghost predicate CompletedWith(r: Final, n: nat, data: Bytes) {
    r.Completed? && r.state.data.accepted == Range(0, n) && BlockBytes(r.state.data, 0, n) == data
  }

  lemma AgreedRunCompletes(r: Final, data: Bytes, chunkSize: nat, sha: Sha)
    requires chunkSize > 0
    requires var pieces := Pieces(MakeChunks(data, 0, chunkSize, false, sha)); AllOk(pieces) && RunAgrees(r, pieces, sha)
    ensures CompletedWith(r, |MakeChunks(data, 0, chunkSize, false, sha)|, data)
  {
    hide MakeChunks, Pieces, Good, BlockBytes, Holding, AllOk;
    PlannedPieces(data, 0, chunkSize, sha);
    BlocksHoldData(r.state.data, data, 0, chunkSize, sha);
  }

  /** The text of a pack assembles as its lines do, unless a `#` in its name cuts them; then it is refused. */
  lemma PackedTextReads(data: Bytes, prefix: string, chunkSize: nat, sha: Sha)
    requires IsToken(prefix) && HexHash(sha) && chunkSize > 0
    ensures var r := Assembled(PackedText(data, prefix, chunkSize, sha));
            if data == [] || !HasHashSign(prefix)
            then r == AssembleAll(EMPTY, WrittenLines(prefix, MakeChunks(data, 0, chunkSize, false, sha)))
            else r.Err?
  {
    hide Assembled, AssembleAll, ProgramLines, ChunkName, IsToken, HasHashSign, TextOf, Printed, PackHeader, Digested,
         NamesAreTokens, NamesUncut, Header, IsSha256, Pieces, MakeChunk, HexHash;
    var c := Build(data, chunkSize, false, sha);
    var names := ChunkNames(prefix, |c.chunks|);
    PackedDigests(data, chunkSize, sha);
    ChunkNamesWords(prefix, |c.chunks|);
    PackHeaderIsComments(c);
    if data == [] {
      assert c.chunks == [];
      NoneAreUncut(names);
    }
    if data == [] || !HasHashSign(prefix) {
      UncutProgramAssembles(PackHeader(c), names, Pieces(c.chunks));
    } else {
      ChunkNameWords(prefix, 0);
      assert names[0] == ChunkName(prefix, 0);
      CutProgramIsRefused(PackHeader(c), names, Pieces(c.chunks));
    }
  }

  lemma NoneAreUncut(names: seq<string>)
    requires names == []
    ensures NamesUncut(names)
  {
  }

  lemma PackedDigests(data: Bytes, chunkSize: nat, sha: Sha)
    requires HexHash(sha) && chunkSize > 0
    ensures var c := Build(data, chunkSize, false, sha);
            IsSha256(c.wholeSha) && Digested(Pieces(c.chunks)) && c.chunks == MakeChunks(data, 0, chunkSize, false, sha)
  {
    hide MakeChunks, HexHash, IsSha256, Pieces, ChunksOk, Digested;
    BuiltIsSound(data, chunkSize, false, sha);
    ValidDigests(Build(data, chunkSize, false, sha).chunks, 0, 0, chunkSize);
    assert IsSha256(sha(data)) by { HexAt(sha, data); }
  }

  lemma HexAt(sha: Sha, data: Bytes)
    requires HexHash(sha)
    ensures IsSha256(sha(data))
  {
  }

  /**
   The chunked pack of any data under any name the packer accepts: its text assembles exactly when there are no
   chunks, or the name holds no `#` and the program is within the limits. Then it runs to completion with every
   block accepted, and its blocks are the data, byte for byte.
   */
  lemma PackedProgramCompletes(data: Bytes, prefix: string, chunkSize: nat, sha: Sha)
    requires IsToken(prefix) && HexHash(sha) && 0 < chunkSize <= 65535
    ensures var r := Assembled(PackedText(data, prefix, chunkSize, sha));
            && (r.Ok? <==> data == [] || (!HasHashSign(prefix) && Room(0, {}, Pieces(MakeChunks(data, 0, chunkSize, false, sha)))))
            && (r.Ok? ==> CompletedWith(Execution(r.value, sha), |MakeChunks(data, 0, chunkSize, false, sha)|, data))
  {
    hide Assembled, AssembleAll, ProgramLines, Execution, ChunkNames, MakeChunks, Room, Pieces, RunAgrees, CompletedWith, AllOk,
         NoRepeats, BodyCode, PackedText, HasHashSign, IsToken, HexHash;
    var chunks := MakeChunks(data, 0, chunkSize, false, sha);
    var names := ChunkNames(prefix, |chunks|);
    PackedTextReads(data, prefix, chunkSize, sha);
    PlannedPieces(data, 0, chunkSize, sha);
    NamesAreDistinct(prefix, |chunks|);
    ProgramAssembles(names, Pieces(chunks));
    if data == [] {
      PackedFits(data, chunkSize, sha);
    }
    if Assembled(PackedText(data, prefix, chunkSize, sha)).Ok? {
      ProgramOutcome(names, Pieces(chunks), sha);
      AgreedRunCompletes(Execution(AssembleAll(EMPTY, WrittenLines(prefix, chunks)).value, sha), data, chunkSize, sha);
    }
  }

  /** The limits in terms of the file: up to 65527 chunks fit. */
  lemma PackedFits(data: Bytes, chunkSize: nat, sha: Sha)
    requires 0 < chunkSize <= 65535 && |data| <= 65527 * chunkSize
    ensures Room(0, {}, Pieces(MakeChunks(data, 0, chunkSize, false, sha)))
  {
    hide MakeChunks, Room, Pieces;
    PlannedPieces(data, 0, chunkSize, sha);
    var n := |MakeChunks(data, 0, chunkSize, false, sha)|;
    if n > 65527 {
      MulLe(65527, n - 1, chunkSize);
    }
    SmallProgramsFit(Pieces(MakeChunks(data, 0, chunkSize, false, sha)));
  }

  lemma MulLe(a: nat, b: nat, c: nat)
    requires a <= b
    ensures a * c <= b * c
  {
  }

  lemma OneBlock(r: Final, p: Piece, sha: Sha)
    requires p.Ok() && Hashes(p, sha) && AllOk([p]) && RunAgrees(r, [p], sha)
    ensures CompletedWith(r, 1, p.Content())
  {
    hide Hashes, Placed, Transformed;
    assert [p][1..] == [];
    assert Good([p], sha) == 1;
    HoldingCons(r.state.data, 0, [p]);
    assert BlockBytes(r.state.data, 1, 0) == [];
  }

  /** The text of a single-block pack. */
  lemma BlockTextReads(data: Bytes, name: string, sha: Sha)
    requires IsToken(name) && HexHash(sha)
    ensures var r := Assembled(BlockText(data, name, sha));
            if HasHashSign(name) then r.Err? else r == AssembleAll(EMPTY, BlockLines(data, name, sha))
  {
    hide Assembled, AssembleAll, ProgramLines, IsToken, HasHashSign, TextOf, Printed, IsSha256, PlanFor, HexHash;
    var (names, pieces) := ([name], [PlanPiece(PlanFor(data, sha))]);
    HexAt(sha, data);
    PlanFields(data, sha);
    assert Digested(pieces) && NamesAreTokens(names);
    assert [] + Printed(BlockLines(data, name, sha)) == Printed(BlockLines(data, name, sha));
    if HasHashSign(name) {
      CutProgramIsRefused([], names, pieces);
    } else {
      assert NamesUncut(names);
      UncutProgramAssembles([], names, pieces);
    }
  }

  /**
   The single-block pack of up to 65535 bytes under any name the packer accepts assembles exactly when the name
   holds no `#`, and then completes with its one block holding the data.
   */
  lemma PackedBlockCompletes(data: Bytes, name: string, sha: Sha)
    requires IsToken(name) && HexHash(sha) && |data| <= MAX_U16
    ensures var r := Assembled(BlockText(data, name, sha));
            && (r.Ok? <==> !HasHashSign(name))
            && (r.Ok? ==> CompletedWith(Execution(r.value, sha), 1, data))
  {
    hide Assembled, AssembleAll, ProgramLines, Execution, Room, PlanFor, Hashes, Placed, Transformed, RunAgrees, CompletedWith, BodyCode,
         BlockText, HasHashSign, IsToken, HexHash;
    PlannedPiece(data, 0, 1, sha);
    var p := PlanPiece(PlanFor(data, sha));
    BlockTextReads(data, name, sha);
    SmallProgramsFit([p]);
    ProgramAssembles([name], [p]);
    if !HasHashSign(name) {
      ProgramOutcome([name], [p], sha);
      OneBlock(Execution(AssembleAll(EMPTY, BlockLines(data, name, sha)).value, sha), p, sha);
    }
  }

  const CUT_NAME := "a#b"

  /** The packer accepts the name `a#b`, and the assembler refuses every program packed under it. */
  lemma CutNameIsRefused(data: Bytes, sha: Sha)
    requires HexHash(sha) && |data| <= MAX_U16
    ensures IsToken(CUT_NAME) && Assembled(BlockText(data, CUT_NAME, sha)).Err?
  {
    hide Assembled, BlockText, Execution, CompletedWith, HexHash;
    assert CUT_NAME[1] == '#';
    PackedBlockCompletes(data, CUT_NAME, sha);
  }
}
