/**
 Building containers (bogvm/optimizer.py, bogvm/container.py): the transform tournament, chunking, and the
 theorems that what is packed is what is unpacked, in memory and through the BOGPK format.
 */
module Builder {
  import opened Wrappers
  import opened ByteStrings
  import opened Transforms
  import opened Optimizer
  import opened Reader
  import opened ResidualCodec
  import opened Containers
  import opened Bogpk
  import opened BogpkProofs
  import opened Planner

  // ------------------------------------------------- the transform tournament

  /** One entrant: a transform, the plan of the transformed chunk, and the parts of its score key. */
  datatype Entrant = Entrant(
    index: nat, transform: Transform, param: nat, plan: Plan, totalCost: nat, containerSize: nat, decodeCost: nat)

  function EntrantOf(data: Bytes, index: nat, sha: Sha): (e: Entrant)
    requires index < |TRANSFORM_ORDER|
    ensures e.index == index && e.transform == TRANSFORM_ORDER[index]
  {
    var t := TRANSFORM_ORDER[index];
    var (stored, param) := Apply(t, data);
    var plan := PlanFor(stored, sha);
    PlanIsExact(stored, sha);
    Entrant(index, t, param, plan, TotalCost(t, plan), ContainerSize(t, plan.residuals, plan.length), DecodeCost(t, plan))
  }

  /** The score key up to the transform's position, which no two entrants share. */
  predicate Beats(a: Entrant, b: Entrant) {
    if a.totalCost != b.totalCost then a.totalCost < b.totalCost
    else if a.containerSize != b.containerSize then a.containerSize < b.containerSize
    else if |a.plan.residuals| != |b.plan.residuals| then |a.plan.residuals| < |b.plan.residuals|
    else if a.decodeCost != b.decodeCost then a.decodeCost < b.decodeCost
    else if TransformCost(a.transform) != TransformCost(b.transform) then TransformCost(a.transform) < TransformCost(b.transform)
    else a.index < b.index
  }

  function Winner(data: Bytes, n: nat, sha: Sha): (e: Entrant)
    requires 0 < n <= |TRANSFORM_ORDER|
    ensures e.index < n
  {
    var last := EntrantOf(data, n - 1, sha);
    if n == 1 then last
    else
      var e := Winner(data, n - 1, sha);
      if Beats(last, e) then last else e
  }

  lemma {:induction false} WinnerUnbeaten(data: Bytes, n: nat, sha: Sha, i: nat)
    requires i < n <= |TRANSFORM_ORDER|
    ensures Winner(data, n, sha) == EntrantOf(data, Winner(data, n, sha).index, sha)
    ensures !Beats(EntrantOf(data, i, sha), Winner(data, n, sha))
  {
    hide EntrantOf;
    if n > 1 {
      WinnerUnbeaten(data, n - 1, sha, if i < n - 1 then i else 0);
    }
  }

  /** The winner has the least total cost of the seven transforms, and its plan rebuilds the transformed chunk. */
  lemma WinnerIsCheapest(data: Bytes, t: Transform, sha: Sha)
    ensures var w := Winner(data, |TRANSFORM_ORDER|, sha);
            var stored := Apply(t, data).0;
            && Placed(PlanFor(stored, sha).residuals, 0, |stored|)
            && w.totalCost <= TotalCost(t, PlanFor(stored, sha))
  {
    hide Apply, PlanFor, TotalCost, ContainerSize, DecodeCost, Winner, Placed;
    PlanIsExact(Apply(t, data).0, sha);
    WinnerUnbeaten(data, |TRANSFORM_ORDER|, sha, TransformIndex(t));
  }

  /** The closing checks find nothing wrong with the winner. */
  lemma BestPlan(data: Bytes, best: Entrant, sha: Sha)
    requires best == Winner(data, |TRANSFORM_ORDER|, sha)
    ensures var stored := Apply(best.transform, data).0;
            && best.plan == PlanFor(stored, sha) && Fault(best.plan.residuals, 0, best.plan.length) == None
            && PlanFault(best.plan, stored, sha) == None
    ensures Invert(best.transform, Apply(best.transform, data).0, best.param) == Ok(data)
  {
    hide Apply, Invert, PlanFor, TotalCost, ContainerSize, DecodeCost, Winner, Placed, Transformed;
    WinnerUnbeaten(data, |TRANSFORM_ORDER|, sha, 0);
    PlanIsExact(Apply(best.transform, data).0, sha);
    PlanFields(Apply(best.transform, data).0, sha);
    TransformRoundTrip(best.transform, data);
  }

  lemma PlanFields(data: Bytes, sha: Sha)
    ensures var p := PlanFor(data, sha);
            p.length == |data| && p.sha256 == sha(data) && p.residualCount == Best(data).residualCount
            && p.reconstructedHash == Some(sha(data))
  {
  }

  /** The closing checks of the tournament: exact reconstruction, and the original digest after inversion. */
  method CheckWinner(data: Bytes, best: Entrant, sha: Sha) returns (r: Result<Entrant, OptimizerError>)
    requires best == Winner(data, |TRANSFORM_ORDER|, sha)
    ensures r == Ok(best)
  {
    hide Apply, Invert, Winner, PlanFor, Fault, PlanFault;
    BestPlan(data, best, sha);
    var stored, _ := ApplyTransform(best.transform, data);
    var checked := AssertExactReconstruction(best.plan, stored, sha);
    match checked {
      case Err(e) => return Err(e);
      case Ok(_) =>
    }
    var restored := InvertTransform(best.transform, stored, best.param);
    if restored.Err? || sha(restored.value) != sha(data) {
      return Err(RestoredHashMismatch);
    }
    r := Ok(best);
  }

  /** Runs the seven transforms; the reversibility check and the final digest check always pass. */
  method OptimizeTransformedResidualPlan(data: Bytes, sha: Sha) returns (r: Result<Entrant, OptimizerError>)
    ensures r == Ok(Winner(data, |TRANSFORM_ORDER|, sha))
  {
    hide Apply, Invert, PlanFor, TotalCost, ContainerSize, DecodeCost, Placed, Beats, TransformCost, BasisCost;
    var best := EntrantOf(data, 0, sha);
    for index := 0 to |TRANSFORM_ORDER|
      invariant index > 0 ==> best == Winner(data, index, sha)
    {
      var t := TRANSFORM_ORDER[index];
      var transformed, param := ApplyTransform(t, data);
      var optimized := OptimizeResidualPlan(transformed, sha);
      var plan := optimized.value;
      TransformRoundTrip(t, data);
      var restored := InvertTransform(t, transformed, param);
      if restored != Ok(data) {
        return Err(NotReversible);
      }
      PlanIsExact(transformed, sha);
      var containerSize, decodeCost, totalCost := ScoreReconstructionPlan(t, plan);
      var candidate := Entrant(index, t, param, plan, totalCost, containerSize, decodeCost);
      assert candidate == EntrantOf(data, index, sha);
      if index == 0 || Beats(candidate, best) {
        best := candidate;
      }
    }
    r := CheckWinner(data, best, sha);
  }

  // ------------------------------------------------- chunks

  function MakeChunk(data: Bytes, index: nat, chunkSize: nat, tournament: bool, sha: Sha): Chunk {
    if tournament then
      var w := Winner(data, |TRANSFORM_ORDER|, sha);
      Chunk(index, index * chunkSize, |data|, w.plan.basis, w.plan.start, w.plan.delta, w.transform, w.param,
            w.plan.residuals, w.plan.sha256, w.plan.sha256, sha(data))
    else
      var p := PlanFor(data, sha);
      Chunk(index, index * chunkSize, |data|, p.basis, p.start, p.delta, Identity, 0,
            p.residuals, sha(data), sha(data), sha(data))
  }

  function MakeChunks(data: Bytes, index: nat, chunkSize: nat, tournament: bool, sha: Sha): seq<Chunk>
    requires chunkSize > 0
    decreases |data|
  {
    if data == [] then []
    else
      var n := if |data| < chunkSize then |data| else chunkSize;
      [MakeChunk(data[..n], index, chunkSize, tournament, sha)] + MakeChunks(data[n..], index + 1, chunkSize, tournament, sha)
  }

  function Build(data: Bytes, chunkSize: nat, tournament: bool, sha: Sha): Container
    requires chunkSize > 0
  {
    var chunks := MakeChunks(data, 0, chunkSize, tournament, sha);
    Container(chunkSize, |chunks|, sha(data), TotalResiduals(chunks), chunks)
  }

  lemma MadeChunkIsFaithful(data: Bytes, index: nat, chunkSize: nat, tournament: bool, sha: Sha)
    requires HexHash(sha) && 1 <= |data| <= chunkSize
    ensures var c := MakeChunk(data, index, chunkSize, tournament, sha);
            && c.index == index && c.offset == index * chunkSize && c.length == |data|
            && ChunkOk(c, chunkSize) && Faithful(c, sha) && Original(c) == data
  {
    hide Winner, Invert, Apply, PlanFor, Transformed, Placed, TotalCost, ContainerSize, DecodeCost, IsSha256;
    if tournament {
      var w := Winner(data, |TRANSFORM_ORDER|, sha);
      WinnerUnbeaten(data, |TRANSFORM_ORDER|, sha, 0);
      PlanIsExact(Apply(w.transform, data).0, sha);
      TransformRoundTrip(w.transform, data);
    } else {
      PlanIsExact(data, sha);
      TransformRoundTrip(Identity, data);
      IdentityApplies(data);
    }
  }

  lemma IdentityApplies(data: Bytes)
    ensures Apply(Identity, data) == (data, 0)
  {
  }

  lemma {:induction false} MadeChunksAreCanonical(data: Bytes, index: nat, chunkSize: nat, tournament: bool, sha: Sha)
    requires HexHash(sha) && chunkSize > 0
    ensures var chunks := MakeChunks(data, index, chunkSize, tournament, sha);
            CanonicalChunks(chunks, index, chunkSize, sha) && Originals(chunks, index, chunkSize, sha) == data
    decreases |data|
  {
    hide MakeChunk, ChunkOk, Faithful, Original, HexHash;
    if data != [] {
      var n := if |data| < chunkSize then |data| else chunkSize;
      var chunks := MakeChunks(data, index, chunkSize, tournament, sha);
      MadeChunkIsFaithful(data[..n], index, chunkSize, tournament, sha);
      MadeChunksAreCanonical(data[n..], index + 1, chunkSize, tournament, sha);
      assert chunks[1..] == MakeChunks(data[n..], index + 1, chunkSize, tournament, sha);
      assert data == data[..n] + data[n..];
      assert |chunks| > 1 ==> data[n..] != [];
    }
  }

  // ------------------------------------------------- packing and unpacking

  lemma {:induction false} FaithfulChunksReconstruct(chunks: seq<Chunk>, index: nat, offset: nat, chunkSize: nat, sha: Sha)
    requires CanonicalChunks(chunks, index, chunkSize, sha)
    requires ChunksOk(chunks, index, offset, chunkSize)
    ensures ReconstructChunks(chunks, index, offset, chunkSize, sha) == Ok(Originals(chunks, index, chunkSize, sha))
    decreases |chunks|
  {
    hide ChunkOk, Placed, Stored, Invert;
    if chunks != [] {
      FaithfulChunksReconstruct(chunks[1..], index + 1, offset + chunks[0].length, chunkSize, sha);
    }
  }

  /** A built container is valid and true to its digests, at any chunk size. */
  lemma BuiltIsSound(data: Bytes, chunkSize: nat, tournament: bool, sha: Sha)
    requires HexHash(sha) && chunkSize > 0
    ensures var c := Build(data, chunkSize, tournament, sha);
            && Valid(c) && CanonicalChunks(c.chunks, 0, chunkSize, sha)
            && Originals(c.chunks, 0, chunkSize, sha) == data && TotalLength(c.chunks) == |data|
  {
    hide MakeChunks, CanonicalChunks, ChunksOk, IsSha256, Originals;
    MadeChunksAreCanonical(data, 0, chunkSize, tournament, sha);
    CanonicalIsOk(Build(data, chunkSize, tournament, sha).chunks, 0, 0, chunkSize, sha);
  }

  /**
   Unpacking a packed string returns it, byte for byte: for every input, every chunk size, with or without
   the transform tournament, whatever the digest function is.
   */
  lemma UnpackUndoesPack(data: Bytes, chunkSize: nat, tournament: bool, sha: Sha)
    requires HexHash(sha) && chunkSize > 0
    ensures Reconstruct(Build(data, chunkSize, tournament, sha), sha) == Ok(data)
  {
    hide Build, MakeChunks, CanonicalChunks, Originals, HexHash, ReconstructChunks;
    BuiltIsSound(data, chunkSize, tournament, sha);
    BuildHeader(data, chunkSize, tournament, sha);
    var c := Build(data, chunkSize, tournament, sha);
    FaithfulChunksReconstruct(c.chunks, 0, 0, chunkSize, sha);
  }

  lemma BuildHeader(data: Bytes, chunkSize: nat, tournament: bool, sha: Sha)
    requires chunkSize > 0
    ensures var c := Build(data, chunkSize, tournament, sha);
            c.chunkSize == chunkSize && c.wholeSha == sha(data)
  {
  }

  /** The same through the binary format: pack, encode, decode, unpack. */
  lemma FileRoundTrip(data: Bytes, chunkSize: nat, tournament: bool, sha: Sha)
    requires HexHash(sha) && chunkSize in CANDIDATE_CHUNK_SIZES && |data| < VARUINT_LIMIT
    ensures var encoded := Encode(Build(data, chunkSize, tournament, sha));
            && encoded.Ok? && Decode(encoded.value, sha).Ok?
            && Reconstruct(Decode(encoded.value, sha).value, sha) == Ok(data)
  {
    hide Build, Encode, Decode, Reconstruct, Valid, CanonicalChunks, Originals, HexHash;
    BuiltIsSound(data, chunkSize, tournament, sha);
    BuildHeader(data, chunkSize, tournament, sha);
    UnpackUndoesPack(data, chunkSize, tournament, sha);
    DecodesEncoded(Build(data, chunkSize, tournament, sha), sha);
  }

  method OptimizeChunk(data: Bytes, index: nat, chunkSize: nat, tournament: bool, sha: Sha) returns (chunk: Chunk)
    ensures chunk == MakeChunk(data, index, chunkSize, tournament, sha)
  {
    hide Winner, PlanFor;
    if tournament {
      var optimized := OptimizeTransformedResidualPlan(data, sha);
      var w := optimized.value;
      chunk := Chunk(index, index * chunkSize, |data|, w.plan.basis, w.plan.start, w.plan.delta, w.transform, w.param,
                     w.plan.residuals, w.plan.sha256, w.plan.sha256, sha(data));
    } else {
      var optimized := OptimizeResidualPlan(data, sha);
      var p := optimized.value;
      chunk := Chunk(index, index * chunkSize, |data|, p.basis, p.start, p.delta, Identity, 0,
                     p.residuals, p.sha256, p.sha256, p.sha256);
    }
  }

  /** What the chunking loop has still to take. */
  function LeftFrom(data: Bytes, offset: nat): (left: Bytes) {
    if offset < |data| then data[offset..] else []
  }

  /** The chunks so far, and those of what is left, are the chunks of the whole string. */
  ghost predicate Chunking(data: Bytes, offset: nat, chunks: seq<Chunk>, chunkSize: nat, tournament: bool, sha: Sha)
    requires chunkSize > 0
  {
    chunks + MakeChunks(LeftFrom(data, offset), |chunks|, chunkSize, tournament, sha) == MakeChunks(data, 0, chunkSize, tournament, sha)
  }

  /** One turn of the chunking loop. */
  lemma ChunkStep(data: Bytes, offset: nat, end: nat, chunks: seq<Chunk>, chunkSize: nat, tournament: bool, sha: Sha)
    requires chunkSize > 0 && offset < |data| && Chunking(data, offset, chunks, chunkSize, tournament, sha)
    requires end == if offset + chunkSize <= |data| then offset + chunkSize else |data|
    ensures Chunking(data, offset + chunkSize, chunks + [MakeChunk(data[offset..end], |chunks|, chunkSize, tournament, sha)],
                     chunkSize, tournament, sha)
  {
    hide MakeChunk;
    var left, taken := LeftFrom(data, offset), end - offset;
    assert left[..taken] == data[offset..end] && left[taken..] == LeftFrom(data, offset + chunkSize);
    var head := MakeChunk(left[..taken], |chunks|, chunkSize, tournament, sha);
    var rest := MakeChunks(left[taken..], |chunks| + 1, chunkSize, tournament, sha);
    assert MakeChunks(left, |chunks|, chunkSize, tournament, sha) == [head] + rest;
    assert chunks + ([head] + rest) == (chunks + [head]) + rest;
  }

  lemma ChunkingStarts(data: Bytes, chunkSize: nat, tournament: bool, sha: Sha)
    requires chunkSize > 0
    ensures Chunking(data, 0, [], chunkSize, tournament, sha)
  {
    hide MakeChunks;
    assert LeftFrom(data, 0) == data;
  }

  lemma ChunkingEnds(data: Bytes, offset: nat, chunks: seq<Chunk>, chunkSize: nat, tournament: bool, sha: Sha)
    requires chunkSize > 0 && offset >= |data| && Chunking(data, offset, chunks, chunkSize, tournament, sha)
    ensures Container(chunkSize, |chunks|, sha(data), TotalResiduals(chunks), chunks) == Build(data, chunkSize, tournament, sha)
  {
  }

  method BuildContainer(data: Bytes, chunkSize: int, tournament: bool, sha: Sha) returns (r: Result<Container, OptimizerError>)
    ensures r == if 0 < chunkSize <= 65535 then Ok(Build(data, chunkSize, tournament, sha)) else Err(ChunkSizeOutOfRange)
  {
    hide MakeChunk, MakeChunks, Chunking, Build, TotalResiduals;
    if chunkSize <= 0 || chunkSize > 65535 {
      return Err(ChunkSizeOutOfRange);
    }
    var chunks: seq<Chunk>, total: nat, offset: nat := [], 0, 0;
    NoResiduals();
    ChunkingStarts(data, chunkSize, tournament, sha);
    while offset < |data|
      invariant total == TotalResiduals(chunks)
      invariant Chunking(data, offset, chunks, chunkSize, tournament, sha)
      decreases |data| - offset
    {
      var end := if offset + chunkSize <= |data| then offset + chunkSize else |data|;
      var chunk := OptimizeChunk(data[offset..end], |chunks|, chunkSize, tournament, sha);
      ChunkStep(data, offset, end, chunks, chunkSize, tournament, sha);
      TotalAppend(chunks, chunk);
      total := total + |chunk.residuals|;
      chunks := chunks + [chunk];
      offset := offset + chunkSize;
    }
    ChunkingEnds(data, offset, chunks, chunkSize, tournament, sha);
    r := Ok(Container(chunkSize, |chunks|, sha(data), total, chunks));
  }

  lemma NoResiduals()
    ensures TotalResiduals([]) == 0
  {
  }

  lemma {:induction false} TotalAppend(chunks: seq<Chunk>, chunk: Chunk)
    ensures TotalResiduals(chunks + [chunk]) == TotalResiduals(chunks) + |chunk.residuals|
  {
    if chunks == [] {
      assert chunks + [chunk] == [chunk];
    } else {
      TotalAppend(chunks[1..], chunk);
      assert (chunks + [chunk])[1..] == chunks[1..] + [chunk];
    }
  }

  lemma ReconstructStep(chunks: seq<Chunk>, index: nat, offset: nat, chunkSize: nat, sha: Sha, soFar: Bytes)
    requires ChunksOk(chunks, index, offset, chunkSize) && chunks != []
    ensures var all := ReconstructChunks(chunks, index, offset, chunkSize, sha);
            match ReconstructChunk(chunks[0], sha)
            case Err(e) => all == Err(e)
            case Ok(head) =>
              match ReconstructChunks(chunks[1..], index + 1, offset + chunks[0].length, chunkSize, sha)
              case Err(e) => all == Err(e)
              case Ok(tail) => all.Ok? && soFar + all.value == soFar + head + tail
  {
    hide ReconstructChunk, ChunkOk;
  }

  method CheckChunk(chunk: Chunk, sha: Sha) returns (r: Result<Bytes, ContainerError>)
    requires Placed(chunk.residuals, 0, chunk.length)
    ensures r == ReconstructChunk(chunk, sha)
  {
    var stored := SynthesizeResidualChunk(chunk.basis, chunk.start, chunk.delta, chunk.length, chunk.residuals);
    if sha(stored) != chunk.chunkSha {
      return Err(ChunkHashMismatch);
    }
    if sha(stored) != chunk.transformedSha {
      return Err(TransformedHashMismatch);
    }
    var inverted := InvertTransform(chunk.transform, stored, chunk.param);
    match inverted {
      case Err(_) => return Err(TransformFailed);
      case Ok(original) =>
        if sha(original) != chunk.originalSha {
          return Err(OriginalHashMismatch);
        }
        return Ok(original);
    }
  }

  /** Rebuilds the original bytes chunk by chunk, checking every digest on the way. */
  method ReconstructContainer(c: Container, sha: Sha) returns (r: Result<Bytes, ContainerError>)
    ensures r == Reconstruct(c, sha)
  {
    hide ReconstructChunk, ReconstructChunks, ChunkOk;
    var _ :- ValidateContainer(c);
    var reconstructed: Bytes, offset: nat := [], 0;
    ghost var all := ReconstructChunks(c.chunks, 0, 0, c.chunkSize, sha);
    assert c.chunks[0..] == c.chunks;
    assert all.Ok? ==> [] + all.value == all.value;
    for index := 0 to c.chunkCount
      invariant ChunksOk(c.chunks[index..], index, offset, c.chunkSize)
      invariant match ReconstructChunks(c.chunks[index..], index, offset, c.chunkSize, sha)
                case Err(e) => all == Err(e)
                case Ok(tail) => all == Ok(reconstructed + tail)
    {
      var chunk := c.chunks[index];
      ReconstructStep(c.chunks[index..], index, offset, c.chunkSize, sha, reconstructed);
      assert c.chunks[index..][1..] == c.chunks[index + 1..];
      PlacedOfOk(chunk, c.chunkSize);
      var original :- CheckChunk(chunk, sha);
      reconstructed := reconstructed + original;
      offset := offset + chunk.length;
    }
    NoneLeft(c.chunkCount, offset, c.chunkSize, sha);
    assert c.chunks[c.chunkCount..] == [] && reconstructed + [] == reconstructed;
    if sha(reconstructed) != c.wholeSha {
      return Err(WholeHashMismatch);
    }
    r := Ok(reconstructed);
  }

  lemma PlacedOfOk(chunk: Chunk, chunkSize: nat)
    requires ChunkOk(chunk, chunkSize)
    ensures Placed(chunk.residuals, 0, chunk.length)
  {
  }

  lemma NoneLeft(index: nat, offset: nat, chunkSize: nat, sha: Sha)
    ensures ReconstructChunks([], index, offset, chunkSize, sha) == Ok([])
  {
  }

  // ------------------------------------------------- the chunk-size tournament

  /** The better of the first n candidate sizes: fewest residuals, then fewest chunks, then the smaller size. */
  function AdaptiveSize(data: Bytes, n: nat, tournament: bool, sha: Sha): (size: nat)
    requires 0 < n <= |CANDIDATE_CHUNK_SIZES|
    ensures 0 < size <= 128
  {
    var last := CANDIDATE_CHUNK_SIZES[n - 1];
    if n == 1 then last
    else
      var best := AdaptiveSize(data, n - 1, tournament, sha);
      if SmallerPlan(Build(data, last, tournament, sha), Build(data, best, tournament, sha)) then last else best
  }

  predicate SmallerPlan(a: Container, b: Container) {
    if a.totalResiduals != b.totalResiduals then a.totalResiduals < b.totalResiduals
    else if a.chunkCount != b.chunkCount then a.chunkCount < b.chunkCount
    else a.chunkSize < b.chunkSize
  }

  /** No candidate size gives fewer residuals than the selected one. */
  lemma {:induction false} AdaptiveHasFewestResiduals(data: Bytes, n: nat, i: nat, tournament: bool, sha: Sha)
    requires i < n <= |CANDIDATE_CHUNK_SIZES|
    ensures Build(data, AdaptiveSize(data, n, tournament, sha), tournament, sha).totalResiduals
         <= Build(data, CANDIDATE_CHUNK_SIZES[i], tournament, sha).totalResiduals
  {
    hide Build;
    if n > 1 {
      AdaptiveHasFewestResiduals(data, n - 1, if i < n - 1 then i else 0, tournament, sha);
    }
  }

  method BuildAdaptive(data: Bytes, tournament: bool, sha: Sha) returns (c: Container)
    ensures c == Build(data, AdaptiveSize(data, |CANDIDATE_CHUNK_SIZES|, tournament, sha), tournament, sha)
  {
    hide Build;
    var first := BuildContainer(data, CANDIDATE_CHUNK_SIZES[0], tournament, sha);
    c := first.value;
    for i := 1 to |CANDIDATE_CHUNK_SIZES|
      invariant c == Build(data, AdaptiveSize(data, i, tournament, sha), tournament, sha)
    {
      var size := CANDIDATE_CHUNK_SIZES[i];
      var next := BuildContainer(data, size, tournament, sha);
      if SmallerPlan(next.value, c) {
        c := next.value;
      }
    }
  }
}
