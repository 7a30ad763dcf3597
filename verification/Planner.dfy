/**
 Planning and packing (bogvm/optimizer.py, bogvm/container.py): the plan of a chunk, the transform
 tournament, its cost model, and the container built from a byte string.
 */
module Planner {
  import opened Wrappers
  import opened ByteStrings
  import opened Transforms
  import opened Bases
  import opened Optimizer
  import opened Reader
  import opened ResidualCodec
  import opened Containers
  import opened Bogpk
  import opened BogpkProofs

  datatype OptimizerError =
    | OffsetsNotIncreasing | OffsetOutOfRange | PlanLengthMismatch | TargetHashMismatch | ResidualCountMismatch
    | InexactReconstruction | ReconstructedHashMismatch | NotReversible | RestoredHashMismatch | ChunkSizeOutOfRange

  datatype Plan = Plan(
    basis: Basis, start: byte, delta: byte, length: nat, residuals: seq<Patch>, sha256: string,
    residualCount: nat, reconstructedHash: Option<string>)

  // ------------------------------------------------- the plan of one chunk

  function PlanFor(data: Bytes, sha: Sha): (p: Plan)
    ensures p.length == |data| && p.sha256 == sha(data)
  {
    var b := Best(data);
    Plan(b.basis, b.start, b.delta, |data|,
         Patches(data, SynthesizeBasis(b.basis, b.start, |data|, b.delta), |data|), sha(data), b.residualCount, Some(sha(data)))
  }

  /** The chosen basis and its residuals rebuild the chunk, byte for byte. */
  lemma PlanIsExact(data: Bytes, sha: Sha)
    ensures var p := PlanFor(data, sha);
            && |p.residuals| == Best(data).residualCount
            && Placed(p.residuals, 0, p.length)
            && Transformed(p.basis, p.start, p.delta, p.length, p.residuals) == data
  {
    hide Best, Placed, Patches;
    BestIsConsistent(data);
    var p := PlanFor(data, sha);
    var generated := SynthesizeBasis(p.basis, p.start, p.length, p.delta);
    PatchesWellPlaced(data, generated, |data|);
    WellPlacedIsPlaced(p.residuals, 0, p.length);
    PatchesRestore(data, generated, |data|);
    assert data[..|data|] + generated[|data|..] == data;
  }

  lemma PrefixWellPlaced(residuals: seq<Patch>, k: nat, length: nat)
    requires WellPlaced(residuals, length) && k <= |residuals|
    ensures WellPlaced(residuals[..k], length)
  {
  }

  /** The first thing wrong with a list of residuals, if anything is. */
  function Fault(residuals: seq<Patch>, next: nat, length: nat): (r: Option<OptimizerError>)
    ensures r.None? <==> Placed(residuals, next, length)
  {
    if residuals == [] then None
    else if residuals[0].offset < next then Some(OffsetsNotIncreasing)
    else if residuals[0].offset >= length then Some(OffsetOutOfRange)
    else Fault(residuals[1..], residuals[0].offset + 1, length)
  }

  /** Applies residuals in place, refusing lists that are out of order or out of range. */
  method ApplyResiduals(generated: Bytes, residuals: seq<Patch>) returns (r: Result<Bytes, OptimizerError>)
    ensures Placed(residuals, 0, |generated|) ==> WellPlaced(residuals, |generated|)
    ensures r == match Fault(residuals, 0, |generated|)
                 case None => Ok(ApplyPatches(generated, residuals))
                 case Some(e) => Err(e)
  {
    hide ApplyPatches, WellPlaced, Placed;
    if Placed(residuals, 0, |generated|) {
      PlacedBounds(residuals, 0, |generated|);
    }
    var reconstructed := new byte[|generated|](i requires 0 <= i < |generated| => generated[i]);
    assert reconstructed[..] == generated;
    NoPatches(generated);
    assert residuals[0..] == residuals;
    var previous: int := -1;
    for k := 0 to |residuals|
      invariant previous >= -1
      invariant Fault(residuals, 0, |generated|) == Fault(residuals[k..], previous + 1, |generated|)
      invariant Placed(residuals, 0, |generated|) ==>
                  WellPlaced(residuals[..k], |generated|) && reconstructed[..] == ApplyPatches(generated, residuals[..k])
    {
      var patch := residuals[k];
      assert residuals[k..][0] == patch && residuals[k..][1..] == residuals[k + 1..];
      if patch.offset <= previous {
        return Err(OffsetsNotIncreasing);
      }
      if patch.offset >= reconstructed.Length {
        return Err(OffsetOutOfRange);
      }
      assert residuals[..k + 1] == residuals[..k] + [patch];
      if Placed(residuals, 0, |generated|) {
        PrefixWellPlaced(residuals, k + 1, |generated|);
        ApplyLast(generated, residuals[..k], patch);
      }
      reconstructed[patch.offset] := patch.value;
      previous := patch.offset;
    }
    assert residuals[..|residuals|] == residuals && residuals[|residuals|..] == [];
    r := Ok(reconstructed[..]);
  }

  /** The first of the closing checks a plan fails, for residuals in order. */
  function PlanFault(p: Plan, data: Bytes, sha: Sha): Option<OptimizerError>
    requires Placed(p.residuals, 0, p.length)
  {
    var actual := sha(Transformed(p.basis, p.start, p.delta, p.length, p.residuals));
    if p.length != |data| then Some(PlanLengthMismatch)
    else if p.sha256 != sha(data) then Some(TargetHashMismatch)
    else if p.residualCount != |p.residuals| then Some(ResidualCountMismatch)
    else if actual != sha(data) then Some(InexactReconstruction)
    else if p.reconstructedHash.Some? && p.reconstructedHash.value != actual then Some(ReconstructedHashMismatch)
    else None
  }

  method AssertExactReconstruction(p: Plan, data: Bytes, sha: Sha) returns (r: Result<(), OptimizerError>)
    ensures r == match Fault(p.residuals, 0, p.length)
                 case Some(e) => Err(e)
                 case None => match PlanFault(p, data, sha) case Some(e) => Err(e) case None => Ok(())
  {
    hide ApplyPatches, Placed, WellPlaced, Fault;
    var generated := SynthesizeBasis(p.basis, p.start, p.length, p.delta);
    var reconstructed :- ApplyResiduals(generated, p.residuals);
    var actual, expected := sha(reconstructed), sha(data);
    if p.length != |data| {
      return Err(PlanLengthMismatch);
    }
    if p.sha256 != expected {
      return Err(TargetHashMismatch);
    }
    if p.residualCount != |p.residuals| {
      return Err(ResidualCountMismatch);
    }
    if actual != expected {
      return Err(InexactReconstruction);
    }
    if p.reconstructedHash.Some? && p.reconstructedHash.value != actual {
      return Err(ReconstructedHashMismatch);
    }
    r := Ok(());
  }

  method CountStarts(data: Bytes, delta: byte) returns (best: byte)
    ensures best == BestStart(data, delta)
  {
    hide Wrap;
    var counts := new nat[256](_ => 0);
    assert counts[..] == Histogram(data, delta, 0);
    for offset := 0 to |data|
      invariant counts[..] == Histogram(data, delta, offset)
    {
      var start := Suggested(data, delta, offset);
      HistogramStep(data, delta, offset);
      counts[start] := counts[start] + 1;
    }
    best := ArgMax(counts[..]);
  }

  method CoefficientTuplesForBasis(basis: Basis, data: Bytes) returns (tuples: seq<(byte, byte)>)
    ensures tuples == CoefficientTuples(basis, data)
  {
    match basis {
      case ZeroBlock => tuples := [(0, 0)];
      case DeltaU8 =>
        tuples := [];
        for delta := 0 to 256
          invariant |tuples| == delta
          invariant forall d :: 0 <= d < delta ==> tuples[d] == (BestStart(data, d), d)
        {
          var best := CountStarts(data, delta);
          tuples := tuples + [(best, delta)];
        }
      case DictionaryU8 =>
        var common := CountStarts(data, 0);
        tuples := [(if data == [] then 0 else common, 0)];
      case RleU8 =>
        var common := CountStarts(data, 0);
        tuples := [(if data == [] then 0 else common, 0)];
      case _ => tuples := seq(256, s requires 0 <= s < 256 => (s, 0));
    }
  }

  lemma BestOfOneMore(seen: seq<Candidate>, c: Candidate)
    ensures BestOf(seen + [c]) == if seen == [] then c else if Better(c, BestOf(seen)) then c else BestOf(seen)
  {
    assert (seen + [c])[..|seen|] == seen;
  }

  /** The search over every basis and coefficient tuple; the checks it ends with always pass. */
  method OptimizeResidualPlan(data: Bytes, sha: Sha) returns (r: Result<Plan, OptimizerError>)
    ensures r == Ok(PlanFor(data, sha))
  {
    hide BestOf, Best, Better, ResidualCount, CoefficientTuples, Placed, Transformed;
    var best: Candidate := ToCandidate(ZeroBlock, data, (0, 0));
    ghost var seen: seq<Candidate> := [];
    for basisIndex := 0 to |BASIS_ORDER|
      invariant seen == CandidatesUpTo(basisIndex, data)
      invariant seen != [] ==> best == BestOf(seen)
    {
      var basis := BASIS_ORDER[basisIndex];
      var tuples := CoefficientTuplesForBasis(basis, data);
      ghost var before := seen;
      for i := 0 to |tuples|
        invariant seen == before + CandidatesOf(basis, data, i)
        invariant seen != [] ==> best == BestOf(seen)
      {
        var candidate := ToCandidate(basis, data, tuples[i]);
        BestOfOneMore(seen, candidate);
        best := if basisIndex == 0 && i == 0 then candidate else if Better(candidate, best) then candidate else best;
        seen := seen + [candidate];
        assert CandidatesOf(basis, data, i + 1) == CandidatesOf(basis, data, i) + [candidate];
      }
    }
    assert best == Best(data) by { BestIs(data, seen, best); }
    var generated := SynthesizeBasis(best.basis, best.start, |data|, best.delta);
    var residuals := Patches(data, generated, |data|);
    PlanIsExact(data, sha);
    var reconstructed := ApplyResiduals(generated, residuals);
    assert reconstructed == Ok(data) by { ExactApplication(data, sha); }
    var plan := Plan(best.basis, best.start, best.delta, |data|, residuals, sha(data), best.residualCount, Some(sha(reconstructed.value)));
    assert plan == PlanFor(data, sha);
    var checked := AssertExactReconstruction(plan, data, sha);
    r := match checked case Ok(_) => Ok(plan) case Err(e) => Err(e);
  }

  /** Applying the residuals of the plan gives the data back. */
  lemma ExactApplication(data: Bytes, sha: Sha)
    ensures var p := PlanFor(data, sha);
            var generated := SynthesizeBasis(p.basis, p.start, p.length, p.delta);
            && Fault(p.residuals, 0, |generated|) == None && WellPlaced(p.residuals, |generated|)
            && ApplyPatches(generated, p.residuals) == data
  {
    hide Best, Placed, ApplyPatches, Fault, Patches;
    PlanIsExact(data, sha);
    var p := PlanFor(data, sha);
    PlacedBounds(p.residuals, 0, p.length);
  }

  lemma BestIs(data: Bytes, seen: seq<Candidate>, best: Candidate)
    requires seen == CandidatesUpTo(|BASIS_ORDER|, data) && seen != []
    requires best == BestOf(seen)
    ensures best == Best(data)
  {
  }

  // ------------------------------------------------- the cost model

  function TransformCost(t: Transform): nat {
    match t
    case Identity => 0
    case XorPrevious => 1
    case DeltaPrevious => 1
    case NibbleSplit => 1
    case Mtf => 8
    case Bwt => 16
    case BwtMtf => 24
  }

  function BasisCost(basis: Basis): nat {
    match basis
    case ZeroBlock => 0
    case RepeatByte => 1
    case DeltaU8 => 2
    case DictionaryU8 => 3
    case RleU8 => 3
    case RampU8 => 2
    case TriangleU8 => 4
    case Sine8U8 => 5
    case Fourier8U8 => 6
  }

  method EstimateDeltaResidualSize(residuals: seq<Patch>, ghost length: nat) returns (size: nat)
    requires Placed(residuals, 0, length)
    ensures size == |EncodeGaps(residuals, 0, length)|
  {
    hide EncodeVaruint;
    size := 0;
    var previous: int := -1;
    for i := 0 to |residuals|
      invariant previous >= -1 && Placed(residuals[i..], previous + 1, length)
      invariant size + |EncodeGaps(residuals[i..], previous + 1, length)| == |EncodeGaps(residuals, 0, length)|
    {
      var patch := residuals[i];
      assert residuals[i..][0] == patch && residuals[i..][1..] == residuals[i + 1..];
      var width := VaruintSize(if previous < 0 then patch.offset else patch.offset - previous - 1);
      size := size + width + 1;
      previous := patch.offset;
    }
  }

  function ResidualSize(residuals: seq<Patch>, length: nat): nat
    requires Placed(residuals, 0, length)
  {
    var gaps := |EncodeGaps(residuals, 0, length)|;
    if residuals == [] || gaps <= MaskSize(length) + |residuals| then gaps else MaskSize(length) + |residuals|
  }

  /** The size in bytes the planner expects a chunk to take in the container. */
  function ContainerSize(t: Transform, residuals: seq<Patch>, length: nat): nat
    requires Placed(residuals, 0, length)
  {
    3 + (if UsesBwt(t) then 1 else 0) + |EncodeVaruint(|residuals|)| + ResidualSize(residuals, length)
  }

  function DecodeCost(t: Transform, p: Plan): nat {
    p.length + |p.residuals| + TransformCost(t) + BasisCost(p.basis)
  }

  function TotalCost(t: Transform, p: Plan): nat
    requires Placed(p.residuals, 0, p.length)
  {
    16 * ContainerSize(t, p.residuals, p.length) + |p.residuals| + TransformCost(t) + DecodeCost(t, p)
  }

  method ScoreReconstructionPlan(t: Transform, p: Plan) returns (containerSize: nat, decodeCost: nat, totalCost: nat)
    requires Placed(p.residuals, 0, p.length)
    ensures containerSize == ContainerSize(t, p.residuals, p.length)
    ensures decodeCost == DecodeCost(t, p) && totalCost == TotalCost(t, p)
  {
    var residualCount := |p.residuals|;
    var descriptorSize := 3 + if UsesBwt(t) then 1 else 0;
    var gaps := EstimateDeltaResidualSize(p.residuals, p.length);
    var mask := if residualCount > 0 then (p.length + 7) / 8 + residualCount else 0;
    var residualSize := if residualCount > 0 && mask < gaps then mask else gaps;
    var width := VaruintSize(residualCount);
    containerSize := descriptorSize + width + residualSize;
    decodeCost := p.length + residualCount + TransformCost(t) + BasisCost(p.basis);
    totalCost := 16 * containerSize + residualCount + TransformCost(t) + decodeCost;
  }

  /** For chunks of at most 128 bytes the estimate is exactly what the encoder writes outside a run. */
  lemma SizeIsExact(chunk: Chunk)
    requires Placed(chunk.residuals, 0, chunk.length) && chunk.length <= 128
    requires UsesBwt(chunk.transform) ==> chunk.param < chunk.length
    ensures |PlainItem(chunk)| + |EncodeResiduals(chunk.residuals, chunk.length)|
         == ContainerSize(chunk.transform, chunk.residuals, chunk.length)
  {
    hide Mask, EncodeGaps;
  }

  function EstimatedSize(chunks: seq<Chunk>): nat
    requires AllPlaced(chunks)
  {
    if chunks == [] then 0
    else ContainerSize(chunks[0].transform, chunks[0].residuals, chunks[0].length) + EstimatedSize(chunks[1..])
  }

  ghost predicate SmallChunks(chunks: seq<Chunk>) {
    && AllPlaced(chunks)
    && forall k :: 0 <= k < |chunks| ==>
         chunks[k].length <= 128 && (UsesBwt(chunks[k].transform) ==> chunks[k].param < chunks[k].length)
  }

  lemma VaruintShort(n: nat)
    requires n >= 1
    ensures |EncodeVaruint(n)| <= n
  {
  }

  lemma ZeroChunkSize(chunk: Chunk)
    requires chunk.residuals == []
    ensures ContainerSize(chunk.transform, chunk.residuals, chunk.length) == if UsesBwt(chunk.transform) then 5 else 4
  {
  }

  lemma {:induction false} ZeroChunksSize(chunks: seq<Chunk>, n: nat)
    requires SmallChunks(chunks) && n <= |chunks|
    requires forall k :: 0 <= k < n ==> SameZero(chunks[0], chunks[k])
    ensures EstimatedSize(chunks) == n * (if chunks != [] && UsesBwt(chunks[0].transform) then 5 else 4) + EstimatedSize(chunks[n..])
  {
    hide ContainerSize, Placed;
    if n > 0 {
      var width := if UsesBwt(chunks[0].transform) then 5 else 4;
      ZeroChunkSize(chunks[0]);
      forall k | 0 <= k < n - 1
        ensures SameZero(chunks[1..][0], chunks[1..][k])
      {
      }
      ZeroChunksSize(chunks[1..], n - 1);
      assert chunks[1..][n - 1..] == chunks[n..];
      if n > 1 {
        assert SameZero(chunks[0], chunks[1]);
      }
      assert n * width == width + (n - 1) * width;
    }
  }

  lemma RunIsSmaller(chunk: Chunk, run: nat)
    requires run >= 2 && chunk.length <= 128
    requires UsesBwt(chunk.transform) ==> chunk.param < chunk.length
    ensures |RunItem(chunk, run)| < run * if UsesBwt(chunk.transform) then 5 else 4
  {
    VaruintShort(run);
    assert |EncodeParam(chunk.transform, chunk.param)| == if UsesBwt(chunk.transform) then 1 else 0;
  }

  /** The sections never exceed the sum of the estimates, and reach it exactly when no run is written. */
  lemma {:induction false} RunsOnlyShrink(chunks: seq<Chunk>)
    requires SmallChunks(chunks)
    ensures |EncodeDescriptors(chunks)| + |EncodeResidualSection(chunks)| <= EstimatedSize(chunks)
    ensures |EncodeDescriptors(chunks)| + |EncodeResidualSection(chunks)| == EstimatedSize(chunks) <==> !HasRun(chunks)
    decreases |chunks|
  {
    hide Placed, RunItem, PlainItem, EncodeResiduals, ContainerSize, EncodeDescriptors, EncodeResidualSection, ZeroRun, HasRun;
    if chunks == [] {
      EmptySections();
    } else {
      SectionStep(chunks);
      var run := ZeroRun(chunks);
      if run >= 2 {
        RunsOnlyShrink(chunks[run..]);
        RunIsSmaller(chunks[0], run);
        RunChunksEqual(chunks);
        ZeroChunksSize(chunks, run);
      } else {
        RunsOnlyShrink(chunks[1..]);
        SizeIsExact(chunks[0]);
      }
    }
  }

  lemma RunChunksEqual(chunks: seq<Chunk>)
    requires chunks != []
    ensures forall k :: 0 <= k < ZeroRun(chunks) ==> SameZero(chunks[0], chunks[k])
  {
    forall k | 0 <= k < ZeroRun(chunks)
      ensures SameZero(chunks[0], chunks[k])
    {
      assert k > 0 ==> SameZero(chunks[0], chunks[1..][k - 1]);
    }
  }

  /** The bytes in front of the sections. */
  function HeaderSize(c: Container): nat {
    41 + |EncodeVaruint(TotalLength(c.chunks))| + |EncodeVaruint(c.chunkCount)| + |EncodeVaruint(c.totalResiduals)|
  }

  ghost predicate ParamsInRange(chunks: seq<Chunk>) {
    forall k :: 0 <= k < |chunks| ==> UsesBwt(chunks[k].transform) ==> chunks[k].param < chunks[k].length
  }

  lemma {:induction false} EncodableAreSmall(chunks: seq<Chunk>, index: nat, offset: nat, chunkSize: nat)
    requires ChunksOk(chunks, index, offset, chunkSize) && chunkSize <= 128 && ParamsInRange(chunks)
    ensures SmallChunks(chunks)
    decreases |chunks|
  {
    hide Placed, IsSha256;
    if chunks != [] {
      EncodableAreSmall(chunks[1..], index + 1, offset + chunks[0].length, chunkSize);
      assert chunks == [chunks[0]] + chunks[1..];
    }
  }

  /**
   A whole encoding is never longer than its header and the sum of the estimates of its chunks, and is exactly
   that long when no run is written.
   */
  lemma EncodingFitsEstimates(c: Container)
    requires Encode(c).Ok? && ParamsInRange(c.chunks)
    ensures SmallChunks(c.chunks)
    ensures |Encode(c).value| <= HeaderSize(c) + EstimatedSize(c.chunks)
    ensures |Encode(c).value| == HeaderSize(c) + EstimatedSize(c.chunks) <==> !HasRun(c.chunks)
  {
    hide SmallChunks, EncodeDescriptors, EncodeResidualSection, EstimatedSize, ChunksOk, HasRun, EncodeVaruint, FromHex;
    EncodableAreSmall(c.chunks, 0, 0, c.chunkSize);
    OkIsPlaced(c.chunks, 0, 0, c.chunkSize);
    RunsOnlyShrink(c.chunks);
  }
}
