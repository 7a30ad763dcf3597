/**
 The BOGPK binary format (bogvm/container.py): encoder and decoder as functions, and the theorem that the
 decoder undoes the encoder exactly on the canonical containers, which are exactly the ones it returns.
 */
module Bogpk {
  import opened Wrappers
  import opened ByteStrings
  import opened Transforms
  import opened Bases
  import opened Optimizer
  import opened Reader
  import opened ResidualCodec
  import opened Containers

  const BOGPK_MAGIC: Bytes := [66, 79, 71, 80, 75, 49]
  const BOGPK_VERSION: byte := 1
  const FLAG_ZERO_RUNS: byte := 4
  const SENTINEL: byte := 255
  const CANDIDATE_CHUNK_SIZES: seq<nat> := [16, 32, 64, 128]

  // ------------------------------------------------- descriptors

  datatype Descriptor = Descriptor(
    transform: Transform, basis: Basis, start: byte, delta: byte, param: nat,
    residualCount: nat, encoding: ResidualEncoding)

  function TransformIndex(t: Transform): (i: nat)
    ensures i < 7 && TRANSFORM_ORDER[i] == t
  {
    match t
    case Identity => 0
    case XorPrevious => 1
    case DeltaPrevious => 2
    case NibbleSplit => 3
    case Mtf => 4
    case Bwt => 5
    case BwtMtf => 6
  }

  /** Three bits of transform, four of basis, one for the residual encoding. Never the sentinel. */
  function DescriptorByte(t: Transform, basis: Basis, encoding: ResidualEncoding): (r: byte)
    ensures r != SENTINEL
  {
    32 * TransformIndex(t) + 2 * BasisIndex(basis) + if encoding.Bitmask? then 1 else 0
  }

  function DecodeDescriptor(value: byte, start: byte, delta: byte, param: nat, count: nat): Result<Descriptor, ContainerError> {
    if value / 32 >= |TRANSFORM_ORDER| then Err(ReservedTransform)
    else if value / 2 % 16 >= |BASIS_ORDER| then Err(ReservedBasis)
    else Ok(Descriptor(TRANSFORM_ORDER[value / 32], BASIS_ORDER[value / 2 % 16], start, delta, param, count,
                       if value % 2 == 1 then Bitmask else GapList))
  }

  function EncodeParam(t: Transform, param: nat): Bytes {
    if UsesBwt(t) then EncodeVaruint(param) else []
  }

  function ParseParam(s: Bytes, value: byte): Parsed<nat> {
    if value / 32 >= |TRANSFORM_ORDER| then Err(ReservedTransform)
    else if UsesBwt(TRANSFORM_ORDER[value / 32]) then ParseVaruint(s)
    else Ok((0, s))
  }

  function DescriptorOf(chunk: Chunk): Descriptor
    requires Placed(chunk.residuals, 0, chunk.length)
  {
    Descriptor(chunk.transform, chunk.basis, chunk.start, chunk.delta, chunk.param,
               |chunk.residuals|, BestEncoding(chunk.residuals, chunk.length))
  }

  // ------------------------------------------------- the encoder

  /** Residuals of every chunk can be written down. */
  predicate AllPlaced(chunks: seq<Chunk>) {
    forall k :: 0 <= k < |chunks| ==> Placed(chunks[k].residuals, 0, chunks[k].length)
  }

  predicate SameZero(first: Chunk, candidate: Chunk) {
    && candidate.residuals == []
    && candidate.transform == first.transform && candidate.param == first.param
    && candidate.basis == first.basis && candidate.start == first.start && candidate.delta == first.delta
  }

  function Matching(first: Chunk, rest: seq<Chunk>): (n: nat)
    ensures n <= |rest|
    ensures forall k :: 0 <= k < n ==> SameZero(first, rest[k])
  {
    if rest == [] || !SameZero(first, rest[0]) then 0 else 1 + Matching(first, rest[1..])
  }

  /** The length of the run of equal residual-free chunks at the front; 0 if the first has residuals. */
  function ZeroRun(chunks: seq<Chunk>): (n: nat)
    requires chunks != []
    ensures n <= |chunks|
  {
    if chunks[0].residuals != [] then 0 else 1 + Matching(chunks[0], chunks[1..])
  }

  function RunItem(chunk: Chunk, run: nat): Bytes {
    [SENTINEL] + (EncodeVaruint(run) + ([DescriptorByte(chunk.transform, chunk.basis, GapList), chunk.start, chunk.delta]
                                         + EncodeParam(chunk.transform, chunk.param)))
  }

  function PlainItem(chunk: Chunk): Bytes
    requires Placed(chunk.residuals, 0, chunk.length)
  {
    [DescriptorByte(chunk.transform, chunk.basis, BestEncoding(chunk.residuals, chunk.length)), chunk.start, chunk.delta]
    + (EncodeParam(chunk.transform, chunk.param) + EncodeVaruint(|chunk.residuals|))
  }

  function EncodeDescriptors(chunks: seq<Chunk>): Bytes
    requires AllPlaced(chunks)
    decreases |chunks|
  {
    if chunks == [] then []
    else
      var run := ZeroRun(chunks);
      if run >= 2 then RunItem(chunks[0], run) + EncodeDescriptors(chunks[run..])
      else PlainItem(chunks[0]) + EncodeDescriptors(chunks[1..])
  }

  /** Whether any run is written, which sets the header flag. */
  predicate HasRun(chunks: seq<Chunk>)
    decreases |chunks|
  {
    chunks != [] && (ZeroRun(chunks) >= 2 || HasRun(chunks[1..]))
  }

  function EncodeResidualSection(chunks: seq<Chunk>): Bytes
    requires AllPlaced(chunks)
  {
    if chunks == [] then []
    else EncodeResiduals(chunks[0].residuals, chunks[0].length) + EncodeResidualSection(chunks[1..])
  }

  function SizeCode(chunkSize: nat): (i: byte)
    requires chunkSize in CANDIDATE_CHUNK_SIZES
    ensures i < 4 && CANDIDATE_CHUNK_SIZES[i] == chunkSize
  {
    if chunkSize == 16 then 0 else if chunkSize == 32 then 1 else if chunkSize == 64 then 2 else 3
  }

  lemma {:induction false} OkIsPlaced(chunks: seq<Chunk>, index: nat, offset: nat, chunkSize: nat)
    requires ChunksOk(chunks, index, offset, chunkSize)
    ensures AllPlaced(chunks)
    decreases |chunks|
  {
    if chunks != [] {
      OkIsPlaced(chunks[1..], index + 1, offset + chunks[0].length, chunkSize);
      assert chunks == [chunks[0]] + chunks[1..];
    }
  }

  function EncodeHeader(runs: bool, chunkSize: nat, length: nat, count: nat, residuals: nat, sha: string): Bytes
    requires chunkSize in CANDIDATE_CHUNK_SIZES && IsSha256(sha)
  {
    BOGPK_MAGIC
    + ([BOGPK_VERSION, if runs then FLAG_ZERO_RUNS else 0, SizeCode(chunkSize)]
       + (EncodeVaruint(length) + (EncodeVaruint(count) + (EncodeVaruint(residuals) + FromHex(sha)))))
  }

  function Encode(c: Container): Result<Bytes, ContainerError> {
    if !Valid(c) then Err(InvalidContainer)
    else if c.chunkSize !in CANDIDATE_CHUNK_SIZES then Err(ChunkSizeNotEncodable)
    else
      OkIsPlaced(c.chunks, 0, 0, c.chunkSize);
      Ok(EncodeHeader(HasRun(c.chunks), c.chunkSize, TotalLength(c.chunks), c.chunkCount, c.totalResiduals, c.wholeSha)
         + (EncodeDescriptors(c.chunks) + EncodeResidualSection(c.chunks)))
  }

  // ------------------------------------------------- the decoder

  datatype Header = Header(
    runs: bool, chunkSize: nat, originalLength: nat, chunkCount: nat, totalResiduals: nat, wholeSha: string)

  function ParseFlags(s: Bytes): (r: Parsed<(bool, nat)>)
    ensures r.Ok? ==> r.value.0.1 in CANDIDATE_CHUNK_SIZES
  {
    var (magic, s1) :- ParseBytes(s, |BOGPK_MAGIC|);
    if magic != BOGPK_MAGIC then Err(InvalidMagic)
    else
      var (version, s2) :- ParseByte(s1);
      if version != BOGPK_VERSION then Err(UnsupportedVersion)
      else
        var (flags, s3) :- ParseByte(s2);
        if flags / 8 != 0 then Err(UnsupportedFlags)
        else if flags % 4 != 0 then Err(HashStreamsNotImplemented)
        else
          var (code, s4) :- ParseByte(s3);
          if code >= |CANDIDATE_CHUNK_SIZES| then Err(InvalidChunkSizeCode)
          else Ok(((flags / 4 == 1, CANDIDATE_CHUNK_SIZES[code]), s4))
  }

  function ExpectedChunkCount(originalLength: nat, chunkSize: nat): nat
    requires chunkSize > 0
  {
    if originalLength == 0 then 0 else (originalLength + chunkSize - 1) / chunkSize
  }

  function ParseHeader(s: Bytes): Parsed<Header> {
    var ((runs, chunkSize), s1) :- ParseFlags(s);
    var (originalLength, s2) :- ParseVaruint(s1);
    var (chunkCount, s3) :- ParseVaruint(s2);
    var (total, s4) :- ParseVaruint(s3);
    var (digest, s5) :- ParseBytes(s4, 32);
    if originalLength == 0 && chunkCount != 0 then Err(ChunksWithoutLength)
    else if originalLength > 0 && chunkCount == 0 then Err(LengthWithoutChunks)
    else if chunkCount != ExpectedChunkCount(originalLength, chunkSize) then Err(ChunkCountMismatch)
    else if total > originalLength then Err(ResidualTotalTooLarge)
    else Ok((Header(runs, chunkSize, originalLength, chunkCount, total, ToHex(digest)), s5))
  }

  function Repeat(d: Descriptor, n: nat): (r: seq<Descriptor>)
    ensures |r| == n
  {
    seq(n, _ => d)
  }

  /** Reads `left` descriptors. */
  function ParseDescriptors(s: Bytes, runs: bool, left: nat): Parsed<seq<Descriptor>>
    decreases left
  {
    if left == 0 then Ok(([], s))
    else
      var (marker, s1) :- ParseByte(s);
      if marker == SENTINEL then
        if !runs then Err(SentinelWithoutFlag)
        else
          var (run, s2) :- ParseVaruint(s1);
          if run < 2 then Err(RunTooShort)
          else
            var (d, s3) :- ParseDescriptor(s2);
            var (param, s4) :- ParseParam(s3, d.0);
            if run > left then Err(RunTooLong)
            else
              var descriptor :- DecodeDescriptor(d.0, d.1, d.2, param, 0);
              var (others, rest) :- ParseDescriptors(s4, runs, left - run);
              Ok((Repeat(descriptor, run) + others, rest))
      else
        var (d, s2) :- ParseDescriptor(s);
        var (param, s3) :- ParseParam(s2, marker);
        var (count, s4) :- ParseVaruint(s3);
        var descriptor :- DecodeDescriptor(marker, d.1, d.2, param, count);
        var (others, rest) :- ParseDescriptors(s4, runs, left - 1);
        Ok(([descriptor] + others, rest))
  }

  /** The three fixed bytes of a descriptor: its packed byte, the start byte and the step. */
  function ParseDescriptor(s: Bytes): Parsed<(byte, byte, byte)> {
    var (value, s1) :- ParseByte(s);
    var (start, s2) :- ParseByte(s1);
    var (delta, s3) :- ParseByte(s2);
    Ok(((value, start, delta), s3))
  }

  function DecodedChunkLength(index: nat, h: Header): Result<nat, ContainerError> {
    if index + 1 < h.chunkCount then Ok(h.chunkSize)
    else
      var last: int := h.originalLength - (h.chunkCount - 1) * h.chunkSize;
      if 1 <= last <= h.chunkSize then Ok(last) else Err(FinalLengthInvalid)
  }

  /** The chunk a descriptor and its residuals stand for, and its original bytes. */
  function BuildChunk(d: Descriptor, index: nat, chunkSize: nat, length: nat, residuals: seq<Patch>, sha: Sha):
      Result<(Chunk, Bytes), ContainerError>
    requires Placed(residuals, 0, length)
  {
    var stored := Transformed(d.basis, d.start, d.delta, length, residuals);
    match Invert(d.transform, stored, d.param)
    case Err(_) => Err(TransformFailed)
    case Ok(original) =>
      Ok((Chunk(index, index * chunkSize, length, d.basis, d.start, d.delta, d.transform, d.param, residuals,
                sha(stored), sha(stored), sha(original)), original))
  }

  function ParseChunk(s: Bytes, d: Descriptor, index: nat, h: Header, sha: Sha): Parsed<(Chunk, Bytes)> {
    var length :- DecodedChunkLength(index, h);
    var (residuals, rest) :- ParseResiduals(s, d.encoding, d.residualCount, length);
    var built :- BuildChunk(d, index, h.chunkSize, length, residuals, sha);
    Ok((built, rest))
  }

  function ParseChunks(s: Bytes, ds: seq<Descriptor>, index: nat, h: Header, sha: Sha): Parsed<(seq<Chunk>, Bytes)>
    decreases |ds|
  {
    if ds == [] then Ok((([], []), s))
    else
      var ((chunk, original), s1) :- ParseChunk(s, ds[0], index, h, sha);
      var ((chunks, originals), rest) :- ParseChunks(s1, ds[1..], index + 1, h, sha);
      Ok((([chunk] + chunks, original + originals), rest))
  }

  function Decode(data: Bytes, sha: Sha): Result<Container, ContainerError> {
    var (h, s1) :- ParseHeader(data);
    var (ds, s2) :- ParseDescriptors(s1, h.runs, h.chunkCount);
    var ((chunks, originals), rest) :- ParseChunks(s2, ds, 0, h, sha);
    if TotalResiduals(chunks) != h.totalResiduals then Err(ResidualTotalMismatch)
    else if rest != [] then Err(TrailingBytes)
    else if |originals| != h.originalLength then Err(LengthMismatch)
    else if sha(originals) != h.wholeSha then Err(WholeHashMismatch)
    else Ok(Container(h.chunkSize, h.chunkCount, h.wholeSha, h.totalResiduals, chunks))
  }
}
