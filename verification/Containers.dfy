/**
 BOGPK containers (bogvm/container.py): what a container holds, when it is valid, and how its bytes are
 reconstructed. SHA-256 is a parameter; digests are hex strings, as in the program.
 */
module Containers {
  import opened Wrappers
  import opened ByteStrings
  import opened Transforms
  import opened Bases
  import opened Optimizer
  import opened Reader
  import opened ResidualCodec

  type Sha = Bytes -> string

  // ------------------------------------------------- digests

  predicate IsHexDigit(c: char) {
    '0' <= c <= '9' || 'a' <= c <= 'f'
  }

  predicate AllHex(value: string) {
    forall i :: 0 <= i < |value| ==> IsHexDigit(value[i])
  }

  predicate IsSha256(value: string) {
    |value| == 64 && AllHex(value)
  }

  /** What is used of SHA-256 outside the workspace journal: its digests are 64 hex digits. */
  ghost predicate HexHash(sha: Sha) {
    forall data :: IsSha256(sha(data))
  }

  function HexDigit(value: nat): (c: char)
    requires value < 16
    ensures IsHexDigit(c)
  {
    if value < 10 then '0' + value as char else 'a' + (value - 10) as char
  }

  function HexValue(c: char): (r: nat)
    requires IsHexDigit(c)
    ensures r < 16 && HexDigit(r) == c
  {
    if c <= '9' then (c - '0') as nat else 10 + (c - 'a') as nat
  }

  /** `bytes.hex()`. */
  function ToHex(data: Bytes): (r: string)
    ensures |r| == 2 * |data| && AllHex(r)
  {
    if data == [] then "" else [HexDigit(data[0] / 16), HexDigit(data[0] % 16)] + ToHex(data[1..])
  }

  /** `bytes.fromhex(...)`. */
  function FromHex(value: string): (r: Bytes)
    requires |value| % 2 == 0 && AllHex(value)
    ensures |r| == |value| / 2
  {
    if value == "" then [] else [16 * HexValue(value[0]) + HexValue(value[1])] + FromHex(value[2..])
  }

  lemma TwoDigits(high: nat, low: nat)
    requires low < 16
    ensures (16 * high + low) / 16 == high && (16 * high + low) % 16 == low
  {
  }

  lemma {:induction false} HexRoundTrip(value: string)
    requires |value| % 2 == 0 && AllHex(value)
    ensures ToHex(FromHex(value)) == value
  {
    hide HexValue, HexDigit, IsHexDigit;
    if value != "" {
      TwoDigits(HexValue(value[0]), HexValue(value[1]));
      HexRoundTrip(value[2..]);
      assert value == [value[0], value[1]] + value[2..];
    }
  }

  // ------------------------------------------------- containers

  datatype Chunk = Chunk(
    index: nat, offset: nat, length: nat,
    basis: Basis, start: byte, delta: byte, transform: Transform, param: nat,
    residuals: seq<Patch>,
    chunkSha: string, transformedSha: string, originalSha: string)

  datatype Container = Container(
    chunkSize: nat, chunkCount: nat, wholeSha: string, totalResiduals: nat, chunks: seq<Chunk>)

  predicate ChunkOk(chunk: Chunk, chunkSize: nat) {
    && 1 <= chunk.length <= chunkSize
    && IsSha256(chunk.chunkSha) && IsSha256(chunk.transformedSha) && IsSha256(chunk.originalSha)
    && Placed(chunk.residuals, 0, chunk.length)
  }

  /** Chunks in order, each starting where the one before it ends. */
  predicate ChunksOk(chunks: seq<Chunk>, index: nat, offset: nat, chunkSize: nat) {
    chunks == []
    || (&& chunks[0].index == index && chunks[0].offset == offset
        && ChunkOk(chunks[0], chunkSize)
        && ChunksOk(chunks[1..], index + 1, offset + chunks[0].length, chunkSize))
  }

  function TotalResiduals(chunks: seq<Chunk>): nat {
    if chunks == [] then 0 else |chunks[0].residuals| + TotalResiduals(chunks[1..])
  }

  function TotalLength(chunks: seq<Chunk>): nat {
    if chunks == [] then 0 else chunks[0].length + TotalLength(chunks[1..])
  }

  predicate Valid(c: Container) {
    && c.chunkSize > 0
    && IsSha256(c.wholeSha)
    && |c.chunks| == c.chunkCount
    && ChunksOk(c.chunks, 0, 0, c.chunkSize)
    && TotalResiduals(c.chunks) == c.totalResiduals
  }

  method ValidateContainer(c: Container) returns (r: Result<(), ContainerError>)
    ensures r == if Valid(c) then Ok(()) else Err(InvalidContainer)
  {
    if c.chunkSize == 0 || !IsSha256(c.wholeSha) || |c.chunks| != c.chunkCount {
      return Err(InvalidContainer);
    }
    var total: nat, expectedOffset: nat := 0, 0;
    for index := 0 to |c.chunks|
      invariant ChunksOk(c.chunks, 0, 0, c.chunkSize) <==> ChunksOk(c.chunks[index..], index, expectedOffset, c.chunkSize)
      invariant TotalResiduals(c.chunks) == total + TotalResiduals(c.chunks[index..])
    {
      var chunk := c.chunks[index];
      assert c.chunks[index..][0] == chunk && c.chunks[index..][1..] == c.chunks[index + 1..];
      if chunk.index != index || chunk.offset != expectedOffset || !ChunkOk(chunk, c.chunkSize) {
        return Err(InvalidContainer);
      }
      total := total + |chunk.residuals|;
      expectedOffset := expectedOffset + chunk.length;
    }
    if total != c.totalResiduals {
      return Err(InvalidContainer);
    }
    r := Ok(());
  }

  // ------------------------------------------------- what a chunk stands for

  /** The stored form of a chunk: its basis with the residuals applied. */
  function Transformed(basis: Basis, start: byte, delta: byte, length: nat, residuals: seq<Patch>): (r: Bytes)
    requires Placed(residuals, 0, length)
    ensures |r| == length
  {
    PlacedBounds(residuals, 0, length);
    ApplyPatches(SynthesizeBasis(basis, start, length, delta), residuals)
  }

  function Stored(chunk: Chunk): (r: Bytes)
    requires Placed(chunk.residuals, 0, chunk.length)
    ensures |r| == chunk.length
  {
    Transformed(chunk.basis, chunk.start, chunk.delta, chunk.length, chunk.residuals)
  }

  /** Patches a synthesized block in place. */
  method SynthesizeResidualChunk(basis: Basis, start: byte, delta: byte, length: nat, residuals: seq<Patch>)
    returns (r: Bytes)
    requires Placed(residuals, 0, length)
    ensures r == Transformed(basis, start, delta, length, residuals)
  {
    PlacedBounds(residuals, 0, length);
    var base := SynthesizeBasis(basis, start, length, delta);
    var data := new byte[length](i requires 0 <= i < length => base[i]);
    assert data[..] == base;
    for k := 0 to |residuals|
      invariant WellPlaced(residuals[..k], length)
      invariant data[..] == ApplyPatches(base, residuals[..k])
    {
      data[residuals[k].offset] := residuals[k].value;
      assert residuals[..k + 1][..k] == residuals[..k];
    }
    assert residuals[..|residuals|] == residuals;
    r := data[..];
  }

  // ------------------------------------------------- reconstruction

  /** The original bytes of one chunk, checked against its three digests. */
  function ReconstructChunk(chunk: Chunk, sha: Sha): Result<Bytes, ContainerError>
    requires Placed(chunk.residuals, 0, chunk.length)
  {
    var stored := Stored(chunk);
    if sha(stored) != chunk.chunkSha then Err(ChunkHashMismatch)
    else if sha(stored) != chunk.transformedSha then Err(TransformedHashMismatch)
    else match Invert(chunk.transform, stored, chunk.param)
      case Err(_) => Err(TransformFailed)
      case Ok(original) => if sha(original) != chunk.originalSha then Err(OriginalHashMismatch) else Ok(original)
  }

  function ReconstructChunks(chunks: seq<Chunk>, index: nat, offset: nat, chunkSize: nat, sha: Sha): Result<Bytes, ContainerError>
    requires ChunksOk(chunks, index, offset, chunkSize)
    decreases |chunks|
  {
    if chunks == [] then Ok([])
    else
      var head :- ReconstructChunk(chunks[0], sha);
      var tail :- ReconstructChunks(chunks[1..], index + 1, offset + chunks[0].length, chunkSize, sha);
      Ok(head + tail)
  }

  function Reconstruct(c: Container, sha: Sha): Result<Bytes, ContainerError> {
    if !Valid(c) then Err(InvalidContainer)
    else
      var data :- ReconstructChunks(c.chunks, 0, 0, c.chunkSize, sha);
      if sha(data) != c.wholeSha then Err(WholeHashMismatch) else Ok(data)
  }
}
