/**
 The bytes of the BOGPK format (bogvm/container.py), place by place: what its numbers, digests, headers, items and
 residual lists look like, said without the functions that write them.
 */
module FormatMeaning {
  import opened Wrappers
  import opened Powers
  import opened ByteStrings
  import opened Transforms
  import opened Bases
  import opened Optimizer
  import opened Reader
  import opened ResidualCodec
  import opened Containers
  import opened Bogpk
  import opened FormatLanguage

  // ------------------------------------------------- numbers and digests

  /** Byte i of a number is its digit of weight 128 to the i, with the high bit set on all but the last. */
  lemma {:induction false} VaruintDigit(value: nat, i: nat)
    requires i < |EncodeVaruint(value)|
    ensures EncodeVaruint(value)[i] == value / Pow(128, i) % 128 + if i + 1 < |EncodeVaruint(value)| then 128 else 0
    decreases i
  {
    assert Pow(128, 0) == 1;
    if i > 0 {
      VaruintDigit(value / 128, i - 1);
      DivideAgain(value, Pow(128, i - 1));
    }
  }

  lemma DivideAgain(n: nat, p: nat)
    requires p > 0
    ensures n / 128 / p == n / (128 * p)
  {
    var (q, r) := (n / 128 / p, n / 128 % p);
    assert n / 128 == q * p + r;
    assert n == 128 * (q * p + r) + n % 128;
    assert n == q * (128 * p) + (128 * r + n % 128);
    QuotientIs(n, 128 * p, q, 128 * r + n % 128);
  }

  /** The value of a hex digit. */
  function DigitValue(c: char): int {
    if '0' <= c <= '9' then c as int - 48 else c as int - 87
  }

  /** Byte i of a digest is written by its digits 2i and 2i + 1, the high half first. */
  lemma {:induction false} UnhexMeans(value: string, i: nat)
    requires |value| % 2 == 0 && AllHex(value) && 2 * i < |value|
    ensures FromHex(value)[i] == 16 * DigitValue(value[2 * i]) + DigitValue(value[2 * i + 1])
    decreases i
  {
    assert IsHexDigit(value[0]) && IsHexDigit(value[1]);
    if i > 0 {
      UnhexMeans(value[2..], i - 1);
    }
  }

  // ------------------------------------------------- the header

  lemma SizeCodes(chunkSize: nat)
    requires chunkSize in CANDIDATE_CHUNK_SIZES
    ensures chunkSize == match SizeCode(chunkSize) case 0 => 16 case 1 => 32 case 2 => 64 case _ => 128
  {
  }

  lemma NinePlaces(magic: Bytes, fixed: Bytes, tail: Bytes)
    requires |magic| == 6 && |fixed| == 3
    ensures var b := magic + (fixed + tail);
            |b| >= 9 && b[..6] == magic && b[6] == fixed[0] && b[7] == fixed[1] && b[8] == fixed[2] && b[9..] == tail
  {
  }

  lemma FourParts(a: Bytes, b: Bytes, c: Bytes, d: Bytes)
    ensures a + (b + (c + d)) == a + b + c + d
  {
  }

  /** Nine fixed places, then three numbers, then the digest. */
  lemma HeaderLayout(runs: bool, chunkSize: nat, length: nat, count: nat, residuals: nat, sha: string)
    requires chunkSize in CANDIDATE_CHUNK_SIZES && IsSha256(sha)
    ensures var b := EncodeHeader(runs, chunkSize, length, count, residuals, sha);
            && |b| >= 9 && b[..6] == Ascii("BOGPK1") && b[6] == 1 && b[7] == (if runs then 4 else 0)
            && chunkSize == (match b[8] case 0 => 16 case 1 => 32 case 2 => 64 case _ => 128)
            && b[9..] == EncodeVaruint(length) + EncodeVaruint(count) + EncodeVaruint(residuals) + FromHex(sha)
  {
    hide EncodeVaruint, FromHex, AllHex, SizeCode;
    assert BOGPK_MAGIC == Ascii("BOGPK1");
    SizeCodes(chunkSize);
    FourParts(EncodeVaruint(length), EncodeVaruint(count), EncodeVaruint(residuals), FromHex(sha));
    NinePlaces(BOGPK_MAGIC, [BOGPK_VERSION, if runs then FLAG_ZERO_RUNS else 0, SizeCode(chunkSize)],
               EncodeVaruint(length) + (EncodeVaruint(count) + (EncodeVaruint(residuals) + FromHex(sha))));
  }

  // ------------------------------------------------- items

  /** The codes of the transforms and of the bases. */
  lemma Codes()
    ensures TransformIndex(Identity) == 0 && TransformIndex(XorPrevious) == 1 && TransformIndex(DeltaPrevious) == 2
    ensures TransformIndex(NibbleSplit) == 3 && TransformIndex(Mtf) == 4 && TransformIndex(Bwt) == 5 && TransformIndex(BwtMtf) == 6
    ensures BasisIndex(ZeroBlock) == 0 && BasisIndex(RepeatByte) == 1 && BasisIndex(DeltaU8) == 2 && BasisIndex(DictionaryU8) == 3
    ensures BasisIndex(RleU8) == 4 && BasisIndex(RampU8) == 5 && BasisIndex(TriangleU8) == 6 && BasisIndex(Sine8U8) == 7
    ensures BasisIndex(Fourier8U8) == 8
  {
  }

  /** An item: the packed byte, the start, the step, the primary index of a BWT transform, and the residual count. */
  lemma SingleLayout(d: Descriptor)
    ensures var b := ItemBytes(Single(d));
            && |b| >= 3 && b[0] == 32 * TransformIndex(d.transform) + 2 * BasisIndex(d.basis) + (if d.encoding == Bitmask then 1 else 0)
            && b[0] < 255 && b[1] == d.start && b[2] == d.delta
            && b[3..] == (if d.transform == Bwt || d.transform == BwtMtf then EncodeVaruint(d.param) else []) + EncodeVaruint(d.residualCount)
  {
    hide EncodeVaruint;
  }

  /** A run: 255, the number of its chunks, and an item without a count. */
  lemma RunLayout(d: Descriptor, n: nat)
    ensures var (b, k) := (ItemBytes(Run(d, n)), |EncodeVaruint(n)|);
            && |b| >= k + 4 && b[0] == 255 && b[1..k + 1] == EncodeVaruint(n)
            && b[k + 1] == 32 * TransformIndex(d.transform) + 2 * BasisIndex(d.basis) + (if d.encoding == Bitmask then 1 else 0)
            && b[k + 2] == d.start && b[k + 3] == d.delta
            && b[k + 4..] == if d.transform == Bwt || d.transform == BwtMtf then EncodeVaruint(d.param) else []
  {
    hide EncodeVaruint;
  }

  // ------------------------------------------------- residuals

  /** Each patch as the gap since the offset before it, and its byte. */
  function GapParts(residuals: seq<Patch>, length: nat): seq<Bytes>
    requires WellPlaced(residuals, length)
  {
    seq(|residuals|, k requires 0 <= k < |residuals| =>
      EncodeVaruint(if k == 0 then residuals[0].offset else residuals[k].offset - residuals[k - 1].offset - 1) + [residuals[k].value])
  }

  function GapPartsFrom(residuals: seq<Patch>, next: nat, length: nat): seq<Bytes>
    requires Placed(residuals, next, length)
  {
    if residuals == [] then []
    else [EncodeVaruint(residuals[0].offset - next) + [residuals[0].value]] + GapPartsFrom(residuals[1..], residuals[0].offset + 1, length)
  }

  lemma {:induction false} GapsJoin(residuals: seq<Patch>, next: nat, length: nat)
    requires Placed(residuals, next, length)
    ensures EncodeGaps(residuals, next, length) == Join(GapPartsFrom(residuals, next, length))
  {
    hide EncodeVaruint;
    if residuals != [] {
      GapsJoin(residuals[1..], residuals[0].offset + 1, length);
    }
  }

  lemma {:induction false} GapPartAt(residuals: seq<Patch>, next: nat, length: nat, k: nat)
    requires Placed(residuals, next, length) && k < |residuals|
    ensures |GapPartsFrom(residuals, next, length)| == |residuals|
    ensures k > 0 ==> residuals[k].offset > residuals[k - 1].offset
    ensures k == 0 ==> residuals[0].offset >= next
    ensures GapPartsFrom(residuals, next, length)[k]
         == EncodeVaruint(if k == 0 then residuals[0].offset - next else residuals[k].offset - residuals[k - 1].offset - 1) + [residuals[k].value]
    decreases |residuals|
  {
    hide EncodeVaruint;
    if |residuals| > 1 {
      GapPartAt(residuals[1..], residuals[0].offset + 1, length, if k > 0 then k - 1 else 0);
    }
  }

  /** A gap list is the gaps between successive offsets, each followed by the byte to put there. */
  lemma GapsMean(residuals: seq<Patch>, length: nat)
    requires Placed(residuals, 0, length)
    ensures WellPlaced(residuals, length) && EncodeGaps(residuals, 0, length) == Join(GapParts(residuals, length))
  {
    hide EncodeVaruint, EncodeGaps;
    PlacedBounds(residuals, 0, length);
    GapsJoin(residuals, 0, length);
    if residuals != [] {
      GapPartAt(residuals, 0, length, 0);
    } else {
      assert GapPartsFrom(residuals, 0, length) == [];
    }
    forall k | 0 <= k < |residuals|
      ensures GapPartsFrom(residuals, 0, length)[k] == GapParts(residuals, length)[k]
    {
      GapPartAt(residuals, 0, length, k);
    }
    assert GapPartsFrom(residuals, 0, length) == GapParts(residuals, length);
  }

  /** A bitmask has one bit an offset, lowest bit first, and then the bytes in order of offset. */
  lemma BitmaskMeans(residuals: seq<Patch>, length: nat, offset: nat)
    requires offset < length
    ensures var b := EncodeBitmask(residuals, length);
            && |b| == (length + 7) / 8 + |residuals| && offset / 8 < |b|
            && (Bit(b[offset / 8], offset % 8) <==> exists k :: 0 <= k < |residuals| && residuals[k].offset == offset)
            && forall k :: 0 <= k < |residuals| ==> b[(length + 7) / 8 + k] == residuals[k].value
  {
    hide Bit;
    MaskBitIsOffset(residuals, length, offset);
  }

  /** The shorter form is written; the gap list when they are equally long, and when there is nothing to write. */
  lemma ShorterIsWritten(residuals: seq<Patch>, length: nat)
    requires Placed(residuals, 0, length)
    ensures var (gaps, mask) := (|EncodedAs(GapList, residuals, length)|, |EncodedAs(Bitmask, residuals, length)|);
            && BestEncoding(residuals, length) == (if residuals != [] && mask < gaps then Bitmask else GapList)
            && EncodeResiduals(residuals, length) == EncodedAs(BestEncoding(residuals, length), residuals, length)
  {
    hide EncodeGaps, Placed, Mask, Values;
  }

  // ------------------------------------------------- validity

  function LengthBefore(chunks: seq<Chunk>, n: nat): nat
    requires n <= |chunks|
  {
    if n == 0 then 0 else LengthBefore(chunks, n - 1) + chunks[n - 1].length
  }

  function ResidualsBefore(chunks: seq<Chunk>, n: nat): nat
    requires n <= |chunks|
  {
    if n == 0 then 0 else ResidualsBefore(chunks, n - 1) + |chunks[n - 1].residuals|
  }

  /** A digest as the format writes it: 64 hex digits in lower case. */
  predicate IsDigest(value: string) {
    |value| == 64 && forall i :: 0 <= i < 64 ==> '0' <= value[i] <= '9' || 'a' <= value[i] <= 'f'
  }

  /** Chunk i of a valid container: numbered, placed, of 1 to chunkSize bytes, with digests and with patches in order and in range. */
  ghost predicate FitsAt(chunk: Chunk, i: nat, offset: nat, chunkSize: nat) {
    && chunk.index == i && chunk.offset == offset && 1 <= chunk.length <= chunkSize
    && IsDigest(chunk.chunkSha) && IsDigest(chunk.transformedSha) && IsDigest(chunk.originalSha)
    && (forall k :: 0 <= k < |chunk.residuals| ==> chunk.residuals[k].offset < chunk.length)
    && (forall j, k :: 0 <= j < k < |chunk.residuals| ==> chunk.residuals[j].offset < chunk.residuals[k].offset)
  }

  lemma PlacedMeans(residuals: seq<Patch>, length: nat)
    ensures Placed(residuals, 0, length) <==> WellPlaced(residuals, length)
  {
    if Placed(residuals, 0, length) {
      PlacedBounds(residuals, 0, length);
    }
    if WellPlaced(residuals, length) {
      WellPlacedIsPlaced(residuals, 0, length);
    }
  }

  lemma DigestMeans(value: string)
    ensures IsSha256(value) <==> IsDigest(value)
  {
    if IsSha256(value) {
      assert forall i :: 0 <= i < 64 ==> IsHexDigit(value[i]);
    }
  }

  lemma OkMeans(chunk: Chunk, i: nat, offset: nat, chunkSize: nat)
    ensures ChunkOk(chunk, chunkSize) && chunk.index == i && chunk.offset == offset <==> FitsAt(chunk, i, offset, chunkSize)
  {
    hide IsSha256, IsDigest, Placed;
    PlacedMeans(chunk.residuals, chunk.length);
    DigestMeans(chunk.chunkSha);
    DigestMeans(chunk.transformedSha);
    DigestMeans(chunk.originalSha);
  }

  ghost predicate AllFitFrom(chunks: seq<Chunk>, n: nat, chunkSize: nat) {
    forall i :: n <= i < |chunks| ==> FitsAt(chunks[i], i, LengthBefore(chunks, i), chunkSize)
  }

  lemma FitFromNext(chunks: seq<Chunk>, n: nat, chunkSize: nat)
    ensures n < |chunks| ==>
              (AllFitFrom(chunks, n, chunkSize)
               <==> FitsAt(chunks[n], n, LengthBefore(chunks, n), chunkSize) && AllFitFrom(chunks, n + 1, chunkSize))
    ensures n >= |chunks| ==> AllFitFrom(chunks, n, chunkSize)
  {
    hide FitsAt;
  }

  lemma OkFromNext(chunks: seq<Chunk>, n: nat, chunkSize: nat)
    requires n <= |chunks|
    ensures n < |chunks| ==>
              (ChunksOk(chunks[n..], n, LengthBefore(chunks, n), chunkSize)
               <==> FitsAt(chunks[n], n, LengthBefore(chunks, n), chunkSize)
                    && ChunksOk(chunks[n + 1..], n + 1, LengthBefore(chunks, n + 1), chunkSize))
    ensures n == |chunks| ==> ChunksOk(chunks[n..], n, LengthBefore(chunks, n), chunkSize)
  {
    hide FitsAt, ChunkOk;
    if n < |chunks| {
      OkMeans(chunks[n], n, LengthBefore(chunks, n), chunkSize);
      assert chunks[n..][1..] == chunks[n + 1..] && chunks[n..][0] == chunks[n];
    }
  }

  lemma {:induction false} ChunksMean(chunks: seq<Chunk>, n: nat, chunkSize: nat)
    requires n <= |chunks|
    ensures ChunksOk(chunks[n..], n, LengthBefore(chunks, n), chunkSize) <==> AllFitFrom(chunks, n, chunkSize)
    decreases |chunks| - n
  {
    hide FitsAt, ChunksOk, AllFitFrom, LengthBefore;
    FitFromNext(chunks, n, chunkSize);
    OkFromNext(chunks, n, chunkSize);
    if n < |chunks| {
      ChunksMean(chunks, n + 1, chunkSize);
    }
  }

  lemma {:induction false} ResidualsAdd(chunks: seq<Chunk>, n: nat)
    requires n <= |chunks|
    ensures ResidualsBefore(chunks, n) + TotalResiduals(chunks[n..]) == ResidualsBefore(chunks, |chunks|)
    decreases |chunks| - n
  {
    if n < |chunks| {
      ResidualsAdd(chunks, n + 1);
      assert chunks[n..][1..] == chunks[n + 1..];
    }
  }

  /** Which containers are valid. */
  lemma ValidMeans(c: Container)
    ensures Valid(c)
       <==> && c.chunkSize > 0 && IsDigest(c.wholeSha) && |c.chunks| == c.chunkCount
            && ResidualsBefore(c.chunks, |c.chunks|) == c.totalResiduals
            && forall i :: 0 <= i < |c.chunks| ==> FitsAt(c.chunks[i], i, LengthBefore(c.chunks, i), c.chunkSize)
  {
    hide FitsAt, ChunksOk, IsSha256, IsDigest;
    DigestMeans(c.wholeSha);
    ChunksMean(c.chunks, 0, c.chunkSize);
    ResidualsAdd(c.chunks, 0);
    assert c.chunks[0..] == c.chunks;
  }

  // ------------------------------------------------- reconstruction

  /** A chunk reconstructs exactly when its stored bytes have its first two digests and, inverted, its third. */
  lemma ChunkReconstructs(chunk: Chunk, original: Bytes, sha: Sha)
    requires Placed(chunk.residuals, 0, chunk.length)
    ensures ReconstructChunk(chunk, sha) == Ok(original)
       <==> && sha(Stored(chunk)) == chunk.chunkSha == chunk.transformedSha
            && Invert(chunk.transform, Stored(chunk), chunk.param) == Ok(original) && sha(original) == chunk.originalSha
  {
    hide Placed, Invert, Transformed;
  }

  /** The stored bytes of a chunk: the generated block, but for the patched offsets. */
  lemma StoredMeans(chunk: Chunk, i: nat)
    requires Placed(chunk.residuals, 0, chunk.length) && i < chunk.length
    ensures (forall k :: 0 <= k < |chunk.residuals| ==> chunk.residuals[k].offset != i)
            ==> Stored(chunk)[i] == SynthesizeBasis(chunk.basis, chunk.start, chunk.length, chunk.delta)[i]
    ensures forall k :: 0 <= k < |chunk.residuals| && chunk.residuals[k].offset == i ==> Stored(chunk)[i] == chunk.residuals[k].value
  {
    PlacedBounds(chunk.residuals, 0, chunk.length);
    PatchedAt(SynthesizeBasis(chunk.basis, chunk.start, chunk.length, chunk.delta), chunk.residuals, i);
  }

  lemma {:induction false} PatchedAt(base: Bytes, residuals: seq<Patch>, i: nat)
    requires WellPlaced(residuals, |base|) && i < |base|
    ensures (forall k :: 0 <= k < |residuals| ==> residuals[k].offset != i) ==> ApplyPatches(base, residuals)[i] == base[i]
    ensures forall k :: 0 <= k < |residuals| && residuals[k].offset == i ==> ApplyPatches(base, residuals)[i] == residuals[k].value
  {
    if residuals != [] {
      PatchedAt(base, residuals[..|residuals| - 1], i);
    }
  }

  /** The reconstructed chunks of a container. */
  ghost predicate ArePartsOf(c: Container, parts: seq<Bytes>, sha: Sha) {
    && |parts| == |c.chunks|
    && forall i :: 0 <= i < |parts| ==>
         Placed(c.chunks[i].residuals, 0, c.chunks[i].length) && ReconstructChunk(c.chunks[i], sha) == Ok(parts[i])
  }

  /** A whole container reconstructs exactly when it is valid, each chunk does, and the joined bytes have its digest. */
  lemma {:induction false} ContainerReconstructs(c: Container, data: Bytes, sha: Sha)
    ensures Reconstruct(c, sha) == Ok(data)
       <==> && Valid(c) && sha(data) == c.wholeSha
            && exists parts :: ArePartsOf(c, parts, sha) && data == Join(parts)
  {
    hide Placed, ReconstructChunk, ChunksOk, IsSha256, ReconstructChunks, Join;
    if Valid(c) {
      if Reconstruct(c, sha) == Ok(data) {
        var parts := PartsOf(c.chunks, 0, 0, c.chunkSize, sha);
        assert ArePartsOf(c, parts, sha);
      }
      if parts: seq<Bytes> :| ArePartsOf(c, parts, sha) && data == Join(parts) {
        FromParts(c.chunks, 0, 0, c.chunkSize, parts, sha);
      }
    }
  }

  lemma {:induction false} PartsOf(chunks: seq<Chunk>, index: nat, offset: nat, chunkSize: nat, sha: Sha) returns (parts: seq<Bytes>)
    requires ChunksOk(chunks, index, offset, chunkSize) && ReconstructChunks(chunks, index, offset, chunkSize, sha).Ok?
    ensures |parts| == |chunks| && ReconstructChunks(chunks, index, offset, chunkSize, sha) == Ok(Join(parts))
    ensures forall i :: 0 <= i < |parts| ==>
              Placed(chunks[i].residuals, 0, chunks[i].length) && ReconstructChunk(chunks[i], sha) == Ok(parts[i])
    decreases |chunks|
  {
    hide Placed, ReconstructChunk, IsSha256;
    if chunks == [] {
      parts := [];
    } else {
      var others := PartsOf(chunks[1..], index + 1, offset + chunks[0].length, chunkSize, sha);
      parts := [ReconstructChunk(chunks[0], sha).value] + others;
      assert parts[1..] == others;
    }
  }

  lemma {:induction false} FromParts(chunks: seq<Chunk>, index: nat, offset: nat, chunkSize: nat, parts: seq<Bytes>, sha: Sha)
    requires ChunksOk(chunks, index, offset, chunkSize) && |parts| == |chunks|
    requires forall i :: 0 <= i < |parts| ==>
               Placed(chunks[i].residuals, 0, chunks[i].length) && ReconstructChunk(chunks[i], sha) == Ok(parts[i])
    ensures ReconstructChunks(chunks, index, offset, chunkSize, sha) == Ok(Join(parts))
    decreases |chunks|
  {
    hide Placed, ReconstructChunk, IsSha256;
    if chunks != [] {
      forall i | 0 <= i < |parts[1..]|
        ensures Placed(chunks[1..][i].residuals, 0, chunks[1..][i].length) && ReconstructChunk(chunks[1..][i], sha) == Ok(parts[1..][i])
      {
        assert chunks[1..][i] == chunks[i + 1] && parts[1..][i] == parts[i + 1];
      }
      FromParts(chunks[1..], index + 1, offset + chunks[0].length, chunkSize, parts[1..], sha);
    }
  }
}
