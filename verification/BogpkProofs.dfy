/** The BOGPK round trip: which containers survive encoding and decoding, and that no others are ever decoded. */
module BogpkProofs {
  import opened Wrappers
  import opened Powers
  import opened ByteStrings
  import opened Transforms
  import opened Bases
  import opened Optimizer
  import opened Reader
  import opened ResidualCodec
  import opened Containers
  import opened Bogpk

  /** A chunk whose digests are those of its bytes, with a parameter its transform can use. */
  ghost predicate Faithful(chunk: Chunk, sha: Sha)
    requires Placed(chunk.residuals, 0, chunk.length)
  {
    && (if UsesBwt(chunk.transform) then chunk.param < chunk.length else chunk.param == 0)
    && chunk.chunkSha == chunk.transformedSha == sha(Stored(chunk))
    && chunk.originalSha == sha(Original(chunk))
  }

  /** The bytes a chunk was made from. */
  function Original(chunk: Chunk): (r: Bytes)
    requires Placed(chunk.residuals, 0, chunk.length)
    requires UsesBwt(chunk.transform) ==> chunk.param < chunk.length
    ensures |r| == chunk.length
  {
    Invert(chunk.transform, Stored(chunk), chunk.param).value
  }

  /** Chunks in order, each faithful, all of them full but the last. */
  ghost predicate CanonicalChunks(chunks: seq<Chunk>, index: nat, chunkSize: nat, sha: Sha) {
    chunks == []
    || (&& chunks[0].index == index && chunks[0].offset == index * chunkSize
        && ChunkOk(chunks[0], chunkSize)
        && (|chunks| > 1 ==> chunks[0].length == chunkSize)
        && Faithful(chunks[0], sha)
        && CanonicalChunks(chunks[1..], index + 1, chunkSize, sha))
  }

  function Originals(chunks: seq<Chunk>, index: nat, chunkSize: nat, ghost sha: Sha): (r: Bytes)
    requires CanonicalChunks(chunks, index, chunkSize, sha)
    ensures |r| == TotalLength(chunks)
    decreases |chunks|
  {
    if chunks == [] then []
    else Original(chunks[0]) + Originals(chunks[1..], index + 1, chunkSize, sha)
  }

  /**
   The containers the format can carry: valid, of a size the header can name, short enough for the
   reader's integers, cut into full chunks, and true to their digests.
   */
  ghost predicate Canonical(c: Container, sha: Sha) {
    && Valid(c)
    && c.chunkSize in CANDIDATE_CHUNK_SIZES
    && TotalLength(c.chunks) < VARUINT_LIMIT
    && CanonicalChunks(c.chunks, 0, c.chunkSize, sha)
    && c.wholeSha == sha(Originals(c.chunks, 0, c.chunkSize, sha))
  }

  // ------------------------------------------------- descriptors

  lemma DescriptorRoundTrip(t: Transform, basis: Basis, encoding: ResidualEncoding)
    ensures DescriptorByte(t, basis, encoding) / 32 == TransformIndex(t)
    ensures DescriptorByte(t, basis, encoding) / 2 % 16 == BasisIndex(basis)
    ensures DescriptorByte(t, basis, encoding) % 2 == if encoding.Bitmask? then 1 else 0
  {
    var i, j, f := TransformIndex(t), BasisIndex(basis), if encoding.Bitmask? then 1 else 0;
    assert (32 * i + 2 * j + f) / 2 == 16 * i + j;
  }

  lemma ParsesDescriptor(t: Transform, basis: Basis, encoding: ResidualEncoding, start: byte, delta: byte, param: nat, count: nat)
    ensures DecodeDescriptor(DescriptorByte(t, basis, encoding), start, delta, param, count)
         == Ok(Descriptor(t, basis, start, delta, param, count, encoding))
  {
    hide DescriptorByte;
    DescriptorRoundTrip(t, basis, encoding);
  }

  lemma ParsesParam(t: Transform, param: nat, basis: Basis, encoding: ResidualEncoding, rest: Bytes)
    requires param < VARUINT_LIMIT && (!UsesBwt(t) ==> param == 0)
    ensures ParseParam(EncodeParam(t, param) + rest, DescriptorByte(t, basis, encoding)) == Ok((param, rest))
  {
    hide DescriptorByte, ParseVaruint, EncodeVaruint;
    DescriptorRoundTrip(t, basis, encoding);
    if UsesBwt(t) {
      VaruintExact(EncodeVaruint(param) + rest, param, rest);
    } else {
      assert [] + rest == rest;
    }
  }

  lemma ParsesThree(a: byte, b: byte, c: byte, rest: Bytes)
    ensures ParseDescriptor([a, b, c] + rest) == Ok(((a, b, c), rest))
  {
    var s := [a, b, c] + rest;
    assert s[1..] == [b, c] + rest;
    assert s[1..][1..] == [c] + rest;
    assert s[1..][1..][1..] == rest;
  }

  ghost predicate Encodable(chunk: Chunk) {
    && Placed(chunk.residuals, 0, chunk.length)
    && chunk.length < VARUINT_LIMIT
    && (if UsesBwt(chunk.transform) then chunk.param < chunk.length else chunk.param == 0)
  }

  lemma ParsesRunItem(chunk: Chunk, run: nat, tail: Bytes, left: nat)
    requires Encodable(chunk) && chunk.residuals == []
    requires 2 <= run <= left && run < VARUINT_LIMIT
    requires ParseDescriptors(tail, true, left - run).Ok?
    ensures var (others, rest) := ParseDescriptors(tail, true, left - run).value;
            ParseDescriptors(RunItem(chunk, run) + tail, true, left)
            == Ok((Repeat(DescriptorOf(chunk), run) + others, rest))
  {
    hide DescriptorByte, DecodeDescriptor, EncodeParam, EncodeVaruint, ParseVaruint, ParseParam, ParseDescriptor;
    var value := DescriptorByte(chunk.transform, chunk.basis, GapList);
    var afterParam := EncodeParam(chunk.transform, chunk.param) + tail;
    var afterRun := [value, chunk.start, chunk.delta] + afterParam;
    var s := RunItem(chunk, run) + tail;
    assert s[1..] == EncodeVaruint(run) + afterRun;
    VaruintExact(s[1..], run, afterRun);
    ParsesThree(value, chunk.start, chunk.delta, afterParam);
    ParsesParam(chunk.transform, chunk.param, chunk.basis, GapList, tail);
    ParsesDescriptor(chunk.transform, chunk.basis, GapList, chunk.start, chunk.delta, chunk.param, 0);
  }

  lemma ParsesPlainItem(chunk: Chunk, runs: bool, tail: Bytes, left: nat)
    requires Encodable(chunk)
    requires left >= 1
    requires ParseDescriptors(tail, runs, left - 1).Ok?
    ensures var (others, rest) := ParseDescriptors(tail, runs, left - 1).value;
            ParseDescriptors(PlainItem(chunk) + tail, runs, left) == Ok(([DescriptorOf(chunk)] + others, rest))
  {
    hide DecodeDescriptor, EncodeParam, EncodeVaruint, ParseVaruint, ParseParam, ParseDescriptor, BestEncoding;
    var encoding := BestEncoding(chunk.residuals, chunk.length);
    var value := DescriptorByte(chunk.transform, chunk.basis, encoding);
    var count := |chunk.residuals|;
    PlacedCount(chunk.residuals, 0, chunk.length);
    var afterParam := EncodeVaruint(count) + tail;
    var afterFixed := EncodeParam(chunk.transform, chunk.param) + afterParam;
    var s := PlainItem(chunk) + tail;
    assert s == [value, chunk.start, chunk.delta] + afterFixed;
    ParsesThree(value, chunk.start, chunk.delta, afterFixed);
    ParsesParam(chunk.transform, chunk.param, chunk.basis, encoding, afterParam);
    VaruintExact(afterParam, count, tail);
    ParsesDescriptor(chunk.transform, chunk.basis, encoding, chunk.start, chunk.delta, chunk.param, count);
  }

  function DescriptorsOf(chunks: seq<Chunk>): (r: seq<Descriptor>)
    requires AllPlaced(chunks)
    ensures |r| == |chunks|
  {
    seq(|chunks|, k requires 0 <= k < |chunks| => DescriptorOf(chunks[k]))
  }

  ghost predicate AllEncodable(chunks: seq<Chunk>) {
    forall k :: 0 <= k < |chunks| ==> Encodable(chunks[k])
  }

  lemma RunDescriptors(chunks: seq<Chunk>)
    requires AllEncodable(chunks) && chunks != []
    requires ZeroRun(chunks) >= 2
    ensures DescriptorsOf(chunks)
         == Repeat(DescriptorOf(chunks[0]), ZeroRun(chunks)) + DescriptorsOf(chunks[ZeroRun(chunks)..])
  {
    forall k | 0 <= k < ZeroRun(chunks)
      ensures DescriptorOf(chunks[k]) == DescriptorOf(chunks[0])
    {
      assert k > 0 ==> SameZero(chunks[0], chunks[1..][k - 1]);
    }
  }

  lemma HeadDescriptor(chunks: seq<Chunk>)
    requires AllEncodable(chunks) && chunks != []
    ensures DescriptorsOf(chunks) == [DescriptorOf(chunks[0])] + DescriptorsOf(chunks[1..])
  {
  }

  lemma RunStep(chunks: seq<Chunk>, rest: Bytes)
    requires AllEncodable(chunks) && AllPlaced(chunks) && |chunks| < VARUINT_LIMIT
    requires chunks != [] && ZeroRun(chunks) >= 2
    requires ParseDescriptors(EncodeDescriptors(chunks[ZeroRun(chunks)..]) + rest, true, |chunks| - ZeroRun(chunks))
          == Ok((DescriptorsOf(chunks[ZeroRun(chunks)..]), rest))
    ensures ParseDescriptors(EncodeDescriptors(chunks) + rest, true, |chunks|) == Ok((DescriptorsOf(chunks), rest))
  {
    hide ParseDescriptors, RunItem, DescriptorOf, DescriptorsOf, Placed, Repeat, Matching;
    var run := ZeroRun(chunks);
    var tail := EncodeDescriptors(chunks[run..]) + rest;
    assert Encodable(chunks[0]);
    ParsesRunItem(chunks[0], run, tail, |chunks|);
    RunDescriptors(chunks);
    assert EncodeDescriptors(chunks) + rest == RunItem(chunks[0], run) + tail;
  }

  lemma PlainStep(chunks: seq<Chunk>, runs: bool, rest: Bytes)
    requires AllEncodable(chunks) && AllPlaced(chunks)
    requires chunks != [] && ZeroRun(chunks) < 2
    requires ParseDescriptors(EncodeDescriptors(chunks[1..]) + rest, runs, |chunks| - 1)
          == Ok((DescriptorsOf(chunks[1..]), rest))
    ensures ParseDescriptors(EncodeDescriptors(chunks) + rest, runs, |chunks|) == Ok((DescriptorsOf(chunks), rest))
  {
    hide ParseDescriptors, PlainItem, DescriptorOf, DescriptorsOf, Placed, ZeroRun;
    var tail := EncodeDescriptors(chunks[1..]) + rest;
    assert Encodable(chunks[0]);
    ParsesPlainItem(chunks[0], runs, tail, |chunks|);
    HeadDescriptor(chunks);
    assert EncodeDescriptors(chunks) + rest == PlainItem(chunks[0]) + tail;
  }

  lemma {:induction false} HasRunLater(chunks: seq<Chunk>, k: nat)
    requires k <= |chunks| && HasRun(chunks[k..])
    ensures HasRun(chunks)
  {
    if k > 0 {
      assert chunks[1..][k - 1..] == chunks[k..];
      HasRunLater(chunks[1..], k - 1);
    }
  }

  lemma EncodableFrom(chunks: seq<Chunk>, k: nat)
    requires AllEncodable(chunks) && k <= |chunks|
    ensures AllEncodable(chunks[k..]) && AllPlaced(chunks[k..])
  {
  }

  /** The descriptor section reads back as one descriptor a chunk, runs expanded. */
  lemma {:induction false} DescriptorsRoundTrip(chunks: seq<Chunk>, runs: bool, rest: Bytes)
    requires AllEncodable(chunks) && |chunks| < VARUINT_LIMIT
    requires HasRun(chunks) ==> runs
    ensures AllPlaced(chunks)
    ensures ParseDescriptors(EncodeDescriptors(chunks) + rest, runs, |chunks|) == Ok((DescriptorsOf(chunks), rest))
    decreases |chunks|
  {
    hide AllEncodable, AllPlaced, ParseDescriptors, EncodeDescriptors, DescriptorsOf, ZeroRun;
    EncodableFrom(chunks, 0);
    assert chunks[0..] == chunks;
    if chunks == [] {
      NothingToParse(rest, runs);
      assert [] + rest == rest;
    } else {
      var run := ZeroRun(chunks);
      var next := if run >= 2 then run else 1;
      EncodableFrom(chunks, next);
      if HasRun(chunks[next..]) {
        HasRunLater(chunks, next);
      }
      DescriptorsRoundTrip(chunks[next..], runs, rest);
      if run >= 2 {
        RunStep(chunks, rest);
      } else {
        PlainStep(chunks, runs, rest);
      }
    }
  }

  lemma NothingToParse(s: Bytes, runs: bool)
    ensures ParseDescriptors(s, runs, 0) == Ok(([], s))
    ensures EncodeDescriptors([]) == [] && DescriptorsOf([]) == []
  {
  }

  // ------------------------------------------------- what the encoder's loop writes

  lemma RunHasNoResiduals(chunks: seq<Chunk>)
    requires AllPlaced(chunks) && chunks != []
    ensures EncodeResidualSection(chunks) == EncodeResidualSection(chunks[ZeroRun(chunks)..])
  {
    var run := ZeroRun(chunks);
    forall k | 0 <= k < run
      ensures chunks[k].residuals == []
    {
      assert k > 0 ==> SameZero(chunks[0], chunks[1..][k - 1]);
    }
    SkipEmpty(chunks, run);
  }

  lemma {:induction false} SkipEmpty(chunks: seq<Chunk>, n: nat)
    requires AllPlaced(chunks) && n <= |chunks|
    requires forall k :: 0 <= k < n ==> chunks[k].residuals == []
    ensures EncodeResidualSection(chunks) == EncodeResidualSection(chunks[n..])
  {
    if n > 0 {
      SkipEmpty(chunks[1..], n - 1);
      assert chunks[1..][n - 1..] == chunks[n..];
      assert [] + EncodeResidualSection(chunks[1..]) == EncodeResidualSection(chunks[1..]);
    }
  }

  /** What one turn of the encoder's loop writes. */
  lemma SectionStep(chunks: seq<Chunk>)
    requires AllPlaced(chunks) && chunks != []
    ensures var run := ZeroRun(chunks);
            var next := if run >= 2 then run else 1;
            && EncodeDescriptors(chunks)
               == (if run >= 2 then RunItem(chunks[0], run) else PlainItem(chunks[0])) + EncodeDescriptors(chunks[next..])
            && EncodeResidualSection(chunks)
               == (if run >= 2 then [] else EncodeResiduals(chunks[0].residuals, chunks[0].length))
                  + EncodeResidualSection(chunks[next..])
            && (run >= 2 ==> HasRun(chunks))
            && (run < 2 ==> HasRun(chunks) == HasRun(chunks[next..]))
  {
    hide RunItem, PlainItem, EncodeResiduals, Placed, ZeroRun;
    if ZeroRun(chunks) >= 2 {
      RunHasNoResiduals(chunks);
    }
  }

  lemma EmptySections()
    ensures EncodeDescriptors([]) == [] && EncodeResidualSection([]) == [] && !HasRun([])
  {
  }

  // ------------------------------------------------- chunks

  lemma ParsesChunk(chunk: Chunk, index: nat, h: Header, rest: Bytes, sha: Sha)
    requires Encodable(chunk) && Faithful(chunk, sha)
    requires chunk.index == index && chunk.offset == index * h.chunkSize
    requires DecodedChunkLength(index, h) == Ok(chunk.length)
    ensures ParseChunk(EncodeResiduals(chunk.residuals, chunk.length) + rest, DescriptorOf(chunk), index, h, sha)
         == Ok(((chunk, Original(chunk)), rest))
  {
    hide Placed, EncodeResiduals, ParseResiduals, BestEncoding, Invert, Transformed, DecodedChunkLength;
    ResidualsRoundTrip(chunk.residuals, chunk.length, rest);
  }

  lemma {:induction false} CanonicalShape(chunks: seq<Chunk>, index: nat, chunkSize: nat, sha: Sha)
    requires CanonicalChunks(chunks, index, chunkSize, sha)
    ensures TotalLength(chunks) <= |chunks| * chunkSize
    ensures chunks != [] ==> TotalLength(chunks) > (|chunks| - 1) * chunkSize
    ensures |chunks| <= TotalLength(chunks)
    ensures TotalResiduals(chunks) <= TotalLength(chunks)
    ensures TotalLength(chunks) < VARUINT_LIMIT ==> AllEncodable(chunks)
    decreases |chunks|
  {
    hide Placed, Stored, Original;
    if chunks != [] {
      CanonicalShape(chunks[1..], index + 1, chunkSize, sha);
      PlacedCount(chunks[0].residuals, 0, chunks[0].length);
      assert chunks == [chunks[0]] + chunks[1..];
      if |chunks| > 1 {
        OneMore(|chunks| - 1, chunkSize);
        OneMore(|chunks| - 2, chunkSize);
      }
    }
  }

  lemma OneMore(n: nat, m: nat)
    ensures (n + 1) * m == n * m + m
  {
  }

  lemma SectionsCons(chunks: seq<Chunk>, rest: Bytes)
    requires chunks != [] && AllPlaced(chunks)
    ensures EncodeResidualSection(chunks) + rest
         == EncodeResiduals(chunks[0].residuals, chunks[0].length) + (EncodeResidualSection(chunks[1..]) + rest)
  {
    hide Placed, EncodeResiduals;
  }

  lemma DescriptorsCons(chunks: seq<Chunk>)
    requires chunks != [] && AllPlaced(chunks)
    ensures DescriptorsOf(chunks) == [DescriptorOf(chunks[0])] + DescriptorsOf(chunks[1..])
  {
    hide Placed, DescriptorOf;
  }

  /** The length the decoder computes for the first of the remaining chunks. */
  lemma LengthOfHead(chunks: seq<Chunk>, index: nat, h: Header, sha: Sha)
    requires chunks != [] && CanonicalChunks(chunks, index, h.chunkSize, sha)
    requires index + |chunks| == h.chunkCount && index * h.chunkSize + TotalLength(chunks) == h.originalLength
    ensures DecodedChunkLength(index, h) == Ok(chunks[0].length)
  {
    hide Placed, Original;
    OneMore(index, h.chunkSize);
  }

  lemma AllEncodableCons(chunks: seq<Chunk>)
    requires chunks != [] && AllEncodable(chunks)
    ensures Encodable(chunks[0]) && AllEncodable(chunks[1..]) && AllPlaced(chunks)
  {
    hide Placed;
  }

  lemma {:induction false} ChunksRoundTrip(chunks: seq<Chunk>, index: nat, h: Header, rest: Bytes, sha: Sha)
    requires CanonicalChunks(chunks, index, h.chunkSize, sha)
    requires AllEncodable(chunks)
    requires index + |chunks| == h.chunkCount
    requires chunks != [] ==> index * h.chunkSize + TotalLength(chunks) == h.originalLength
    ensures AllPlaced(chunks)
    ensures ParseChunks(EncodeResidualSection(chunks) + rest, DescriptorsOf(chunks), index, h, sha)
         == Ok(((chunks, Originals(chunks, index, h.chunkSize, sha)), rest))
    decreases |chunks|
  {
    hide Placed, EncodeResiduals, ParseChunk, DescriptorOf, Original, AllEncodable, AllPlaced, EncodeResidualSection, DescriptorsOf,
         DecodedChunkLength;
    if chunks == [] {
      NothingLeft(rest);
    } else {
      var head := chunks[0];
      AllEncodableCons(chunks);
      OneMore(index, h.chunkSize);
      ChunksRoundTrip(chunks[1..], index + 1, h, rest, sha);
      LengthOfHead(chunks, index, h, sha);
      ParsesChunk(head, index, h, EncodeResidualSection(chunks[1..]) + rest, sha);
      SectionsCons(chunks, rest);
      DescriptorsCons(chunks);
      assert chunks == [head] + chunks[1..];
    }
  }

  lemma NothingLeft(rest: Bytes)
    ensures AllPlaced([]) && EncodeResidualSection([]) + rest == rest && DescriptorsOf([]) == []
  {
  }

  // ------------------------------------------------- the header

  lemma ParsesFlags(runs: bool, chunkSize: nat, rest: Bytes)
    requires chunkSize in CANDIDATE_CHUNK_SIZES
    ensures ParseFlags(BOGPK_MAGIC + ([BOGPK_VERSION, if runs then FLAG_ZERO_RUNS else 0, SizeCode(chunkSize)] + rest))
         == Ok(((runs, chunkSize), rest))
  {
    var fixed: Bytes := [BOGPK_VERSION, if runs then FLAG_ZERO_RUNS else 0, SizeCode(chunkSize)];
    var s := BOGPK_MAGIC + (fixed + rest);
    assert s[..6] == BOGPK_MAGIC && s[6..] == fixed + rest;
    ParsesThree(fixed[0], fixed[1], fixed[2], rest);
  }

  lemma CeilingUnique(total: nat, count: nat, size: nat)
    requires size > 0
    requires if count == 0 then total == 0 else (count - 1) * size < total <= count * size
    ensures ExpectedChunkCount(total, size) == count
  {
    if count == 0 {
      return;
    }
    MulMonotone(0, count - 1, size);
    var q, r := (total + size - 1) / size, (total + size - 1) % size;
    assert total + size - 1 == q * size + r;
    OneMore(count, size);
    OneMore(count - 1, size);
    if q < count {
      MulMonotone(q, count - 1, size);
    } else if q > count {
      MulMonotone(count + 1, q, size);
    }
  }

  lemma Reassociate(a: Bytes, b: Bytes, c: Bytes, d: Bytes, e: Bytes, f: Bytes, g: Bytes)
    ensures (a + (b + (c + (d + (e + f))))) + g == a + (b + (c + (d + (e + (f + g)))))
  {
    assert (e + f) + g == e + (f + g);
    assert (d + (e + f)) + g == d + ((e + f) + g);
    assert (c + (d + (e + f))) + g == c + ((d + (e + f)) + g);
    assert (b + (c + (d + (e + f)))) + g == b + ((c + (d + (e + f))) + g);
  }

  lemma ParsesHeader(runs: bool, chunkSize: nat, length: nat, count: nat, residuals: nat, sha: string, rest: Bytes)
    requires chunkSize in CANDIDATE_CHUNK_SIZES && IsSha256(sha)
    requires count <= length && residuals <= length < VARUINT_LIMIT
    requires count == ExpectedChunkCount(length, chunkSize)
    ensures ParseHeader(EncodeHeader(runs, chunkSize, length, count, residuals, sha) + rest)
         == Ok((Header(runs, chunkSize, length, count, residuals, sha), rest))
  {
    hide ParseFlags, ParseVaruint, EncodeVaruint, FromHex, ToHex, SizeCode, AllHex;
    HexRoundTrip(sha);
    var digest := FromHex(sha);
    var s4 := digest + rest;
    assert s4[..32] == digest && s4[32..] == rest;
    var s3 := EncodeVaruint(residuals) + s4;
    VaruintExact(s3, residuals, s4);
    var s2 := EncodeVaruint(count) + s3;
    VaruintExact(s2, count, s3);
    var s1 := EncodeVaruint(length) + s2;
    VaruintExact(s1, length, s2);
    ParsesFlags(runs, chunkSize, s1);
    Reassociate(BOGPK_MAGIC, [BOGPK_VERSION, if runs then FLAG_ZERO_RUNS else 0, SizeCode(chunkSize)],
                EncodeVaruint(length), EncodeVaruint(count), EncodeVaruint(residuals), digest, rest);
  }

  lemma CanonicalFacts(c: Container, sha: Sha)
    requires Canonical(c, sha)
    ensures c.chunkSize > 0 && |c.chunks| == c.chunkCount && c.totalResiduals == TotalResiduals(c.chunks)
    ensures CanonicalChunks(c.chunks, 0, c.chunkSize, sha) && TotalLength(c.chunks) < VARUINT_LIMIT
    ensures c.chunks == [] ==> TotalLength(c.chunks) == 0
  {
    hide CanonicalChunks, ChunksOk, IsSha256;
  }

  lemma CanonicalCount(c: Container, sha: Sha)
    requires Canonical(c, sha)
    ensures c.chunkCount == ExpectedChunkCount(TotalLength(c.chunks), c.chunkSize)
    ensures c.chunkCount <= TotalLength(c.chunks) && c.totalResiduals <= TotalLength(c.chunks)
    ensures AllEncodable(c.chunks)
  {
    hide *;
    CanonicalFacts(c, sha);
    CanonicalShape(c.chunks, 0, c.chunkSize, sha);
    CeilingUnique(TotalLength(c.chunks), c.chunkCount, c.chunkSize);
  }

  // ------------------------------------------------- decoding undoes encoding

  lemma DecodesEncoded(c: Container, sha: Sha)
    requires Canonical(c, sha)
    ensures Encode(c).Ok? && Decode(Encode(c).value, sha) == Ok(c)
  {
    hide EncodeHeader, ParseHeader, EncodeDescriptors, ParseDescriptors, EncodeResidualSection, ParseChunks,
         CanonicalChunks, ChunksOk, AllPlaced, AllEncodable, DescriptorsOf, HasRun, ExpectedChunkCount, IsSha256;
    CanonicalCount(c, sha);
    var h := Header(HasRun(c.chunks), c.chunkSize, TotalLength(c.chunks), c.chunkCount, c.totalResiduals, c.wholeSha);
    ChunksRoundTrip(c.chunks, 0, h, [], sha);
    var residualSection := EncodeResidualSection(c.chunks);
    assert residualSection + [] == residualSection;
    DescriptorsRoundTrip(c.chunks, h.runs, residualSection);
    ParsesHeader(h.runs, h.chunkSize, h.originalLength, h.chunkCount, h.totalResiduals, h.wholeSha,
                 EncodeDescriptors(c.chunks) + residualSection);
  }

  // ------------------------------------------------- only canonical containers are decoded

  ghost predicate ParamsFit(ds: seq<Descriptor>) {
    forall k :: 0 <= k < |ds| && !UsesBwt(ds[k].transform) ==> ds[k].param == 0
  }

  lemma ParamFits(s: Bytes, value: byte, start: byte, delta: byte, count: nat)
    requires ParseParam(s, value).Ok?
    requires DecodeDescriptor(value, start, delta, ParseParam(s, value).value.0, count).Ok?
    ensures var d := DecodeDescriptor(value, start, delta, ParseParam(s, value).value.0, count).value;
            !UsesBwt(d.transform) ==> d.param == 0
  {
    hide ParseVaruint;
  }

  lemma {:induction false} ParsedDescriptors(s: Bytes, runs: bool, left: nat)
    requires ParseDescriptors(s, runs, left).Ok?
    ensures |ParseDescriptors(s, runs, left).value.0| == left
    ensures ParamsFit(ParseDescriptors(s, runs, left).value.0)
    decreases left
  {
    hide ParseVaruint, ParseParam, DecodeDescriptor, ParseDescriptor;
    if left > 0 {
      var (marker, s1) := ParseByte(s).value;
      if marker == SENTINEL {
        var (run, s2) := ParseVaruint(s1).value;
        var (d, s3) := ParseDescriptor(s2).value;
        ParamFits(s3, d.0, d.1, d.2, 0);
        ParsedDescriptors(ParseParam(s3, d.0).value.1, runs, left - run);
      } else {
        var (d, s2) := ParseDescriptor(s).value;
        var (param, s3) := ParseParam(s2, marker).value;
        var (count, s4) := ParseVaruint(s3).value;
        ParamFits(s2, marker, d.1, d.2, count);
        ParsedDescriptors(s4, runs, left - 1);
      }
    }
  }

  lemma BuiltIsFaithful(d: Descriptor, index: nat, chunkSize: nat, length: nat, residuals: seq<Patch>, sha: Sha)
    requires HexHash(sha) && 1 <= length <= chunkSize
    requires !UsesBwt(d.transform) ==> d.param == 0
    requires Placed(residuals, 0, length)
    requires BuildChunk(d, index, chunkSize, length, residuals, sha).Ok?
    ensures var (chunk, original) := BuildChunk(d, index, chunkSize, length, residuals, sha).value;
            && chunk.index == index && chunk.offset == index * chunkSize && chunk.length == length
            && chunk.residuals == residuals
            && ChunkOk(chunk, chunkSize) && Faithful(chunk, sha) && original == Original(chunk)
  {
    hide Placed, IsSha256, Invert, Transformed;
  }

  lemma ParsedChunk(s: Bytes, d: Descriptor, index: nat, h: Header, sha: Sha)
    requires HexHash(sha) && h.chunkSize > 0 && index < h.chunkCount
    requires !UsesBwt(d.transform) ==> d.param == 0
    requires ParseChunk(s, d, index, h, sha).Ok?
    ensures var (chunk, original) := ParseChunk(s, d, index, h, sha).value.0;
            && chunk.index == index && chunk.offset == index * h.chunkSize
            && ChunkOk(chunk, h.chunkSize) && Faithful(chunk, sha) && original == Original(chunk)
            && DecodedChunkLength(index, h) == Ok(chunk.length)
  {
    hide Placed, ParseResiduals, BuildChunk, ChunkOk, Faithful;
    var length := DecodedChunkLength(index, h).value;
    var (residuals, rest) := ParseResiduals(s, d.encoding, d.residualCount, length).value;
    BuiltIsFaithful(d, index, h.chunkSize, length, residuals, sha);
  }

  lemma {:induction false} ParsedChunks(s: Bytes, ds: seq<Descriptor>, index: nat, h: Header, sha: Sha)
    requires HexHash(sha) && h.chunkSize > 0
    requires ParamsFit(ds) && index + |ds| == h.chunkCount
    requires ParseChunks(s, ds, index, h, sha).Ok?
    ensures var (chunks, originals) := ParseChunks(s, ds, index, h, sha).value.0;
            && |chunks| == |ds|
            && CanonicalChunks(chunks, index, h.chunkSize, sha)
            && originals == Originals(chunks, index, h.chunkSize, sha)
            && (chunks != [] ==> index * h.chunkSize + TotalLength(chunks) == h.originalLength)
    decreases |ds|
  {
    hide ParseChunk, ChunkOk, Faithful, Original, HexHash;
    if ds != [] {
      var ((chunk, original), s1) := ParseChunk(s, ds[0], index, h, sha).value;
      ParsedChunk(s, ds[0], index, h, sha);
      ParsedChunks(s1, ds[1..], index + 1, h, sha);
      var (chunks, originals) := ParseChunks(s1, ds[1..], index + 1, h, sha).value.0;
      assert ([chunk] + chunks)[1..] == chunks;
      OneMore(index, h.chunkSize);
    }
  }

  lemma {:induction false} CanonicalIsOk(chunks: seq<Chunk>, index: nat, offset: nat, chunkSize: nat, sha: Sha)
    requires CanonicalChunks(chunks, index, chunkSize, sha)
    requires chunks != [] ==> offset == index * chunkSize
    ensures ChunksOk(chunks, index, offset, chunkSize)
    decreases |chunks|
  {
    hide ChunkOk, Faithful, IsSha256;
    if chunks != [] {
      OneMore(index, chunkSize);
      CanonicalIsOk(chunks[1..], index + 1, offset + chunks[0].length, chunkSize, sha);
    }
  }

  lemma ParsedHeader(s: Bytes)
    requires ParseHeader(s).Ok?
    ensures var h := ParseHeader(s).value.0;
            && h.chunkSize in CANDIDATE_CHUNK_SIZES && IsSha256(h.wholeSha)
            && h.originalLength < VARUINT_LIMIT
            && (h.originalLength == 0 <==> h.chunkCount == 0)
  {
    hide ParseFlags, ParseVaruint;
    var s1 := ParseFlags(s).value.1;
    VaruintExact(s1, ParseVaruint(s1).value.0, ParseVaruint(s1).value.1);
  }

  /** Whatever the decoder returns is canonical; in particular its final validation cannot fail. */
  lemma DecodedIsCanonical(data: Bytes, sha: Sha)
    requires HexHash(sha)
    requires Decode(data, sha).Ok?
    ensures Canonical(Decode(data, sha).value, sha)
  {
    hide ParseHeader, ParseDescriptors, ParseChunks, ParamsFit, HexHash, CanonicalChunks, ChunksOk, IsSha256;
    var (h, s1) := ParseHeader(data).value;
    var (ds, s2) := ParseDescriptors(s1, h.runs, h.chunkCount).value;
    var ((chunks, originals), rest) := ParseChunks(s2, ds, 0, h, sha).value;
    ParsedHeader(data);
    ParsedDescriptors(s1, h.runs, h.chunkCount);
    ParsedChunks(s2, ds, 0, h, sha);
    CanonicalIsOk(chunks, 0, 0, h.chunkSize, sha);
  }

  /** A container that can be encoded survives the round trip if and only if it is canonical. */
  lemma RoundTripExact(c: Container, sha: Sha)
    requires HexHash(sha)
    requires Encode(c).Ok?
    ensures Decode(Encode(c).value, sha) == Ok(c) <==> Canonical(c, sha)
  {
    hide Encode, Decode, Canonical;
    if Decode(Encode(c).value, sha) == Ok(c) {
      DecodedIsCanonical(Encode(c).value, sha);
    }
    if Canonical(c, sha) {
      DecodesEncoded(c, sha);
    }
  }

  /** Re-encoding is a normal form: whichever encoding was read, it decodes to the same container. */
  lemma ReencodingIsNormalForm(data: Bytes, sha: Sha)
    requires HexHash(sha)
    requires Decode(data, sha).Ok?
    ensures Encode(Decode(data, sha).value).Ok?
    ensures Decode(Encode(Decode(data, sha).value).value, sha) == Decode(data, sha)
  {
    hide Encode, Decode, Canonical;
    DecodedIsCanonical(data, sha);
    DecodesEncoded(Decode(data, sha).value, sha);
  }

  // ------------------------------------------------- a container that does not survive

  /** One zero byte as a chunk. */
  function ZeroByte(index: nat, sha: Sha): Chunk {
    Chunk(index, index, 1, ZeroBlock, 0, 0, Identity, 0, [], sha([0]), sha([0]), sha([0]))
  }

  /** Two bytes in two chunks, although the first chunk has room for sixteen. */
  function ShortFirst(sha: Sha): Container {
    Container(16, 2, sha([0, 0]), 0, [ZeroByte(0, sha), ZeroByte(1, sha)])
  }

  lemma ShortFirstIsValid(sha: Sha)
    requires HexHash(sha)
    ensures Valid(ShortFirst(sha))
  {
    hide IsSha256;
    var (first, second) := (ZeroByte(0, sha), ZeroByte(1, sha));
    assert ChunkOk(first, 16) && ChunkOk(second, 16);
    assert [second][1..] == [] && [first, second][1..] == [second];
    assert ChunksOk([], 2, 2, 16) && TotalResiduals([]) == 0;
    assert ChunksOk([second], 1, 1, 16) && TotalResiduals([second]) == 0;
    assert ChunksOk([first, second], 0, 0, 16) && TotalResiduals([first, second]) == 0;
  }

  /** The condition of the round trip is needed: this container is valid and encodable, and does not come back. */
  lemma ShortFirstDoesNotSurvive(sha: Sha)
    requires HexHash(sha)
    ensures Encode(ShortFirst(sha)).Ok? && Decode(Encode(ShortFirst(sha)).value, sha) != Ok(ShortFirst(sha))
  {
    hide Encode, Decode, Valid, Original, Originals;
    ShortFirstIsValid(sha);
    Encodes(ShortFirst(sha));
    RoundTripExact(ShortFirst(sha), sha);
    assert !CanonicalChunks(ShortFirst(sha).chunks, 0, 16, sha);
  }

  lemma Encodes(c: Container)
    requires Valid(c) && c.chunkSize in CANDIDATE_CHUNK_SIZES
    ensures Encode(c).Ok?
  {
  }
}
