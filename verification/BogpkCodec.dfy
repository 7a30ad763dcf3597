/** The loops of the BOGPK encoder and decoder (bogvm/container.py), proved against `Encode` and `Decode`. */
module BogpkCodec {
  import opened Wrappers
  import opened ByteStrings
  import opened Transforms
  import opened Reader
  import opened ResidualCodec
  import opened Containers
  import opened Bogpk
  import opened BogpkProofs

  // ------------------------------------------------- encoding

  method ZeroResidualRunLength(chunks: seq<Chunk>, index: nat) returns (length: nat)
    requires index < |chunks|
    ensures length == ZeroRun(chunks[index..])
  {
    var first := chunks[index];
    if first.residuals != [] {
      return 0;
    }
    length := 1;
    var rest := chunks[index..][1..];
    while length - 1 < |rest|
      invariant 1 <= length <= |rest| + 1
      invariant Matching(first, rest) == length - 1 + Matching(first, rest[length - 1..])
    {
      if !SameZero(first, rest[length - 1]) {
        break;
      }
      assert rest[length - 1..][1..] == rest[length..];
      length := length + 1;
    }
  }

  /** Writes the descriptor of one chunk: a plain one, or the head of a run. */
  method AppendDescriptor(output: Bytes, chunk: Chunk, encoding: ResidualEncoding) returns (out: Bytes)
    ensures out == output + ([DescriptorByte(chunk.transform, chunk.basis, encoding), chunk.start, chunk.delta]
                             + EncodeParam(chunk.transform, chunk.param))
  {
    out := output + [DescriptorByte(chunk.transform, chunk.basis, encoding)];
    out := out + [chunk.start];
    out := out + [chunk.delta];
    if UsesBwt(chunk.transform) {
      var param := WriteVaruint(chunk.param);
      out := out + param;
    }
  }

  method AppendRun(output: Bytes, chunk: Chunk, run: nat) returns (out: Bytes)
    ensures out == output + RunItem(chunk, run)
  {
    out := output + [SENTINEL];
    var length := WriteVaruint(run);
    out := out + length;
    out := AppendDescriptor(out, chunk, GapList);
  }

  method AppendPlain(descriptors: Bytes, residuals: Bytes, chunk: Chunk) returns (ds: Bytes, rs: Bytes)
    requires Placed(chunk.residuals, 0, chunk.length)
    ensures ds == descriptors + PlainItem(chunk)
    ensures rs == residuals + EncodeResiduals(chunk.residuals, chunk.length)
  {
    hide DescriptorByte, EncodeParam, EncodeGaps, EncodeBitmask, EncodeVaruint, Placed;
    var encoding := BestEncoding(chunk.residuals, chunk.length);
    ds := AppendDescriptor(descriptors, chunk, encoding);
    var count := WriteVaruint(|chunk.residuals|);
    ds := ds + count;
    if encoding == Bitmask {
      rs := AppendBitmask(residuals, chunk.length, chunk.residuals);
    } else {
      rs := AppendGaps(residuals, chunk.residuals, chunk.length);
    }
  }

  method EncodeSections(chunks: seq<Chunk>) returns (runs: bool, descriptors: Bytes, residuals: Bytes)
    requires AllPlaced(chunks)
    ensures runs == HasRun(chunks)
    ensures descriptors == EncodeDescriptors(chunks)
    ensures residuals == EncodeResidualSection(chunks)
  {
    hide RunItem, PlainItem, EncodeResiduals, EncodeDescriptors, EncodeResidualSection, HasRun, Placed, ZeroRun;
    runs, descriptors, residuals := false, [], [];
    var index := 0;
    assert chunks[0..] == chunks;
    while index < |chunks|
      invariant 0 <= index <= |chunks|
      invariant if runs then HasRun(chunks) else HasRun(chunks) == HasRun(chunks[index..])
      invariant descriptors + EncodeDescriptors(chunks[index..]) == EncodeDescriptors(chunks)
      invariant residuals + EncodeResidualSection(chunks[index..]) == EncodeResidualSection(chunks)
    {
      var rest := chunks[index..];
      var run := ZeroResidualRunLength(chunks, index);
      SectionStep(rest);
      if run >= 2 {
        HasRunLater(chunks, index);
        runs := true;
        descriptors := AppendRun(descriptors, chunks[index], run);
        assert rest[run..] == chunks[index + run..];
        index := index + run;
      } else {
        assert rest[1..] == chunks[index + 1..];
        descriptors, residuals := AppendPlain(descriptors, residuals, chunks[index]);
        index := index + 1;
      }
    }
    assert chunks[index..] == [];
    EmptySections();
  }

  method EncodeContainer(c: Container) returns (r: Result<Bytes, ContainerError>)
    ensures r == Encode(c)
  {
    hide Valid, EncodeDescriptors, EncodeResidualSection, HasRun, AllPlaced;
    var _ :- ValidateContainer(c);
    if c.chunkSize !in CANDIDATE_CHUNK_SIZES {
      return Err(ChunkSizeNotEncodable);
    }
    ValidFacts(c);
    var runs, descriptors, residuals := EncodeSections(c.chunks);
    var encoded := BOGPK_MAGIC;
    encoded := encoded + [BOGPK_VERSION];
    encoded := encoded + [if runs then FLAG_ZERO_RUNS else 0];
    encoded := encoded + [SizeCode(c.chunkSize)];
    var length := WriteVaruint(TotalLength(c.chunks));
    var count := WriteVaruint(c.chunkCount);
    var total := WriteVaruint(c.totalResiduals);
    var digest := FromHex(c.wholeSha);
    assert encoded == BOGPK_MAGIC + [BOGPK_VERSION, if runs then FLAG_ZERO_RUNS else 0, SizeCode(c.chunkSize)];
    Flatten(encoded, BOGPK_MAGIC, [BOGPK_VERSION, if runs then FLAG_ZERO_RUNS else 0, SizeCode(c.chunkSize)],
            length, count, total, digest);
    encoded := encoded + length;
    encoded := encoded + count;
    encoded := encoded + total;
    encoded := encoded + digest;
    assert encoded + descriptors + residuals == encoded + (descriptors + residuals);
    encoded := encoded + descriptors;
    encoded := encoded + residuals;
    r := Ok(encoded);
  }

  lemma Flatten(start: Bytes, magic: Bytes, fixed: Bytes, a: Bytes, b: Bytes, c: Bytes, d: Bytes)
    requires start == magic + fixed
    ensures start + a + b + c + d == magic + (fixed + (a + (b + (c + d))))
  {
    assert start + a + b + c + d == start + (a + (b + (c + d)));
  }

  lemma ValidFacts(c: Container)
    requires Valid(c)
    ensures AllPlaced(c.chunks) && IsSha256(c.wholeSha)
  {
    OkIsPlaced(c.chunks, 0, 0, c.chunkSize);
  }

  // ------------------------------------------------- decoding

  method ReadDescriptor(reader: ByteReader) returns (r: Result<(byte, byte, byte), ContainerError>)
    requires reader.Valid()
    modifies reader`offset
    ensures reader.Valid()
    ensures Follows(ParseDescriptor(old(reader.Rest())), r, reader.Rest())
  {
    var value :- reader.ReadByte();
    var start :- reader.ReadByte();
    var delta :- reader.ReadByte();
    r := Ok((value, start, delta));
  }

  method ReadParam(reader: ByteReader, value: byte) returns (r: Result<nat, ContainerError>)
    requires reader.Valid()
    modifies reader`offset
    ensures reader.Valid()
    ensures Follows(ParseParam(old(reader.Rest()), value), r, reader.Rest())
  {
    if value / 32 >= |TRANSFORM_ORDER| {
      return Err(ReservedTransform);
    }
    if UsesBwt(TRANSFORM_ORDER[value / 32]) {
      r := reader.ReadVaruint();
      return;
    }
    r := Ok(0);
  }

  method ReadFlags(reader: ByteReader) returns (r: Result<(bool, nat), ContainerError>)
    requires reader.Valid()
    modifies reader`offset
    ensures reader.Valid()
    ensures Follows(ParseFlags(old(reader.Rest())), r, reader.Rest())
  {
    var magic :- reader.ReadBytes(|BOGPK_MAGIC|);
    if magic != BOGPK_MAGIC {
      return Err(InvalidMagic);
    }
    var version :- reader.ReadByte();
    if version != BOGPK_VERSION {
      return Err(UnsupportedVersion);
    }
    var flags :- reader.ReadByte();
    if flags / 8 != 0 {
      return Err(UnsupportedFlags);
    }
    if flags % 4 != 0 {
      return Err(HashStreamsNotImplemented);
    }
    var code :- reader.ReadByte();
    if code >= |CANDIDATE_CHUNK_SIZES| {
      return Err(InvalidChunkSizeCode);
    }
    r := Ok((flags / 4 == 1, CANDIDATE_CHUNK_SIZES[code]));
  }

  method ReadHeader(reader: ByteReader) returns (r: Result<Header, ContainerError>)
    requires reader.Valid()
    modifies reader`offset
    ensures reader.Valid()
    ensures Follows(ParseHeader(old(reader.Rest())), r, reader.Rest())
  {
    hide ParseFlags, ParseVaruint, ToHex;
    var fixed :- ReadFlags(reader);
    var originalLength :- reader.ReadVaruint();
    var chunkCount :- reader.ReadVaruint();
    var total :- reader.ReadVaruint();
    var digest :- reader.ReadBytes(32);
    if originalLength == 0 && chunkCount != 0 {
      return Err(ChunksWithoutLength);
    }
    if originalLength > 0 && chunkCount == 0 {
      return Err(LengthWithoutChunks);
    }
    if chunkCount != ExpectedChunkCount(originalLength, fixed.1) {
      return Err(ChunkCountMismatch);
    }
    if total > originalLength {
      return Err(ResidualTotalTooLarge);
    }
    r := Ok(Header(fixed.0, fixed.1, originalLength, chunkCount, total, ToHex(digest)));
  }

  /** A run of equal descriptors; `s` is what was unread before its sentinel. */
  method ReadRun(reader: ByteReader, left: nat, ghost s: Bytes) returns (r: Result<seq<Descriptor>, ContainerError>)
    requires reader.Valid() && left > 0
    requires s == [SENTINEL] + reader.Rest()
    modifies reader`offset
    ensures reader.Valid()
    ensures r.Ok? ==> 0 < |r.value| <= left
    ensures match r
            case Ok(items) => ParseDescriptors(s, true, left)
                           == Prepended(items, ParseDescriptors(reader.Rest(), true, left - |items|))
            case Err(e) => ParseDescriptors(s, true, left) == Err(e)
  {
    hide ParseVaruint, ParseParam, DecodeDescriptor, ParseDescriptor;
    assert s[0] == SENTINEL && s[1..] == reader.Rest();
    var run :- reader.ReadVaruint();
    if run < 2 {
      return Err(RunTooShort);
    }
    var d :- ReadDescriptor(reader);
    var param :- ReadParam(reader, d.0);
    if run > left {
      return Err(RunTooLong);
    }
    var descriptor :- DecodeDescriptor(d.0, d.1, d.2, param, 0);
    r := Ok(Repeat(descriptor, run));
  }

  /** One turn of the descriptor loop: a run, or a single descriptor. */
  method ReadItem(reader: ByteReader, runs: bool, left: nat) returns (r: Result<seq<Descriptor>, ContainerError>)
    requires reader.Valid() && left > 0
    modifies reader`offset
    ensures reader.Valid()
    ensures r.Ok? ==> 0 < |r.value| <= left
    ensures match r
            case Ok(items) => ParseDescriptors(old(reader.Rest()), runs, left)
                           == Prepended(items, ParseDescriptors(reader.Rest(), runs, left - |items|))
            case Err(e) => ParseDescriptors(old(reader.Rest()), runs, left) == Err(e)
  {
    hide ParseVaruint, ParseParam, DecodeDescriptor, Repeat;
    ghost var s := reader.Rest();
    var marker :- reader.ReadByte();
    if marker == SENTINEL {
      if !runs {
        return Err(SentinelWithoutFlag);
      }
      r := ReadRun(reader, left, s);
      return;
    }
    var start :- reader.ReadByte();
    var delta :- reader.ReadByte();
    var param :- ReadParam(reader, marker);
    var count :- reader.ReadVaruint();
    var descriptor :- DecodeDescriptor(marker, start, delta, param, count);
    r := Ok([descriptor]);
  }

  method ReadDescriptors(reader: ByteReader, runs: bool, count: nat) returns (r: Result<seq<Descriptor>, ContainerError>)
    requires reader.Valid()
    modifies reader`offset
    ensures reader.Valid()
    ensures Follows(ParseDescriptors(old(reader.Rest()), runs, count), r, reader.Rest())
  {
    hide ParseDescriptors;
    ghost var parsed := ParseDescriptors(reader.Rest(), runs, count);
    PrependNothing(parsed);
    var descriptors: seq<Descriptor> := [];
    while |descriptors| < count
      invariant reader.Valid() && |descriptors| <= count
      invariant Prepended(descriptors, ParseDescriptors(reader.Rest(), runs, count - |descriptors|)) == parsed
      decreases count - |descriptors|
    {
      ghost var soFar := descriptors;
      var items :- ReadItem(reader, runs, count - |descriptors|);
      descriptors := descriptors + items;
      PrependTwice(soFar, items, ParseDescriptors(reader.Rest(), runs, count - |descriptors|));
    }
    NothingToParse(reader.Rest(), runs);
    assert descriptors + [] == descriptors;
    r := Ok(descriptors);
  }

  method ReadChunk(reader: ByteReader, d: Descriptor, index: nat, h: Header, sha: Sha)
    returns (r: Result<(Chunk, Bytes), ContainerError>)
    requires reader.Valid()
    modifies reader`offset
    ensures reader.Valid()
    ensures Follows(ParseChunk(old(reader.Rest()), d, index, h, sha), r, reader.Rest())
  {
    hide ParseResiduals, Placed, Transformed, Invert;
    var length :- DecodedChunkLength(index, h);
    var residuals;
    if d.encoding == Bitmask {
      residuals :- ReadBitmask(reader, d.residualCount, length);
    } else {
      residuals :- ReadGaps(reader, d.residualCount, length);
    }
    var stored := SynthesizeResidualChunk(d.basis, d.start, d.delta, length, residuals);
    var inverted := InvertTransform(d.transform, stored, d.param);
    match inverted {
      case Err(_) => r := Err(TransformFailed);
      case Ok(original) =>
        r := Ok((Chunk(index, index * h.chunkSize, length, d.basis, d.start, d.delta, d.transform, d.param, residuals,
                       sha(stored), sha(stored), sha(original)), original));
    }
  }

  /** The result of parsing chunks when some have been read already. */
  ghost function After(chunks: seq<Chunk>, originals: Bytes, parsed: Parsed<(seq<Chunk>, Bytes)>): Parsed<(seq<Chunk>, Bytes)> {
    match parsed
    case Ok(((others, bytes), rest)) => Ok(((chunks + others, originals + bytes), rest))
    case Err(e) => Err(e)
  }

  lemma AfterStep(chunks: seq<Chunk>, originals: Bytes, s: Bytes, ds: seq<Descriptor>, index: nat, h: Header, sha: Sha)
    requires ds != []
    ensures match ParseChunk(s, ds[0], index, h, sha)
            case Ok(((chunk, original), s1)) =>
              After(chunks, originals, ParseChunks(s, ds, index, h, sha))
              == After(chunks + [chunk], originals + original, ParseChunks(s1, ds[1..], index + 1, h, sha))
            case Err(e) => After(chunks, originals, ParseChunks(s, ds, index, h, sha)) == Err(e)
  {
    hide ParseChunk;
    if ParseChunk(s, ds[0], index, h, sha).Ok? {
      var ((chunk, original), s1) := ParseChunk(s, ds[0], index, h, sha).value;
      var later := ParseChunks(s1, ds[1..], index + 1, h, sha);
      if later.Ok? {
        var (others, bytes) := later.value.0;
        assert chunks + ([chunk] + others) == chunks + [chunk] + others;
        assert originals + (original + bytes) == originals + original + bytes;
      }
    }
  }

  lemma AfterNothing(s: Bytes, chunks: seq<Chunk>, originals: Bytes, index: nat, h: Header, sha: Sha)
    ensures After(chunks, originals, ParseChunks(s, [], index, h, sha)) == Ok(((chunks, originals), s))
    ensures forall parsed :: After([], [], parsed) == parsed
  {
    assert chunks + [] == chunks && originals + [] == originals;
    forall parsed: Parsed<(seq<Chunk>, Bytes)>
      ensures After([], [], parsed) == parsed
    {
      if parsed.Ok? {
        assert [] + parsed.value.0.0 == parsed.value.0.0 && [] + parsed.value.0.1 == parsed.value.0.1;
      }
    }
  }

  method ReadChunks(reader: ByteReader, ds: seq<Descriptor>, h: Header, sha: Sha)
    returns (r: Result<(seq<Chunk>, Bytes), ContainerError>)
    requires reader.Valid()
    modifies reader`offset
    ensures reader.Valid()
    ensures Follows(ParseChunks(old(reader.Rest()), ds, 0, h, sha), r, reader.Rest())
  {
    hide ParseChunks, ParseChunk, After;
    ghost var parsed := ParseChunks(reader.Rest(), ds, 0, h, sha);
    var chunks: seq<Chunk>, originals: Bytes := [], [];
    AfterNothing(reader.Rest(), [], [], 0, h, sha);
    assert ds[0..] == ds;
    for index := 0 to |ds|
      invariant reader.Valid()
      invariant After(chunks, originals, ParseChunks(reader.Rest(), ds[index..], index, h, sha)) == parsed
    {
      AfterStep(chunks, originals, reader.Rest(), ds[index..], index, h, sha);
      assert ds[index..][1..] == ds[index + 1..];
      var next :- ReadChunk(reader, ds[index], index, h, sha);
      originals := originals + next.1;
      chunks := chunks + [next.0];
    }
    AfterNothing(reader.Rest(), chunks, originals, |ds|, h, sha);
    assert ds[|ds|..] == [];
    r := Ok((chunks, originals));
  }

  method DecodeContainer(data: Bytes, sha: Sha) returns (r: Result<Container, ContainerError>)
    requires HexHash(sha)
    ensures r == Decode(data, sha)
  {
    hide ParseHeader, ParseDescriptors, ParseChunks, Valid, Canonical, HexHash;
    var reader := new ByteReader(data);
    var h :- ReadHeader(reader);
    var ds :- ReadDescriptors(reader, h.runs, h.chunkCount);
    var decoded :- ReadChunks(reader, ds, h, sha);
    var chunks, originals := decoded.0, decoded.1;
    if TotalResiduals(chunks) != h.totalResiduals {
      return Err(ResidualTotalMismatch);
    }
    var remaining := reader.Remaining();
    if remaining != 0 {
      return Err(TrailingBytes);
    }
    if |originals| != h.originalLength {
      return Err(LengthMismatch);
    }
    if sha(originals) != h.wholeSha {
      return Err(WholeHashMismatch);
    }
    var c := Container(h.chunkSize, h.chunkCount, h.wholeSha, h.totalResiduals, chunks);
    assert Decode(data, sha) == Ok(c);
    CanonicalIsValid(data, c, sha);
    var validated := ValidateContainer(c);
    r := if validated == Ok(()) then Ok(c) else Err(InvalidContainer);
  }

  lemma CanonicalIsValid(data: Bytes, c: Container, sha: Sha)
    requires HexHash(sha) && Decode(data, sha) == Ok(c)
    ensures Valid(c)
  {
    hide Decode, HexHash, Valid;
    DecodedIsCanonical(data, sha);
    ValidOfCanonical(c, sha);
  }

  lemma ValidOfCanonical(c: Container, sha: Sha)
    requires Canonical(c, sha)
    ensures Valid(c)
  {
    hide Valid;
  }
}
