/**
 From containers and plans to assembly (bogvm/container.py, bogvm/packer.py): every chunk becomes a block
 of lines that synthesizes it, patches it, checks its digest and asks for its acceptance.
 */
module Programs {
  import opened Wrappers
  import opened ByteStrings
  import opened Bases
  import opened Optimizer
  import opened Reader
  import opened ResidualCodec
  import opened Containers
  import opened Planner
  import opened Builder
  import opened Machine
  import opened Decimals
  import opened AssemblyText

  const MAX_U16: nat := 65535

  datatype PackerError = InvalidName | BlockTooLong | ChunkSize

  /** What the program of a chunk is made from. */
  datatype Piece = Piece(basis: Basis, start: byte, delta: byte, length: nat, residuals: seq<Patch>, digest: string)
  {
    predicate Ok() {
      Placed(residuals, 0, length)
    }

    /** The bytes the chunk stands for. */
    function Content(): (r: Bytes)
      requires Ok()
      ensures |r| == length
    {
      Transformed(basis, start, delta, length, residuals)
    }
  }

  function PieceOf(chunk: Chunk): Piece {
    Piece(chunk.basis, chunk.start, chunk.delta, chunk.length, chunk.residuals, chunk.chunkSha)
  }

  function PlanPiece(p: Plan): Piece {
    Piece(p.basis, p.start, p.delta, p.length, p.residuals, p.sha256)
  }

  function Pieces(chunks: seq<Chunk>): (r: seq<Piece>)
    ensures |r| == |chunks|
    ensures forall i :: 0 <= i < |r| ==> r[i] == PieceOf(chunks[i])
  {
    if chunks == [] then [] else [PieceOf(chunks[0])] + Pieces(chunks[1..])
  }

  // ------------------------------------------------- chunk names

  function Zeros(n: nat): (r: string)
    ensures |r| == n
  {
    seq(n, i => '0')
  }

  /** `f"{n:04d}"`. */
  function Padded(n: nat): string {
    var digits := Decimal(n);
    if |digits| < 4 then Zeros(4 - |digits|) + digits else digits
  }

  function ChunkName(prefix: string, index: nat): string {
    prefix + "_chunk_" + Padded(index)
  }

  function ChunkNames(prefix: string, n: nat): (r: seq<string>)
    ensures |r| == n
  {
    seq(n, i requires 0 <= i < n => ChunkName(prefix, i))
  }

  lemma ZerosFront(n: nat, s: string)
    requires s != ""
    ensures (Zeros(n) + s)[..n + |s| - 1] == Zeros(n) + s[..|s| - 1] && (Zeros(n) + s)[n + |s| - 1] == s[|s| - 1]
    ensures s[..|s| - 1] != "" ==> Whole(Zeros(n) + s[..|s| - 1]) == Zeros(n) + Whole(s[..|s| - 1])
  {
    var front := s[..|s| - 1];
    if front != "" {
      assert (Zeros(n) + front)[..n + |front| - 1] == Zeros(n) + front[..|front| - 1];
    }
  }

  lemma OnlyZeros(n: nat)
    requires n > 0
    ensures Zeros(n) == Zeros(n - 1) + "0" && Whole(Zeros(n)) == Zeros(n) && DigitsOf("0") == Some(0)
  {
  }

  lemma {:induction false} LeadingZeros(n: nat, digits: string)
    requires DigitsOf(digits).Some?
    ensures DigitsOf(Zeros(n) + digits) == DigitsOf(digits)
    decreases n + |digits|
  {
    NothingRead();
    hide DigitsOf, Zeros, Whole;
    var padded, front := Zeros(n) + digits, digits[..|digits| - 1];
    LastDigit(digits);
    LastDigit(padded);
    ZerosFront(n, digits);
    if front == "" {
      assert Zeros(n) + front == Zeros(n);
      if n > 0 {
        OnlyZeros(n);
        LeadingZeros(n - 1, "0");
      }
    } else {
      WholeIsShorter(front);
      LeadingZeros(n, Whole(front));
    }
  }

  lemma NothingRead()
    ensures DigitsOf("") == None
  {
  }

  lemma WholeIsShorter(s: string)
    requires s != ""
    ensures |Whole(s)| <= |s|
  {
  }

  lemma PaddedDenotes(n: nat)
    ensures DigitsOf(Padded(n)) == Some(n)
  {
    hide DigitsOf;
    DecimalReads(n);
    LeadingZeros(4 - Smaller(4, |Decimal(n)|), Decimal(n));
  }

  /** Numbers below 10000 are written with four digits, others as they are. */
  lemma PaddedLength(n: nat)
    ensures if n < 10000 then |Padded(n)| == 4 else Padded(n) == Decimal(n)
  {
    assert n < 10 ==> |Decimal(n)| == 1;
    if n < 10000 {
      FewDigits(n);
    } else {
      var (a, b, c) := (n / 10, n / 10 / 10, n / 10 / 10 / 10);
      assert c >= 10 && |Decimal(c)| >= 1;
      assert |Decimal(b)| == |Decimal(c)| + 1 && |Decimal(a)| == |Decimal(b)| + 1 && |Decimal(n)| == |Decimal(a)| + 1;
    }
  }

  lemma FewDigits(n: nat)
    requires n < 10000
    ensures |Decimal(n)| <= 4
  {
    assert n >= 10 ==> |Decimal(n)| == |Decimal(n / 10)| + 1;
    assert n >= 100 ==> |Decimal(n / 10)| == |Decimal(n / 100)| + 1;
    assert n >= 1000 ==> |Decimal(n / 100)| == |Decimal(n / 1000)| + 1;
  }

  function Smaller(a: nat, b: nat): nat {
    if a < b then a else b
  }

  lemma NameEndsInNumber(prefix: string, n: nat)
    ensures ChunkName(prefix, n)[|prefix| + 7..] == Padded(n)
  {
    hide Padded;
  }

  /** Chunk names number the chunks: no two chunks of a program share a name. */
  lemma ChunkNamesDiffer(prefix: string, i: nat, j: nat)
    requires i != j
    ensures ChunkName(prefix, i) != ChunkName(prefix, j)
  {
    hide Padded, DigitsOf, ChunkName;
    PaddedDenotes(i);
    PaddedDenotes(j);
    NameEndsInNumber(prefix, i);
    NameEndsInNumber(prefix, j);
  }

  /** The name of a chunk: the prefix, an infix, and its number with at least four digits. */
  lemma ChunkNameSays(prefix: string, n: nat)
    ensures ChunkName(prefix, n) == prefix + "_chunk_" + Padded(n) && |Padded(n)| >= 4 && DigitsOf(Padded(n)) == Some(n)
    ensures PAYLOAD == "payload"
  {
    hide DigitsOf;
    PaddedDenotes(n);
  }

  // ------------------------------------------------- lines

  function StoreLine(name: string, patch: Patch): Line {
    StoreResidualLine(name, Some(patch.offset), Some(patch.value))
  }

  function StoreLines(name: string, residuals: seq<Patch>): seq<Line> {
    if residuals == [] then [] else [StoreLine(name, residuals[0])] + StoreLines(name, residuals[1..])
  }

  function LoadLine(name: string, p: Piece): Line {
    LoadCoefficientsLine(name, Some(p.start), Some(p.length), Some(p.delta))
  }

  function OpeningLines(name: string, p: Piece): seq<Line> {
    [DataBlockLine(name), DeclareBasisLine(BasisName(p.basis)), LoadLine(name, p), SynthesizeLine(name)]
  }

  function ClosingLines(name: string, p: Piece): seq<Line> {
    [ApplyResidualLine(name), VerifyHashLine(name, p.digest), AcceptDataLine(name)]
  }

  function ChunkLines(name: string, p: Piece): seq<Line> {
    OpeningLines(name, p) + StoreLines(name, p.residuals) + ClosingLines(name, p)
  }

  function BodyLines(names: seq<string>, pieces: seq<Piece>): seq<Line>
    requires |names| == |pieces|
  {
    if pieces == [] then [] else ChunkLines(names[0], pieces[0]) + BodyLines(names[1..], pieces[1..])
  }

  function ProgramLines(names: seq<string>, pieces: seq<Piece>): seq<Line>
    requires |names| == |pieces|
  {
    BodyLines(names, pieces) + [EmitReceiptLine, HaltLine]
  }

  /** The program of a list of chunks, named after the prefix and numbered. */
  function WrittenLines(prefix: string, chunks: seq<Chunk>): seq<Line> {
    ProgramLines(ChunkNames(prefix, |chunks|), Pieces(chunks))
  }

  const PAYLOAD := "payload"

  /** The program of a container; its chunks are named after the payload. */
  function CompiledLines(c: Container): seq<Line> {
    WrittenLines(PAYLOAD, c.chunks)
  }

  // ------------------------------------------------- texts

  const WHOLE := "whole_sha256 "

  /** The last three comments in front of a program. */
  function Counts(c: Container): seq<string> {
    ["# chunk_size " + Decimal(c.chunkSize), "# chunk_count " + Decimal(c.chunkCount),
     "# total_residual_count " + Decimal(c.totalResiduals)]
  }

  function ContainerHeader(c: Container): seq<string> {
    ["# BOG container BOG-2.0", "# vm_format BOGBIN-2.0", "# " + WHOLE + c.wholeSha] + Counts(c)
  }

  function PackHeader(c: Container): seq<string> {
    ["# BOGBIN v1.2 chunked pack " + "receipt " + WHOLE + c.wholeSha] + Counts(c)
  }

  /** The text of a container's program. */
  function CompiledText(c: Container): string {
    TextOf(ContainerHeader(c) + Printed(CompiledLines(c)))
  }

  /** The text of a chunked pack. */
  function PackedText(data: Bytes, prefix: string, chunkSize: nat, sha: Sha): string
    requires chunkSize > 0
  {
    var c := Build(data, chunkSize, false, sha);
    TextOf(PackHeader(c) + Printed(WrittenLines(prefix, c.chunks)))
  }

  function BlockLines(data: Bytes, name: string, sha: Sha): seq<Line> {
    ProgramLines([name], [PlanPiece(PlanFor(data, sha))])
  }

  /** The text of a single-block pack. */
  function BlockText(data: Bytes, name: string, sha: Sha): string {
    TextOf(Printed(BlockLines(data, name, sha)))
  }

  /** The comments in front of programs, word for word. */
  lemma HeadersSay(c: Container)
    ensures ContainerHeader(c)
         == ["# BOG container BOG-2.0", "# vm_format BOGBIN-2.0", "# whole_sha256 " + c.wholeSha, "# chunk_size " + Decimal(c.chunkSize),
             "# chunk_count " + Decimal(c.chunkCount), "# total_residual_count " + Decimal(c.totalResiduals)]
    ensures |PackHeader(c)| == 4 && PackHeader(c)[1..] == ContainerHeader(c)[3..]
    ensures PackHeader(c)[0] == "# BOGBIN v1.2 chunked pack receipt " + "whole_sha256 " + c.wholeSha
  {
    hide Decimal;
    assert "# " + WHOLE == "# whole_sha256 ";
    assert "# BOGBIN v1.2 chunked pack " + "receipt " == "# BOGBIN v1.2 chunked pack receipt ";
  }

  // ------------------------------------------------- the loops that write them

  method AppendChunk(lines: seq<string>, name: string, p: Piece) returns (r: seq<string>)
    ensures r == lines + Printed(ChunkLines(name, p))
  {
    hide Print, Printed, OpeningLines, StoreLine, StoreLines, ClosingLines;
    r := lines + Printed(OpeningLines(name, p));
    ghost var start := r;
    for k := 0 to |p.residuals|
      invariant r + Printed(StoreLines(name, p.residuals[k..])) == start + Printed(StoreLines(name, p.residuals))
    {
      StoreStep(r, name, p.residuals, k);
      r := r + [Print(StoreLine(name, p.residuals[k]))];
    }
    NothingStored(name);
    assert p.residuals[|p.residuals|..] == [] && r == start + Printed(StoreLines(name, p.residuals));
    r := r + Printed(ClosingLines(name, p));
    PrintedChunk(lines, name, p);
  }

  lemma NothingStored(name: string)
    ensures Printed(StoreLines(name, [])) == []
  {
  }

  lemma PrintedChunk(lines: seq<string>, name: string, p: Piece)
    ensures lines + Printed(OpeningLines(name, p)) + Printed(StoreLines(name, p.residuals)) + Printed(ClosingLines(name, p))
         == lines + Printed(ChunkLines(name, p))
  {
    hide Printed, OpeningLines, StoreLines, ClosingLines;
    PrintedBoth(OpeningLines(name, p) + StoreLines(name, p.residuals), ClosingLines(name, p));
    PrintedBoth(OpeningLines(name, p), StoreLines(name, p.residuals));
  }

  lemma StoreStep(r: seq<string>, name: string, residuals: seq<Patch>, k: nat)
    requires k < |residuals|
    ensures r + Printed(StoreLines(name, residuals[k..]))
         == r + [Print(StoreLine(name, residuals[k]))] + Printed(StoreLines(name, residuals[k + 1..]))
  {
    hide Print, Printed, StoreLine;
    assert residuals[k..][1..] == residuals[k + 1..];
    PrintedCons(StoreLine(name, residuals[k]), StoreLines(name, residuals[k + 1..]));
  }

  lemma BodyStep(lines: seq<string>, names: seq<string>, pieces: seq<Piece>, k: nat)
    requires |names| == |pieces| && k < |pieces|
    ensures lines + Printed(BodyLines(names[k..], pieces[k..]))
         == lines + Printed(ChunkLines(names[k], pieces[k])) + Printed(BodyLines(names[k + 1..], pieces[k + 1..]))
  {
    hide ChunkLines, Print, Printed;
    assert names[k..][1..] == names[k + 1..] && pieces[k..][1..] == pieces[k + 1..];
    PrintedBoth(ChunkLines(names[k], pieces[k]), BodyLines(names[k + 1..], pieces[k + 1..]));
  }

  /** A program ends by printing its receipt and halting. */
  lemma PrintedProgram(lines: seq<string>, names: seq<string>, pieces: seq<Piece>)
    requires |names| == |pieces|
    ensures lines + Printed(ProgramLines(names, pieces)) == lines + Printed(BodyLines(names, pieces)) + ["EMIT_RECEIPT", "HALT"]
  {
    hide BodyLines, Print, Printed;
    PrintedBoth(BodyLines(names, pieces), [EmitReceiptLine, HaltLine]);
    PrintedCons(EmitReceiptLine, [HaltLine]);
    PrintedCons(HaltLine, []);
    NothingPrinted();
    PrintBare();
    assert [EmitReceiptLine] + [HaltLine] == [EmitReceiptLine, HaltLine] && [HaltLine] + [] == [HaltLine];
  }

  lemma PrintBare()
    ensures Print(EmitReceiptLine) == "EMIT_RECEIPT" && Print(HaltLine) == "HALT"
  {
  }

  lemma NoBodyLines()
    ensures Printed(BodyLines([], [])) == []
  {
  }

  method WriteProgram(header: seq<string>, prefix: string, chunks: seq<Chunk>) returns (text: string)
    ensures text == TextOf(header + Printed(WrittenLines(prefix, chunks)))
  {
    hide ChunkLines, ChunkName, Pieces, Print, Printed, TextOf, BodyLines, ProgramLines;
    ghost var names, pieces := ChunkNames(prefix, |chunks|), Pieces(chunks);
    var lines := header;
    for k := 0 to |chunks|
      invariant lines + Printed(BodyLines(names[k..], pieces[k..])) == header + Printed(BodyLines(names, pieces))
    {
      BodyStep(lines, names, pieces, k);
      lines := AppendChunk(lines, ChunkName(prefix, k), PieceOf(chunks[k]));
    }
    NoBodyLines();
    PrintedProgram(header, names, pieces);
    assert names[|chunks|..] == [] && pieces[|chunks|..] == [] && lines + [] == lines;
    text := TextOf(lines + ["EMIT_RECEIPT", "HALT"]);
  }

  method CompileContainer(c: Container) returns (r: Result<string, ContainerError>)
    ensures r == if Valid(c) then Ok(CompiledText(c)) else Err(InvalidContainer)
  {
    hide Valid, ProgramLines, ChunkNames, Pieces, Counts, TextOf;
    var checked := ValidateContainer(c);
    if checked.Err? {
      return Err(InvalidContainer);
    }
    var text := WriteProgram(ContainerHeader(c), PAYLOAD, c.chunks);
    r := Ok(text);
  }

  method PackBytes(data: Bytes, name: string, sha: Sha) returns (r: Result<string, PackerError>)
    ensures r == if !IsToken(name) then Err(InvalidName)
                 else if |data| > MAX_U16 then Err(BlockTooLong)
                 else Ok(BlockText(data, name, sha))
  {
    hide PlanFor, ChunkLines, BodyLines, ProgramLines, IsToken, Print, Printed, TextOf;
    if !IsToken(name) {
      return Err(InvalidName);
    }
    if |data| > MAX_U16 {
      return Err(BlockTooLong);
    }
    var optimized := OptimizeResidualPlan(data, sha);
    var p := PlanPiece(optimized.value);
    var lines := AppendChunk([], name, p);
    OneBody(name, p);
    PrintedProgram([], [name], [p]);
    assert [] + Printed(BodyLines([name], [p])) == Printed(BodyLines([name], [p]));
    assert [] + Printed(BlockLines(data, name, sha)) == Printed(BlockLines(data, name, sha));
    assert [] + Printed(ChunkLines(name, p)) == Printed(ChunkLines(name, p));
    r := Ok(TextOf(lines + ["EMIT_RECEIPT", "HALT"]));
  }

  lemma OneBody(name: string, p: Piece)
    ensures BodyLines([name], [p]) == ChunkLines(name, p)
  {
    hide ChunkLines;
    assert BodyLines([name][1..], [p][1..]) == [];
  }

  method PackChunkedBytes(data: Bytes, prefix: string, chunkSize: int, sha: Sha) returns (r: Result<string, PackerError>)
    ensures r == if !IsToken(prefix) then Err(InvalidName)
                 else if 0 < chunkSize <= 65535 then Ok(PackedText(data, prefix, chunkSize, sha))
                 else Err(ChunkSize)
  {
    hide ProgramLines, ChunkNames, Pieces, MakeChunks, IsToken, Build, PackHeader, TextOf;
    if !IsToken(prefix) {
      return Err(InvalidName);
    }
    var built := BuildContainer(data, chunkSize, false, sha);
    if built.Err? {
      return Err(ChunkSize);
    }
    var text := WriteProgram(PackHeader(built.value), prefix, built.value.chunks);
    r := Ok(text);
  }
}
