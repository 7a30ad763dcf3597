/**
 The texts the compiler and the packers write, read back by the assembler: exactly the lines they were written
 from, unless a `#` in a name cuts them.
 */
module ProgramText {
  import opened Wrappers
  import opened Bases
  import opened Containers
  import opened Optimizer
  import opened Machine
  import opened Decimals
  import opened AssemblyText
  import opened Assembler
  import opened Programs

  // ------------------------------------------------- texts in general

  predicate IsComment(text: string) {
    text != "" && text[0] == '#'
  }

  lemma CommentReads(text: string)
    requires IsComment(text)
    ensures ReadLine(text) == Ok(None)
  {
    assert Cut(text) == "";
  }

  lemma {:induction false} CommentsAssemble(a: Asm, comments: seq<string>, rest: seq<string>)
    requires forall t :: t in comments ==> IsComment(t)
    ensures AssembleLines(a, comments + rest) == AssembleLines(a, rest)
    decreases |comments|
  {
    hide ReadLine, IsComment, Assemble;
    if comments == [] {
      assert comments + rest == rest;
    } else {
      CommentReads(comments[0]);
      CommentsAssemble(a, comments[1..], rest);
      assert (comments + rest)[1..] == comments[1..] + rest;
    }
  }

  /** Every word of the lines is a token. */
  predicate AllTokens(lines: seq<Line>) {
    forall l :: l in lines ==> Tokens(l)
  }

  predicate AllUncut(lines: seq<Line>) {
    forall l :: l in lines ==> Uncut(l)
  }

  lemma {:induction false} PrintedAssembles(a: Asm, lines: seq<Line>)
    requires AllTokens(lines) && AllUncut(lines)
    ensures AssembleLines(a, Printed(lines)) == AssembleAll(a, lines)
    decreases |lines|
  {
    hide Tokens, Uncut, Print, ReadLine, Assemble;
    if lines != [] {
      LineReadsBack(lines[0]);
      match Assemble(a, lines[0])
      case Ok(b) => PrintedAssembles(b, lines[1..]);
      case Err(_) =>
    }
  }

  /** A line that cannot be read makes the assembler refuse the text. */
  lemma {:induction false} BadLineStops(a: Asm, texts: seq<string>, k: nat)
    requires k < |texts| && ReadLine(texts[k]).Err?
    ensures AssembleLines(a, texts).Err?
    decreases k
  {
    hide ReadLine, Assemble;
    if k > 0 {
      match AssembleLine(a, texts[0])
      case Ok(b) => BadLineStops(b, texts[1..], k - 1);
      case Err(_) =>
    }
  }

  lemma {:induction false} PrintedAt(lines: seq<Line>, k: nat)
    requires k < |lines|
    ensures Printed(lines)[k] == Print(lines[k])
  {
    hide Print;
    if k > 0 {
      PrintedAt(lines[1..], k - 1);
    }
  }

  /** A text of comments and printed lines falls into just these. */
  lemma PrintedSplits(header: seq<string>, lines: seq<Line>)
    requires lines != [] && AllTokens(lines) && forall t :: t in header ==> NoBreaks(t)
    ensures SplitLines(TextOf(header + Printed(lines))) == header + Printed(lines)
  {
    hide Tokens, Print, Printed, NoBreaks, SplitLines, TextOf;
    var texts := header + Printed(lines);
    forall t | t in texts
      ensures NoBreaks(t)
    {
      var k :| 0 <= k < |texts| && texts[k] == t;
      if k >= |header| {
        PrintedAt(lines, k - |header|);
        PrintHasNoBreaks(lines[k - |header|]);
      } else {
        assert t == header[k];
      }
    }
    LinesReadBack(texts);
  }

  lemma TextAssembles(header: seq<string>, lines: seq<Line>)
    requires lines != [] && AllTokens(lines) && AllUncut(lines)
    requires forall t :: t in header ==> NoBreaks(t) && IsComment(t)
    ensures Assembled(TextOf(header + Printed(lines))) == AssembleAll(EMPTY, lines)
  {
    hide AllUncut, Printed, NoBreaks, IsComment, SplitLines, TextOf, AssembleLines, AllTokens;
    PrintedSplits(header, lines);
    CommentsAssemble(EMPTY, header, Printed(lines));
    PrintedAssembles(EMPTY, lines);
  }

  // ------------------------------------------------- the words of programs

  /** Digits, letters and the underscore, among others: no space and no `#`. */
  predicate Plain(s: string) {
    forall i :: 0 <= i < |s| ==> '0' <= s[i] <= 'z'
  }

  lemma PlainIsToken(s: string)
    requires s != "" && Plain(s)
    ensures IsToken(s) && !HasHashSign(s)
  {
  }

  lemma BasisNameIsPlain(basis: Basis)
    ensures BasisName(basis) != "" && Plain(BasisName(basis))
  {
  }

  lemma BasisNameIsToken(basis: Basis)
    ensures IsToken(BasisName(basis)) && !HasHashSign(BasisName(basis))
  {
    hide BasisName, Plain;
    BasisNameIsPlain(basis);
    PlainIsToken(BasisName(basis));
  }

  lemma DigestIsToken(digest: string)
    requires IsSha256(digest)
    ensures IsToken(digest) && !HasHashSign(digest) && NoBreaks(digest)
  {
    assert forall i :: 0 <= i < |digest| ==> IsHexDigit(digest[i]);
  }

  /** The lines of one chunk are tokens, and none is cut unless the name is. */
  lemma {:induction false} StoresAreTokens(name: string, residuals: seq<Patch>)
    requires IsToken(name)
    ensures AllTokens(StoreLines(name, residuals))
    ensures !HasHashSign(name) ==> AllUncut(StoreLines(name, residuals))
  {
    hide IsToken, HasHashSign, NumberWord;
    if residuals != [] {
      NumberWordIsToken(Some(residuals[0].offset));
      NumberWordIsToken(Some(residuals[0].value));
      StoresAreTokens(name, residuals[1..]);
    }
  }

  lemma OpeningIsTokens(name: string, p: Piece)
    requires IsToken(name)
    ensures AllTokens(OpeningLines(name, p))
    ensures !HasHashSign(name) ==> AllUncut(OpeningLines(name, p))
  {
    hide IsToken, HasHashSign, NumberWord, BasisName;
    BasisNameIsToken(p.basis);
    NumberWordIsToken(Some(p.start));
    NumberWordIsToken(Some(p.length));
    NumberWordIsToken(Some(p.delta));
  }

  lemma ClosingIsTokens(name: string, p: Piece)
    requires IsToken(name) && IsSha256(p.digest)
    ensures AllTokens(ClosingLines(name, p))
    ensures !HasHashSign(name) ==> AllUncut(ClosingLines(name, p))
  {
    hide IsToken, HasHashSign;
    DigestIsToken(p.digest);
  }

  ghost predicate Digested(pieces: seq<Piece>) {
    forall i :: 0 <= i < |pieces| ==> IsSha256(pieces[i].digest)
  }

  ghost predicate NamesAreTokens(names: seq<string>) {
    forall i :: 0 <= i < |names| ==> IsToken(names[i])
  }

  ghost predicate NamesUncut(names: seq<string>) {
    forall i :: 0 <= i < |names| ==> !HasHashSign(names[i])
  }

  lemma ChunkIsTokens(name: string, p: Piece)
    requires IsToken(name) && IsSha256(p.digest)
    ensures AllTokens(ChunkLines(name, p))
    ensures !HasHashSign(name) ==> AllUncut(ChunkLines(name, p))
  {
    hide IsToken, HasHashSign, OpeningLines, StoreLines, ClosingLines, Tokens, Uncut;
    OpeningIsTokens(name, p);
    StoresAreTokens(name, p.residuals);
    ClosingIsTokens(name, p);
  }

  lemma {:induction false} BodyIsTokens(names: seq<string>, pieces: seq<Piece>)
    requires |names| == |pieces| && NamesAreTokens(names) && Digested(pieces)
    ensures AllTokens(BodyLines(names, pieces))
    ensures NamesUncut(names) ==> AllUncut(BodyLines(names, pieces))
    decreases |pieces|
  {
    hide IsToken, HasHashSign, ChunkLines, Tokens, Uncut, IsSha256;
    if pieces != [] {
      ChunkIsTokens(names[0], pieces[0]);
      BodyIsTokens(names[1..], pieces[1..]);
    }
  }

  lemma ProgramIsTokens(names: seq<string>, pieces: seq<Piece>)
    requires |names| == |pieces| && NamesAreTokens(names) && Digested(pieces)
    ensures AllTokens(ProgramLines(names, pieces))
    ensures NamesUncut(names) ==> AllUncut(ProgramLines(names, pieces))
  {
    hide NamesAreTokens, NamesUncut, BodyLines, Digested;
    BodyIsTokens(names, pieces);
    assert Tokens(EmitReceiptLine) && Tokens(HaltLine) && Uncut(EmitReceiptLine) && Uncut(HaltLine);
  }

  // ------------------------------------------------- names

  /** The infix and the number of a chunk name add neither a space nor a `#`. */
  lemma ChunkNameWords(prefix: string, index: nat)
    requires IsToken(prefix)
    ensures IsToken(ChunkName(prefix, index))
    ensures HasHashSign(ChunkName(prefix, index)) <==> HasHashSign(prefix)
  {
    var name, tail := ChunkName(prefix, index), "_chunk_" + Padded(index);
    assert name == prefix + tail;
    assert forall i :: 0 <= i < |tail| ==> !IsSpace(tail[i]) && tail[i] != '#';
  }

  lemma ChunkNamesWords(prefix: string, n: nat)
    requires IsToken(prefix)
    ensures NamesAreTokens(ChunkNames(prefix, n))
    ensures !HasHashSign(prefix) ==> NamesUncut(ChunkNames(prefix, n))
  {
    hide IsToken, HasHashSign, ChunkName;
    forall i: nat | i < n
      ensures IsToken(ChunkName(prefix, i)) && (!HasHashSign(prefix) ==> !HasHashSign(ChunkName(prefix, i)))
    {
      ChunkNameWords(prefix, i);
    }
  }

  // ------------------------------------------------- headers

  lemma DecimalHasNoBreaks(n: nat)
    ensures NoBreaks(Decimal(n))
  {
  }

  lemma CommentWith(key: string, value: string)
    requires IsComment(key) && NoBreaks(key) && NoBreaks(value)
    ensures IsComment(key + value) && NoBreaks(key + value)
  {
    NoBreaksBoth(key, value);
  }

  predicate Header(texts: seq<string>) {
    forall t :: t in texts ==> NoBreaks(t) && IsComment(t)
  }

  lemma CountLabels()
    ensures NoBreaks("# chunk_size ") && NoBreaks("# chunk_count ") && NoBreaks("# total_residual_count ")
  {
  }

  lemma FormatLabels()
    ensures NoBreaks("# BOG container BOG-2.0") && NoBreaks("# vm_format BOGBIN-2.0")
  {
  }

  lemma DigestLabels()
    ensures NoBreaks("# ") && NoBreaks("# BOGBIN v1.2 chunked pack ") && NoBreaks("receipt ") && NoBreaks(WHOLE)
  {
  }

  lemma CountsAreComments(c: Container)
    ensures Header(Counts(c))
  {
    hide NoBreaks, Decimal;
    CountLabels();
    DecimalHasNoBreaks(c.chunkSize);
    DecimalHasNoBreaks(c.chunkCount);
    DecimalHasNoBreaks(c.totalResiduals);
    CommentWith("# chunk_size ", Decimal(c.chunkSize));
    CommentWith("# chunk_count ", Decimal(c.chunkCount));
    CommentWith("# total_residual_count ", Decimal(c.totalResiduals));
  }

  lemma PackHeaderIsComments(c: Container)
    requires IsSha256(c.wholeSha)
    ensures Header(PackHeader(c))
  {
    hide NoBreaks, Counts, IsSha256, IsToken;
    CountsAreComments(c);
    DigestIsToken(c.wholeSha);
    DigestLabels();
    CommentWith("# BOGBIN v1.2 chunked pack ", "receipt ");
    CommentWith("# BOGBIN v1.2 chunked pack " + "receipt ", WHOLE);
    CommentWith("# BOGBIN v1.2 chunked pack " + "receipt " + WHOLE, c.wholeSha);
  }

  lemma ContainerHeaderIsComments(c: Container)
    requires IsSha256(c.wholeSha)
    ensures Header(ContainerHeader(c))
  {
    hide NoBreaks, Counts, IsSha256, IsToken;
    CountsAreComments(c);
    DigestIsToken(c.wholeSha);
    FormatLabels();
    DigestLabels();
    CommentWith("# ", WHOLE);
    CommentWith("# " + WHOLE, c.wholeSha);
  }

  // ------------------------------------------------- programs

  /** The text of a program whose names hold no `#` assembles as its lines do. */
  lemma UncutProgramAssembles(header: seq<string>, names: seq<string>, pieces: seq<Piece>)
    requires Header(header) && |names| == |pieces| && NamesAreTokens(names) && NamesUncut(names) && Digested(pieces)
    ensures Assembled(TextOf(header + Printed(ProgramLines(names, pieces)))) == AssembleAll(EMPTY, ProgramLines(names, pieces))
  {
    hide NamesAreTokens, NamesUncut, ProgramLines, Digested, Assembled, AssembleAll, TextOf, Printed, AllTokens, AllUncut;
    ProgramIsTokens(names, pieces);
    ProgramIsLong(names, pieces);
    TextAssembles(header, ProgramLines(names, pieces));
  }

  lemma ProgramIsLong(names: seq<string>, pieces: seq<Piece>)
    requires |names| == |pieces|
    ensures ProgramLines(names, pieces) != []
    ensures pieces != [] ==> |ProgramLines(names, pieces)| > 2 && ProgramLines(names, pieces)[2] == LoadLine(names[0], pieces[0])
  {
    hide StoreLines, ClosingLines;
  }

  /** The text of a program whose first name holds a `#` is refused. */
  lemma CutProgramIsRefused(header: seq<string>, names: seq<string>, pieces: seq<Piece>)
    requires Header(header) && |names| == |pieces| && NamesAreTokens(names) && Digested(pieces)
    requires pieces != [] && HasHashSign(names[0])
    ensures Assembled(TextOf(header + Printed(ProgramLines(names, pieces)))).Err?
  {
    hide IsToken, HasHashSign, ProgramLines, Digested, AssembleLines, SplitLines, TextOf, Printed, AllTokens, Print, ReadLine, NoBreaks, IsComment;
    ProgramIsTokens(names, pieces);
    ProgramIsLong(names, pieces);
    var lines := ProgramLines(names, pieces);
    PrintedSplits(header, lines);
    PrintedAt(lines, 2);
    CutLoadIsRefused(names[0], Some(pieces[0].start), Some(pieces[0].length), Some(pieces[0].delta));
    assert (header + Printed(lines))[|header| + 2] == Printed(lines)[2];
    BadLineStops(EMPTY, header + Printed(lines), |header| + 2);
  }
}
