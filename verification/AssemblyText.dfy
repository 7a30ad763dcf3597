/**
 The text of assembly (bogvm/assembler.py): how it falls into lines, what the cut at `#` leaves of a line, and
 how the words of a line are read. Every line has a text that reads as that line, and the theorem about it says
 what becomes of any printed line, comment signs in its names included.
 */
module AssemblyText {
  import opened Wrappers
  import opened Decimals

  datatype ClaimAction = DoInterfere | DoComputeTension | DoVerify | DoAccept | DoReject | DoQuarantine

  datatype Line =
    | CreateNodeLine(name: string)
    | CreateEdgeLine(source: string, target: string, kind: string)
    | CreateClaimLine(name: string, source: string, target: string)
    | ActivateLine(node: string, strength: Number)
    | PropagateLine(source: string, kind: string, depth: Number)
    | DecayLine(factor: Number)
    | ClaimLine(action: ClaimAction, claim: string)
    | LogReceiptLine | EmitReceiptLine | HaltLine | NoOpLine
    | DeclareBasisLine(basis: string)
    | DataBlockLine(name: string)
    | LoadCoefficientsLine(name: string, start: Number, length: Number, delta: Number)
    | SynthesizeLine(name: string)
    | StoreResidualLine(name: string, offset: Number, value: Number)
    | ApplyResidualLine(name: string)
    | VerifyHashLine(name: string, digest: string)
    | AcceptDataLine(name: string)
    | RejectDataLine(name: string)

  datatype AssemblerError =
    | WrongWordCount | UnknownOperation | BadNumber
    | UnknownNodeName | UnknownClaimName | UnknownDataName | UnknownEdgeKind | TableFull | FieldRange | ByteRange

  // ------------------------------------------------- characters

  /** `str.isspace` for one character: tab to carriage return, the separators 1C to 1F, and Unicode's spaces. */
  predicate IsSpace(c: char) {
    '\t' <= c <= '\r' || '\U{1C}' <= c <= ' ' || c == '\U{85}' || c == '\U{A0}' || c == '\U{1680}'
    || '\U{2000}' <= c <= '\U{200A}' || c == '\U{2028}' || c == '\U{2029}' || c == '\U{202F}' || c == '\U{205F}' || c == '\U{3000}'
  }

  /** Where `str.splitlines` breaks. */
  predicate IsBreak(c: char) {
    '\n' <= c <= '\r' || '\U{1C}' <= c <= '\U{1E}' || c == '\U{85}' || c == '\U{2028}' || c == '\U{2029}'
  }

  predicate IsHashSign(c: char) {
    c == '#'
  }

  /** A non-empty single token. */
  predicate IsToken(name: string) {
    name != "" && forall i :: 0 <= i < |name| ==> !IsSpace(name[i])
  }

  predicate NoBreaks(s: string) {
    forall i :: 0 <= i < |s| ==> !IsBreak(s[i])
  }

  function Upper(s: string): (r: string)
    ensures |r| == |s|
  {
    seq(|s|, i requires 0 <= i < |s| => if 'a' <= s[i] <= 'z' then (s[i] as int - 32) as char else s[i])
  }

  function Lower(s: string): (r: string)
    ensures |r| == |s|
  {
    seq(|s|, i requires 0 <= i < |s| => if 'A' <= s[i] <= 'Z' then (s[i] as int + 32) as char else s[i])
  }

  // ------------------------------------------------- lines and words

  /** The number of characters in front of the first that satisfies `stop`. */
  function Span(stop: char -> bool, s: string): (n: nat)
    ensures n <= |s| && (forall i :: 0 <= i < n ==> !stop(s[i])) && (n < |s| ==> stop(s[n]))
  {
    if s == "" || stop(s[0]) then 0 else 1 + Span(stop, s[1..])
  }

  /** `str.splitlines`; a carriage return and a line feed are one break. */
  function SplitLines(text: string): seq<string>
    decreases |text|
  {
    if text == "" then []
    else
      var n := Span(IsBreak, text);
      if n == |text| then [text]
      else
        var width := if text[n] == '\r' && n + 1 < |text| && text[n + 1] == '\n' then 2 else 1;
        [text[..n]] + SplitLines(text[n + width..])
  }

  /** `line.split("#", 1)[0]`. */
  function Cut(line: string): string {
    line[..Span(IsHashSign, line)]
  }

  /** `str.split`. */
  function Words(line: string): seq<string>
    decreases |line|
  {
    if line == "" then []
    else if IsSpace(line[0]) then Words(line[1..])
    else
      var n := Span(IsSpace, line);
      [line[..n]] + Words(line[n..])
  }

  /** `sep.join(parts)`. */
  function JoinedBy(sep: char, parts: seq<string>): string {
    if parts == [] then ""
    else if |parts| == 1 then parts[0]
    else parts[0] + [sep] + JoinedBy(sep, parts[1..])
  }

  /** `"\n".join(lines) + "\n"`. */
  function TextOf(lines: seq<string>): string {
    JoinedBy('\n', lines) + "\n"
  }

  // ------------------------------------------------- numbers

  /** A word for a number; one that `int` refuses when there is none. */
  function NumberWord(n: Number): string {
    match n
    case None => "?"
    case Some(v) => if v >= 0 then Decimal(v) else "-" + Decimal(-v)
  }

  // ------------------------------------------------- reading a line

  /** What the first word of a line asks for. */
  datatype Operation =
    | CreateNodeWord | CreateEdgeWord | CreateClaimWord | ActivateWord | PropagateWord | DecayWord | ClaimWord(action: ClaimAction)
    | LogReceiptWord | EmitReceiptWord | HaltWord | NoOpWord | DeclareBasisWord | DataBlockWord | LoadCoefficientsWord
    | SynthesizeWord | StoreResidualWord | ApplyResidualWord | VerifyHashWord | AcceptDataWord | RejectDataWord

  function Mnemonic(op: Operation): string {
    match op
    case CreateNodeWord => "CREATE_NODE"
    case CreateEdgeWord => "CREATE_EDGE"
    case CreateClaimWord => "CREATE_CLAIM"
    case ActivateWord => "ACTIVATE"
    case PropagateWord => "PROPAGATE"
    case DecayWord => "DECAY"
    case ClaimWord(DoInterfere) => "INTERFERE"
    case ClaimWord(DoComputeTension) => "COMPUTE_TENSION"
    case ClaimWord(DoVerify) => "VERIFY"
    case ClaimWord(DoAccept) => "ACCEPT"
    case ClaimWord(DoReject) => "REJECT"
    case ClaimWord(DoQuarantine) => "QUARANTINE"
    case LogReceiptWord => "LOG_RECEIPT"
    case EmitReceiptWord => "EMIT_RECEIPT"
    case HaltWord => "HALT"
    case NoOpWord => "NOOP"
    case DeclareBasisWord => "DECLARE_BASIS"
    case DataBlockWord => "DATA_BLOCK"
    case LoadCoefficientsWord => "LOAD_COEFFICIENTS"
    case SynthesizeWord => "SYNTHESIZE"
    case StoreResidualWord => "STORE_RESIDUAL"
    case ApplyResidualWord => "APPLY_RESIDUAL"
    case VerifyHashWord => "VERIFY_HASH"
    case AcceptDataWord => "ACCEPT_DATA"
    case RejectDataWord => "REJECT_DATA"
  }

  const OPERATIONS: seq<Operation> := [
    CreateNodeWord, CreateEdgeWord, CreateClaimWord, ActivateWord, PropagateWord, DecayWord, ClaimWord(DoInterfere),
    ClaimWord(DoComputeTension), ClaimWord(DoVerify), ClaimWord(DoAccept), ClaimWord(DoReject), ClaimWord(DoQuarantine),
    LogReceiptWord, EmitReceiptWord, HaltWord, DeclareBasisWord, DataBlockWord, LoadCoefficientsWord, SynthesizeWord,
    VerifyHashWord, AcceptDataWord, RejectDataWord, StoreResidualWord, ApplyResidualWord, NoOpWord]

  /** The first of the operations that has this name: the chain of comparisons of the program. */
  function OperationOf(word: string, among: seq<Operation>): (r: Option<Operation>)
    ensures r.Some? ==> r.value in among && Mnemonic(r.value) == word
    ensures r.None? ==> forall op :: op in among ==> Mnemonic(op) != word
  {
    if among == [] then None
    else if Mnemonic(among[0]) == word then Some(among[0])
    else OperationOf(word, among[1..])
  }

  /** How many words a line may have; four operations do not count them. */
  predicate Takes(op: Operation, n: nat) {
    match op
    case LogReceiptWord | EmitReceiptWord | HaltWord | NoOpWord => true
    case CreateEdgeWord | CreateClaimWord | PropagateWord | StoreResidualWord => n == 4
    case LoadCoefficientsWord => n == 4 || n == 5
    case ActivateWord | VerifyHashWord => n == 3
    case _ => n == 2
  }

  function LineOf(op: Operation, words: seq<string>): Line
    requires Takes(op, |words|)
  {
    match op
    case LogReceiptWord => LogReceiptLine
    case EmitReceiptWord => EmitReceiptLine
    case HaltWord => HaltLine
    case NoOpWord => NoOpLine
    case CreateNodeWord => CreateNodeLine(words[1])
    case CreateEdgeWord => CreateEdgeLine(words[1], words[2], Lower(words[3]))
    case CreateClaimWord => CreateClaimLine(words[1], words[2], words[3])
    case ActivateWord => ActivateLine(words[1], IntOf(words[2]))
    case PropagateWord => PropagateLine(words[1], Lower(words[2]), IntOf(words[3]))
    case DecayWord => DecayLine(IntOf(words[1]))
    case ClaimWord(action) => ClaimLine(action, words[1])
    case DeclareBasisWord => DeclareBasisLine(words[1])
    case DataBlockWord => DataBlockLine(words[1])
    case LoadCoefficientsWord =>
      LoadCoefficientsLine(words[1], IntOf(words[2]), IntOf(words[3]), if |words| == 5 then IntOf(words[4]) else Some(0))
    case SynthesizeWord => SynthesizeLine(words[1])
    case StoreResidualWord => StoreResidualLine(words[1], IntOf(words[2]), IntOf(words[3]))
    case ApplyResidualWord => ApplyResidualLine(words[1])
    case VerifyHashWord => VerifyHashLine(words[1], words[2])
    case AcceptDataWord => AcceptDataLine(words[1])
    case RejectDataWord => RejectDataLine(words[1])
  }

  /** The words of a line: its operation, a check of their number, and its fields. */
  function ReadWords(words: seq<string>): Result<Line, AssemblerError>
    requires words != []
  {
    match OperationOf(Upper(words[0]), OPERATIONS)
    case None => Err(UnknownOperation)
    case Some(op) => if Takes(op, |words|) then Ok(LineOf(op, words)) else Err(WrongWordCount)
  }

  /** What a line of text says: nothing, or one line of assembly. */
  function ReadLine(text: string): Result<Option<Line>, AssemblerError> {
    var words := Words(Cut(text));
    if words == [] then Ok(None)
    else
      match ReadWords(words)
      case Ok(line) => Ok(Some(line))
      case Err(e) => Err(e)
  }

  // ------------------------------------------------- printing a line

  function OperationIn(line: Line): Operation {
    match line
    case CreateNodeLine(_) => CreateNodeWord
    case CreateEdgeLine(_, _, _) => CreateEdgeWord
    case CreateClaimLine(_, _, _) => CreateClaimWord
    case ActivateLine(_, _) => ActivateWord
    case PropagateLine(_, _, _) => PropagateWord
    case DecayLine(_) => DecayWord
    case ClaimLine(action, _) => ClaimWord(action)
    case LogReceiptLine => LogReceiptWord
    case EmitReceiptLine => EmitReceiptWord
    case HaltLine => HaltWord
    case NoOpLine => NoOpWord
    case DeclareBasisLine(_) => DeclareBasisWord
    case DataBlockLine(_) => DataBlockWord
    case LoadCoefficientsLine(_, _, _, _) => LoadCoefficientsWord
    case SynthesizeLine(_) => SynthesizeWord
    case StoreResidualLine(_, _, _) => StoreResidualWord
    case ApplyResidualLine(_) => ApplyResidualWord
    case VerifyHashLine(_, _) => VerifyHashWord
    case AcceptDataLine(_) => AcceptDataWord
    case RejectDataLine(_) => RejectDataWord
  }

  /** The words after the first. */
  function Fields(line: Line): seq<string> {
    match line
    case CreateNodeLine(name) => [name]
    case CreateEdgeLine(source, target, kind) => [source, target, kind]
    case CreateClaimLine(name, source, target) => [name, source, target]
    case ActivateLine(node, strength) => [node, NumberWord(strength)]
    case PropagateLine(source, kind, depth) => [source, kind, NumberWord(depth)]
    case DecayLine(factor) => [NumberWord(factor)]
    case ClaimLine(_, claim) => [claim]
    case DeclareBasisLine(basis) => [basis]
    case DataBlockLine(name) => [name]
    case LoadCoefficientsLine(name, start, length, delta) => [name, NumberWord(start), NumberWord(length), NumberWord(delta)]
    case SynthesizeLine(name) => [name]
    case StoreResidualLine(name, offset, value) => [name, NumberWord(offset), NumberWord(value)]
    case ApplyResidualLine(name) => [name]
    case VerifyHashLine(name, digest) => [name, digest]
    case AcceptDataLine(name) => [name]
    case RejectDataLine(name) => [name]
    case _ => []
  }

  function LineWords(line: Line): seq<string> {
    [Mnemonic(OperationIn(line))] + Fields(line)
  }

  /** The text of a line: its words with one space between them. */
  function Print(line: Line): string {
    JoinedBy(' ', LineWords(line))
  }

  function Printed(lines: seq<Line>): (r: seq<string>)
    ensures |r| == |lines|
  {
    if lines == [] then [] else [Print(lines[0])] + Printed(lines[1..])
  }

  lemma PrintedCons(line: Line, rest: seq<Line>)
    ensures Printed([line] + rest) == [Print(line)] + Printed(rest)
  {
    hide Print;
    assert ([line] + rest)[1..] == rest;
  }

  lemma {:induction false} PrintedBoth(x: seq<Line>, y: seq<Line>)
    ensures Printed(x + y) == Printed(x) + Printed(y)
    decreases |x|
  {
    hide Print, Printed;
    if x == [] {
      NothingPrinted();
      assert x + y == y && Printed(x) + Printed(y) == Printed(y);
    } else {
      PrintedBoth(x[1..], y);
      PrintedCons(x[0], x[1..]);
      PrintedCons(x[0], x[1..] + y);
      assert x == [x[0]] + x[1..] && x + y == [x[0]] + (x[1..] + y);
      assert [Print(x[0])] + (Printed(x[1..]) + Printed(y)) == [Print(x[0])] + Printed(x[1..]) + Printed(y);
    }
  }

  lemma NothingPrinted()
    ensures Printed([]) == []
  {
  }

  /** The names of a line are tokens, and an edge kind is in the lower case that reading gives it. */
  predicate Tokens(line: Line) {
    && (forall w :: w in Fields(line) ==> IsToken(w))
    && (line.CreateEdgeLine? ==> Lower(line.kind) == line.kind)
    && (line.PropagateLine? ==> Lower(line.kind) == line.kind)
  }

  predicate HasHashSign(w: string) {
    '#' in w
  }

  /** No word of a line has a `#` in it. */
  predicate Uncut(line: Line) {
    forall w :: w in Fields(line) ==> !HasHashSign(w)
  }

  // ------------------------------------------------- numbers read back

  lemma NumberReads(n: Number)
    ensures IntOf(NumberWord(n)) == n
  {
    match n
    case None => assert DigitsOf("?") == None;
    case Some(v) =>
      if v >= 0 {
        DecimalReads(v);
      } else {
        DecimalReads(-v);
        SignIsNoDigit('-', Decimal(-v));
        assert NumberWord(n)[1..] == Decimal(-v);
      }
  }

  lemma NumberWordIsToken(n: Number)
    ensures IsToken(NumberWord(n)) && !HasHashSign(NumberWord(n))
  {
  }

  // ------------------------------------------------- words read back

  lemma SpanIs(stop: char -> bool, s: string, n: nat)
    requires n <= |s| && (forall i :: 0 <= i < n ==> !stop(s[i])) && (n < |s| ==> stop(s[n]))
    ensures Span(stop, s) == n
  {
  }

  /** A token is one word, whatever follows it after a space. */
  lemma WordThen(word: string, rest: string)
    requires IsToken(word)
    ensures Words(word) == [word]
    ensures Words(word + " " + rest) == [word] + Words(rest)
  {
    SpanIs(IsSpace, word, |word|);
    assert word[..|word|] == word && word[|word|..] == "";
    var line := word + " " + rest;
    SpanIs(IsSpace, line, |word|);
    assert line[0] == word[0];
    assert line[..|word|] == word && line[|word|..] == " " + rest;
    assert (" " + rest)[1..] == rest;
  }

  lemma CutThen(x: string, rest: string)
    ensures Cut(x + rest) == if HasHashSign(x) then Cut(x) else x + Cut(rest)
    ensures !HasHashSign(x) ==> Cut(x) == x
  {
    var n := Span(IsHashSign, x);
    if HasHashSign(x) {
      assert n < |x|;
      SpanIs(IsHashSign, x + rest, n);
      assert (x + rest)[..n] == x[..n];
    } else {
      SpanIs(IsHashSign, x, |x|);
      var m := Span(IsHashSign, rest);
      SpanIs(IsHashSign, x + rest, |x| + m);
      assert (x + rest)[..|x| + m] == x + rest[..m];
    }
  }

  /** What the cut leaves of a list of words: those in front of the first with a `#`, and the front part of that one. */
  function CutWords(words: seq<string>): seq<string> {
    if words == [] then []
    else if HasHashSign(words[0]) then (if Cut(words[0]) == "" then [] else [Cut(words[0])])
    else [words[0]] + CutWords(words[1..])
  }

  lemma CutToken(word: string)
    requires IsToken(word)
    ensures Words(Cut(word)) == if Cut(word) == "" then [] else [Cut(word)]
  {
    if Cut(word) != "" {
      WordThen(Cut(word), "");
    }
  }

  lemma CutSpace(rest: string)
    ensures Cut(" " + rest) == " " + Cut(rest)
  {
    CutThen(" ", rest);
  }

  /** One more word in front. */
  lemma WordCons(word: string, rest: string)
    requires IsToken(word)
    ensures Words(Cut(word + " " + rest))
         == if HasHashSign(word) then (if Cut(word) == "" then [] else [Cut(word)]) else [word] + Words(Cut(rest))
  {
    hide IsToken, HasHashSign, Cut, Words;
    CutThen(word, " " + rest);
    CutSpace(rest);
    CutToken(word);
    WordThen(word, Cut(rest));
    assert word + " " + rest == word + (" " + rest);
    assert word + " " + Cut(rest) == word + (" " + Cut(rest));
  }

  lemma NoWords()
    ensures Words(Cut("")) == []
  {
  }

  lemma LastWord(word: string)
    requires IsToken(word)
    ensures Words(Cut(word)) == CutWords([word])
  {
    hide IsToken, HasHashSign, Cut, Words;
    CutThen(word, "");
    CutToken(word);
    WordThen(word, "");
    assert [word][1..] == [];
  }

  /** Reading printed words: they come back as far as the cut leaves them. */
  lemma {:induction false} WordsReadBack(words: seq<string>)
    requires forall w :: w in words ==> IsToken(w)
    ensures Words(Cut(JoinedBy(' ', words))) == CutWords(words)
  {
    hide IsToken, HasHashSign, Cut, Words;
    if words == [] {
      NoWords();
    } else if |words| == 1 {
      LastWord(words[0]);
      assert words == [words[0]];
    } else {
      WordsReadBack(words[1..]);
      WordCons(words[0], JoinedBy(' ', words[1..]));
    }
  }

  // ------------------------------------------------- lines read back

  /** Two letters that tell the operations apart: the third, and the last but one. */
  function Marks(op: Operation): (char, char) {
    match op
    case CreateNodeWord => ('E', 'D') case CreateEdgeWord => ('E', 'G') case CreateClaimWord => ('E', 'I')
    case ActivateWord => ('T', 'T') case PropagateWord => ('O', 'T') case DecayWord => ('C', 'A')
    case ClaimWord(DoInterfere) => ('T', 'R') case ClaimWord(DoComputeTension) => ('M', 'O')
    case ClaimWord(DoVerify) => ('R', 'F') case ClaimWord(DoAccept) => ('C', 'P')
    case ClaimWord(DoReject) => ('J', 'C') case ClaimWord(DoQuarantine) => ('A', 'N')
    case LogReceiptWord => ('G', 'P') case EmitReceiptWord => ('I', 'P') case HaltWord => ('L', 'L')
    case NoOpWord => ('O', 'O') case DeclareBasisWord => ('C', 'I') case DataBlockWord => ('T', 'C')
    case LoadCoefficientsWord => ('A', 'T') case SynthesizeWord => ('N', 'Z') case StoreResidualWord => ('O', 'A')
    case ApplyResidualWord => ('P', 'A') case VerifyHashWord => ('R', 'S') case AcceptDataWord => ('C', 'T')
    case RejectDataWord => ('J', 'T')
  }

  predicate Marked(word: string, marks: (char, char)) {
    |word| > 2 && word[2] == marks.0 && word[|word| - 2] == marks.1
  }

  lemma AllOperations(op: Operation)
    ensures op in OPERATIONS
  {
    match op
    case CreateNodeWord => assert OPERATIONS[0] == op;
    case CreateEdgeWord => assert OPERATIONS[1] == op;
    case CreateClaimWord => assert OPERATIONS[2] == op;
    case ActivateWord => assert OPERATIONS[3] == op;
    case PropagateWord => assert OPERATIONS[4] == op;
    case DecayWord => assert OPERATIONS[5] == op;
    case ClaimWord(DoInterfere) => assert OPERATIONS[6] == op;
    case ClaimWord(DoComputeTension) => assert OPERATIONS[7] == op;
    case ClaimWord(DoVerify) => assert OPERATIONS[8] == op;
    case ClaimWord(DoAccept) => assert OPERATIONS[9] == op;
    case ClaimWord(DoReject) => assert OPERATIONS[10] == op;
    case ClaimWord(DoQuarantine) => assert OPERATIONS[11] == op;
    case LogReceiptWord => assert OPERATIONS[12] == op;
    case EmitReceiptWord => assert OPERATIONS[13] == op;
    case HaltWord => assert OPERATIONS[14] == op;
    case DeclareBasisWord => assert OPERATIONS[15] == op;
    case DataBlockWord => assert OPERATIONS[16] == op;
    case LoadCoefficientsWord => assert OPERATIONS[17] == op;
    case SynthesizeWord => assert OPERATIONS[18] == op;
    case VerifyHashWord => assert OPERATIONS[19] == op;
    case AcceptDataWord => assert OPERATIONS[20] == op;
    case RejectDataWord => assert OPERATIONS[21] == op;
    case StoreResidualWord => assert OPERATIONS[22] == op;
    case ApplyResidualWord => assert OPERATIONS[23] == op;
    case NoOpWord => assert OPERATIONS[24] == op;
  }

  /** From `A` to the underscore: no space, no small letter, no `#`. */
  predicate IsCapital(c: char) {
    'A' <= c <= '_'
  }

  predicate Capitals(s: string) {
    forall i :: 0 <= i < |s| ==> IsCapital(s[i])
  }

  lemma GraphCapitals(op: Operation)
    requires op.CreateNodeWord? || op.CreateEdgeWord? || op.CreateClaimWord? || op.ActivateWord? || op.PropagateWord? || op.DecayWord?
    ensures Marked(Mnemonic(op), Marks(op)) && Capitals(Mnemonic(op))
  {
  }

  lemma ClaimCapitals(action: ClaimAction)
    ensures var op := ClaimWord(action); Marked(Mnemonic(op), Marks(op)) && Capitals(Mnemonic(op))
  {
  }

  lemma BareCapitals(op: Operation)
    requires op.LogReceiptWord? || op.EmitReceiptWord? || op.HaltWord? || op.NoOpWord? || op.DeclareBasisWord? || op.DataBlockWord?
    ensures Marked(Mnemonic(op), Marks(op)) && Capitals(Mnemonic(op))
  {
  }

  lemma FillCapitals(op: Operation)
    requires op.LoadCoefficientsWord? || op.SynthesizeWord? || op.StoreResidualWord? || op.ApplyResidualWord?
    ensures Marked(Mnemonic(op), Marks(op)) && Capitals(Mnemonic(op))
  {
  }

  lemma CheckCapitals(op: Operation)
    requires op.VerifyHashWord? || op.AcceptDataWord? || op.RejectDataWord?
    ensures Marked(Mnemonic(op), Marks(op)) && Capitals(Mnemonic(op))
  {
  }

  lemma MnemonicCapitals(op: Operation)
    ensures Marked(Mnemonic(op), Marks(op)) && Capitals(Mnemonic(op))
  {
    hide Mnemonic, Capitals, Marked, Marks;
    match op
    case CreateNodeWord | CreateEdgeWord | CreateClaimWord | ActivateWord | PropagateWord | DecayWord => GraphCapitals(op);
    case ClaimWord(action) => ClaimCapitals(action);
    case LogReceiptWord | EmitReceiptWord | HaltWord | NoOpWord | DeclareBasisWord | DataBlockWord => BareCapitals(op);
    case LoadCoefficientsWord | SynthesizeWord | StoreResidualWord | ApplyResidualWord => FillCapitals(op);
    case VerifyHashWord | AcceptDataWord | RejectDataWord => CheckCapitals(op);
  }

  lemma MnemonicsDiffer(a: Operation, b: Operation)
    requires Mnemonic(a) == Mnemonic(b)
    ensures a == b
  {
    hide Mnemonic, Capitals;
    MnemonicCapitals(a);
    MnemonicCapitals(b);
  }

  lemma CapitalsRead(s: string)
    requires s != "" && Capitals(s)
    ensures Upper(s) == s && IsToken(s) && !HasHashSign(s)
  {
    forall i | 0 <= i < |s|
      ensures Upper(s)[i] == s[i] && !IsSpace(s[i]) && s[i] != '#'
    {
      assert IsCapital(s[i]);
    }
  }

  lemma OperationReads(op: Operation)
    ensures OperationOf(Upper(Mnemonic(op)), OPERATIONS) == Some(op)
  {
    hide Mnemonic, OPERATIONS, OperationOf, Upper;
    AllOperations(op);
    MnemonicCapitals(op);
    CapitalsRead(Mnemonic(op));
    var found := OperationOf(Mnemonic(op), OPERATIONS);
    if found.Some? {
      MnemonicsDiffer(op, found.value);
    }
  }

  lemma {:induction false} NothingCut(words: seq<string>)
    requires forall w :: w in words ==> !HasHashSign(w)
    ensures CutWords(words) == words
  {
    hide HasHashSign;
    if words != [] {
      assert words == [words[0]] + words[1..];
      NothingCut(words[1..]);
    }
  }

  /** A list of words loses those from the first with a `#` on, but for the front part of that one. */
  lemma {:induction false} CutShortens(words: seq<string>, k: nat)
    requires k < |words| && HasHashSign(words[k])
    ensures |CutWords(words)| <= k + 1
    ensures words != [] && !HasHashSign(words[0]) ==> CutWords(words) != [] && CutWords(words)[0] == words[0]
  {
    hide HasHashSign;
    if k > 0 && !HasHashSign(words[0]) {
      CutShortens(words[1..], k - 1);
    }
  }

  lemma LineWordsAreTokens(line: Line)
    requires Tokens(line)
    ensures forall w :: w in LineWords(line) ==> IsToken(w)
    ensures !HasHashSign(LineWords(line)[0])
  {
    hide Mnemonic, IsToken, HasHashSign, Fields;
    MnemonicCapitals(OperationIn(line));
    CapitalsRead(Mnemonic(OperationIn(line)));
    forall w | w in LineWords(line)
      ensures IsToken(w)
    {
      if w != Mnemonic(OperationIn(line)) {
        assert w in Fields(line);
      }
    }
  }

  /** What is left of the words of a printed line: its operation at least, and it can be shorter. */
  lemma PrintedReads(line: Line)
    requires Tokens(line)
    ensures Words(Cut(Print(line))) == CutWords(LineWords(line)) && CutWords(LineWords(line)) != []
    ensures CutWords(LineWords(line))[0] == Mnemonic(OperationIn(line))
  {
    hide Mnemonic, IsToken, HasHashSign, Fields, Cut, Words;
    LineWordsAreTokens(line);
    WordsReadBack(LineWords(line));
  }

  lemma FieldsRead(line: Line)
    requires Tokens(line)
    ensures Takes(OperationIn(line), |LineWords(line)|) && LineOf(OperationIn(line), LineWords(line)) == line
  {
    hide Mnemonic, IsToken, IntOf, NumberWord, Lower;
    match line
    case ActivateLine(_, strength) => NumberReads(strength);
    case PropagateLine(_, _, depth) => NumberReads(depth);
    case DecayLine(factor) => NumberReads(factor);
    case LoadCoefficientsLine(_, start, length, delta) =>
      NumberReads(start);
      NumberReads(length);
      NumberReads(delta);
    case StoreResidualLine(_, offset, value) =>
      NumberReads(offset);
      NumberReads(value);
    case _ =>
  }

  /** A line whose words are tokens without `#` prints as a text that reads as it. */
  lemma LineReadsBack(line: Line)
    requires Tokens(line) && Uncut(line)
    ensures ReadLine(Print(line)) == Ok(Some(line))
  {
    hide Mnemonic, Tokens, HasHashSign, Fields, Cut, Words, Takes, LineOf, Upper, OPERATIONS, OperationOf, Print;
    PrintedReads(line);
    OperationReads(OperationIn(line));
    MnemonicCapitals(OperationIn(line));
    CapitalsRead(Mnemonic(OperationIn(line)));
    var words := LineWords(line);
    forall w | w in words
      ensures !HasHashSign(w)
    {
      if w != words[0] {
        assert w in Fields(line);
      }
    }
    NothingCut(words);
    FieldsRead(line);
  }

  lemma {:induction false} CutWordsHoldNone(words: seq<string>)
    ensures forall w :: w in CutWords(words) ==> !HasHashSign(w)
  {
    hide HasHashSign;
    if words != [] {
      CutHoldsNone(words[0]);
      CutWordsHoldNone(words[1..]);
    }
  }

  lemma CutHoldsNone(word: string)
    ensures !HasHashSign(Cut(word))
  {
  }

  lemma LowerHashSigns(w: string)
    requires !HasHashSign(w)
    ensures !HasHashSign(Lower(w))
  {
  }

  /** Reading words without `#` gives a line without one. */
  lemma ReadIsUncut(op: Operation, words: seq<string>)
    requires Takes(op, |words|) && forall w :: w in words ==> !HasHashSign(w)
    ensures Uncut(LineOf(op, words))
  {
    hide HasHashSign, NumberWord, IntOf, Lower;
    forall i | 0 <= i < |words|
      ensures !HasHashSign(words[i]) && !HasHashSign(Lower(words[i])) && !HasHashSign(NumberWord(IntOf(words[i])))
    {
      assert words[i] in words;
      LowerHashSigns(words[i]);
      NumberWordIsToken(IntOf(words[i]));
    }
    NumberWordIsToken(Some(0));
  }

  /** A printed line comes back from its text exactly when no `#` is in its words. */
  lemma ReadsBackExactly(line: Line)
    requires Tokens(line)
    ensures ReadLine(Print(line)) == Ok(Some(line)) <==> Uncut(line)
  {
    hide Mnemonic, Tokens, HasHashSign, Cut, Words, Uncut, Takes, LineOf, Upper, OPERATIONS, OperationOf, Print;
    if Uncut(line) {
      LineReadsBack(line);
    } else if ReadLine(Print(line)) == Ok(Some(line)) {
      PrintedReads(line);
      var words := CutWords(LineWords(line));
      CutWordsHoldNone(LineWords(line));
      ReadIsUncut(OperationOf(Upper(words[0]), OPERATIONS).value, words);
    }
  }

  /** The cut at a `#` in the name leaves LOAD_COEFFICIENTS too few words. */
  lemma CutLoadIsRefused(name: string, start: Number, length: Number, delta: Number)
    requires IsToken(name) && HasHashSign(name)
    ensures ReadLine(Print(LoadCoefficientsLine(name, start, length, delta))) == Err(WrongWordCount)
  {
    hide Mnemonic, IsToken, HasHashSign, NumberWord, Cut, Words, Upper, OPERATIONS, OperationOf, Print;
    var line := LoadCoefficientsLine(name, start, length, delta);
    NumberWordIsToken(start);
    NumberWordIsToken(length);
    NumberWordIsToken(delta);
    PrintedReads(line);
    OperationReads(LoadCoefficientsWord);
    CutShortens(LineWords(line), 1);
  }

  // ------------------------------------------------- texts read back

  lemma {:induction false} TokenHasNoBreaks(w: string)
    requires IsToken(w)
    ensures NoBreaks(w)
  {
  }

  lemma NoBreaksBoth(x: string, y: string)
    requires NoBreaks(x) && NoBreaks(y)
    ensures NoBreaks(x + y)
  {
    hide IsBreak;
  }

  lemma SpaceIsNoBreak()
    ensures NoBreaks(" ")
  {
  }

  lemma {:induction false} JoinedHasNoBreaks(words: seq<string>)
    requires forall w :: w in words ==> IsToken(w)
    ensures NoBreaks(JoinedBy(' ', words))
  {
    hide IsToken, NoBreaks;
    if words == [] {
      EmptyHasNoBreaks();
    } else {
      TokenHasNoBreaks(words[0]);
      if |words| > 1 {
        var rest := JoinedBy(' ', words[1..]);
        JoinedHasNoBreaks(words[1..]);
        SpaceIsNoBreak();
        NoBreaksBoth(words[0], " ");
        NoBreaksBoth(words[0] + " ", rest);
      }
    }
  }

  lemma EmptyHasNoBreaks()
    ensures NoBreaks("")
  {
  }

  lemma PrintHasNoBreaks(line: Line)
    requires Tokens(line)
    ensures NoBreaks(Print(line))
  {
    hide Mnemonic, IsToken, NoBreaks, Fields;
    LineWordsAreTokens(line);
    JoinedHasNoBreaks(LineWords(line));
  }

  lemma FirstLine(line: string, rest: string)
    requires NoBreaks(line)
    ensures SplitLines(line + "\n" + rest) == [line] + SplitLines(rest)
  {
    var text := line + "\n" + rest;
    SpanIs(IsBreak, text, |line|);
    assert text[|line|] == '\n' && text[..|line|] == line && text[|line| + 1..] == rest;
  }

  /** Lines without breaks, each ended by a line feed, are the lines of their text. */
  lemma {:induction false} LinesReadBack(lines: seq<string>)
    requires lines != [] && forall l :: l in lines ==> NoBreaks(l)
    ensures SplitLines(TextOf(lines)) == lines
  {
    hide NoBreaks, SplitLines;
    var rest := if |lines| == 1 then "" else TextOf(lines[1..]);
    assert TextOf(lines) == lines[0] + "\n" + rest;
    FirstLine(lines[0], rest);
    if |lines| == 1 {
      NoLines();
    } else {
      LinesReadBack(lines[1..]);
    }
  }

  lemma NoLines()
    ensures SplitLines("") == []
  {
  }
}
