/** The instructions a chunk program assembles to, and exactly when it assembles. */
module ProgramCode {
  import opened Wrappers
  import opened Sorting
  import opened Optimizer
  import opened ResidualCodec
  import opened Instructions
  import opened Machine
  import opened AssemblyText
  import opened Assembler
  import opened AssembledPrograms
  import opened Programs

  function Instr(op: Op, flags: nat, target: nat, source: nat, param: nat): Instruction {
    Instruction(OpCode(op), flags, target, source, param)
  }

  function StoreCode(id: nat, residuals: seq<Patch>): seq<Instruction> {
    if residuals == [] then []
    else [Instr(StoreResidual, 0, id, residuals[0].offset, residuals[0].value)] + StoreCode(id, residuals[1..])
  }

  function OpeningCode(id: nat, basisId: nat, p: Piece): seq<Instruction> {
    [Instr(DeclareBasis, 0, basisId, 0, 0), Instr(LoadCoefficients, p.delta, id, p.start, p.length), Instr(Synthesize, 0, id, 0, 0)]
  }

  function ClosingCode(id: nat, digestId: nat): seq<Instruction> {
    [Instr(ApplyResidual, 0, id, 0, 0), Instr(VerifyHash, 0, id, digestId, 0), Instr(AcceptData, 0, id, 0, 0)]
  }

  function ChunkCode(id: nat, basisId: nat, digestId: nat, p: Piece): seq<Instruction> {
    OpeningCode(id, basisId, p) + StoreCode(id, p.residuals) + ClosingCode(id, digestId)
  }

  function IdOf(t: Symbols, name: string): nat {
    if name in t.ids then t.ids[name] else 0
  }

  /** The code of the chunks numbered from `first` on, with constants numbered by the table. */
  function BodyCode(t: Symbols, first: nat, pieces: seq<Piece>): seq<Instruction>
    decreases |pieces|
  {
    if pieces == [] then []
    else ChunkCode(first, IdOf(t, BasisName(pieces[0].basis)), IdOf(t, pieces[0].digest), pieces[0])
         + BodyCode(t, first + 1, pieces[1..])
  }

  // ------------------------------------------------- tables

  /** A table of at most 65536 names with its listing. */
  ghost predicate Table(t: Symbols) {
    Lists(t) && |t.ids| <= 65536
  }

  /** Every name keeps its id. */
  ghost predicate Grown(t: Symbols, u: Symbols) {
    forall n :: n in t.ids ==> n in u.ids && u.ids[n] == t.ids[n]
  }

  lemma InternTable(t: Symbols, name: string)
    requires Table(t) && Intern(t, name).Ok?
    ensures var u := Intern(t, name).value; Table(u) && Grown(t, u) && name in u.ids && u.ids[name] <= 65535
    ensures Intern(t, name).value.ids.Keys == t.ids.Keys + {name}
  {
    InternLists(t, name);
    if name !in t.ids {
      OneMoreKey(t.ids, name, |t.ids|);
    }
  }

  lemma IdFits(t: Symbols, name: string)
    requires Table(t) && name in t.ids
    ensures t.ids[name] <= 65535 && t.ids[name] in t.names && t.names[t.ids[name]] == name
  {
  }

  lemma NewId(t: Symbols, name: string)
    requires name !in t.ids && Intern(t, name).Ok?
    ensures var u := Intern(t, name).value; u.ids[name] == |t.ids| && |u.ids| == |t.ids| + 1
  {
    OneMoreKey(t.ids, name, |t.ids|);
  }

  // ------------------------------------------------- lines in sequence

  lemma {:induction false} AssembleInTwo(a: Asm, x: seq<Line>, y: seq<Line>)
    ensures AssembleAll(a, x + y) == match AssembleAll(a, x) case Ok(b) => AssembleAll(b, y) case Err(e) => Err(e)
    decreases |x|
  {
    hide Assemble;
    if x == [] {
      assert x + y == y;
    } else {
      assert (x + y)[1..] == x[1..] + y;
      match Assemble(a, x[0])
      case Ok(b) => AssembleInTwo(b, x[1..], y);
      case Err(_) =>
    }
  }

  lemma AssembleOne(a: Asm, line: Line)
    ensures AssembleAll(a, [line]) == Assemble(a, line)
  {
    hide Assemble;
    match Assemble(a, line)
    case Ok(b) => assert [line][1..] == []; assert AssembleAll(b, []) == Ok(b);
    case Err(_) =>
  }

  function WithCode(a: Asm, code: seq<Instruction>): Asm {
    a.(code := a.code + code)
  }

  lemma WithMoreCode(a: Asm, x: seq<Instruction>, y: seq<Instruction>)
    ensures WithCode(WithCode(a, x), y) == WithCode(a, x + y)
  {
    assert a.code + x + y == a.code + (x + y);
  }

  lemma {:induction false} StoresAssemble(a: Asm, name: string, residuals: seq<Patch>)
    requires name in a.dataNames.ids && a.dataNames.ids[name] <= 65535
    requires forall k :: 0 <= k < |residuals| ==> residuals[k].offset <= 65535
    ensures AssembleAll(a, StoreLines(name, residuals)) == Ok(WithCode(a, StoreCode(a.dataNames.ids[name], residuals)))
    decreases |residuals|
  {
    if residuals == [] {
      assert a.code + [] == a.code;
    } else {
      var id := a.dataNames.ids[name];
      var first := [Instr(StoreResidual, 0, id, residuals[0].offset, residuals[0].value)];
      var b := WithCode(a, first);
      assert Assemble(a, StoreLine(name, residuals[0])) == Ok(b);
      StoresAssemble(b, name, residuals[1..]);
      WithMoreCode(a, first, StoreCode(id, residuals[1..]));
    }
  }

  lemma AssembleTwo(a: Asm, x: Line, y: Line)
    ensures AssembleAll(a, [x, y]) == match Assemble(a, x) case Ok(b) => Assemble(b, y) case Err(e) => Err(e)
  {
    hide Assemble;
    assert [x, y][1..] == [y];
    match Assemble(a, x)
    case Ok(b) => AssembleOne(b, y);
    case Err(_) =>
  }

  lemma EmitsOne(a: Asm, op: Op, flags: nat, target: nat, source: nat, param: nat)
    requires flags <= 65535 && target <= 65535 && source <= 65535 && param <= 65535
    ensures Emit(a, op, flags, target, source, param) == Ok(WithCode(a, [Instr(op, flags, target, source, param)]))
  {
  }

  lemma DeclareBasisAssembles(a: Asm, basis: string)
    requires Table(a.constants)
    ensures Assemble(a, DeclareBasisLine(basis)) == match Intern(a.constants, basis)
      case Ok(t) => Ok(WithCode(a.(constants := t), [Instr(DeclareBasis, 0, t.ids[basis], 0, 0)]))
      case Err(e) => Err(e)
  {
    hide Intern, Table, Emit, WithCode;
    if Intern(a.constants, basis).Ok? {
      InternTable(a.constants, basis);
      var t := Intern(a.constants, basis).value;
      EmitsOne(a.(constants := t), DeclareBasis, 0, t.ids[basis], 0, 0);
    }
  }

  lemma VerifyHashAssembles(a: Asm, name: string, digest: string)
    requires Table(a.constants) && name in a.dataNames.ids && a.dataNames.ids[name] <= 65535
    ensures Assemble(a, VerifyHashLine(name, digest)) == match Intern(a.constants, digest)
      case Ok(t) => Ok(WithCode(a.(constants := t), [Instr(VerifyHash, 0, a.dataNames.ids[name], t.ids[digest], 0)]))
      case Err(e) => Err(e)
  {
    hide Intern, Table, Emit, WithCode;
    if Intern(a.constants, digest).Ok? {
      InternTable(a.constants, digest);
      var t := Intern(a.constants, digest).value;
      EmitsOne(a.(constants := t), VerifyHash, 0, a.dataNames.ids[name], t.ids[digest], 0);
    }
  }

  lemma DataBlockAssembles(a: Asm, name: string)
    ensures Assemble(a, DataBlockLine(name)) == match Intern(a.dataNames, name)
      case Ok(t) => Ok(a.(dataNames := t))
      case Err(e) => Err(e)
  {
    hide Intern;
  }

  lemma ApplyAssembles(a: Asm, name: string)
    requires name in a.dataNames.ids && a.dataNames.ids[name] <= 65535
    ensures Assemble(a, ApplyResidualLine(name)) == Ok(WithCode(a, [Instr(ApplyResidual, 0, a.dataNames.ids[name], 0, 0)]))
  {
  }

  /** The two lines that name a chunk and its basis. */
  lemma NamingAssembles(a: Asm, name: string, basis: string)
    requires Table(a.constants)
    ensures var data, constants := Intern(a.dataNames, name), Intern(a.constants, basis);
            var r := AssembleAll(a, [DataBlockLine(name), DeclareBasisLine(basis)]);
            && (r.Ok? <==> data.Ok? && constants.Ok?)
            && (r.Ok? ==> r.value == WithCode(a.(dataNames := data.value, constants := constants.value),
                                              [Instr(DeclareBasis, 0, constants.value.ids[basis], 0, 0)]))
  {
    hide Intern, Table, AssembleAll, Assemble;
    AssembleTwo(a, DataBlockLine(name), DeclareBasisLine(basis));
    DataBlockAssembles(a, name);
    if Intern(a.dataNames, name).Ok? {
      DeclareBasisAssembles(a.(dataNames := Intern(a.dataNames, name).value), basis);
    }
  }

  lemma LoadAssembles(a: Asm, name: string, p: Piece)
    requires name in a.dataNames.ids && a.dataNames.ids[name] <= 65535
    ensures var r := Assemble(a, LoadLine(name, p));
            && (r.Ok? <==> p.length <= 65535)
            && (r.Ok? ==> r.value == WithCode(a, [Instr(LoadCoefficients, p.delta, a.dataNames.ids[name], p.start, p.length)]))
  {
  }

  lemma SynthesizeAssembles(a: Asm, name: string)
    requires name in a.dataNames.ids && a.dataNames.ids[name] <= 65535
    ensures Assemble(a, SynthesizeLine(name)) == Ok(WithCode(a, [Instr(Synthesize, 0, a.dataNames.ids[name], 0, 0)]))
  {
  }

  /** The two lines that load and synthesize a chunk. */
  lemma LoadingAssembles(a: Asm, name: string, p: Piece)
    requires name in a.dataNames.ids && a.dataNames.ids[name] <= 65535
    ensures var r := AssembleAll(a, [LoadLine(name, p), SynthesizeLine(name)]);
            && (r.Ok? <==> p.length <= 65535)
            && (r.Ok? ==> r.value == WithCode(a, [Instr(LoadCoefficients, p.delta, a.dataNames.ids[name], p.start, p.length),
                                                  Instr(Synthesize, 0, a.dataNames.ids[name], 0, 0)]))
  {
    hide AssembleAll, Assemble;
    AssembleTwo(a, LoadLine(name, p), SynthesizeLine(name));
    LoadAssembles(a, name, p);
    SynthesizeAssembles(WithCode(a, [Instr(LoadCoefficients, p.delta, a.dataNames.ids[name], p.start, p.length)]), name);
  }

  /** What the four opening lines of a chunk do. */
  lemma OpeningAssembles(a: Asm, name: string, p: Piece)
    requires Table(a.dataNames) && Table(a.constants)
    ensures var data, constants := Intern(a.dataNames, name), Intern(a.constants, BasisName(p.basis));
            var r := AssembleAll(a, OpeningLines(name, p));
            && (r.Ok? <==> data.Ok? && constants.Ok? && p.length <= 65535)
            && (r.Ok? ==> r.value == WithCode(a.(dataNames := data.value, constants := constants.value),
                  OpeningCode(data.value.ids[name], constants.value.ids[BasisName(p.basis)], p)))
  {
    hide Intern, Table, BasisName, AssembleAll, Instr, WithCode;
    var basis := BasisName(p.basis);
    var naming := [DataBlockLine(name), DeclareBasisLine(basis)];
    var loading := [LoadLine(name, p), SynthesizeLine(name)];
    assert OpeningLines(name, p) == naming + loading;
    AssembleInTwo(a, naming, loading);
    NamingAssembles(a, name, basis);
    if AssembleAll(a, naming).Ok? {
      InternTable(a.dataNames, name);
      var b := a.(dataNames := Intern(a.dataNames, name).value, constants := Intern(a.constants, basis).value);
      OpeningDone(b, AssembleAll(a, naming).value, name, b.constants.ids[basis], p);
    }
  }

  /** From the naming of a chunk to its last opening line. */
  lemma OpeningDone(b: Asm, named: Asm, name: string, basisId: nat, p: Piece)
    requires name in b.dataNames.ids && b.dataNames.ids[name] <= 65535
    requires named == WithCode(b, [Instr(DeclareBasis, 0, basisId, 0, 0)])
    ensures var r := AssembleAll(named, [LoadLine(name, p), SynthesizeLine(name)]);
            && (r.Ok? <==> p.length <= 65535)
            && (r.Ok? ==> r.value == WithCode(b, OpeningCode(b.dataNames.ids[name], basisId, p)))
  {
    hide AssembleAll, Instr;
    LoadingAssembles(named, name, p);
    var id := b.dataNames.ids[name];
    var (first, more) := ([Instr(DeclareBasis, 0, basisId, 0, 0)], [Instr(LoadCoefficients, p.delta, id, p.start, p.length), Instr(Synthesize, 0, id, 0, 0)]);
    WithMoreCode(b, first, more);
    assert first + more == OpeningCode(id, basisId, p);
  }

  lemma PatchingAssembles(a: Asm, name: string, digest: string)
    requires Table(a.constants) && name in a.dataNames.ids && a.dataNames.ids[name] <= 65535
    ensures var constants := Intern(a.constants, digest);
            var id := a.dataNames.ids[name];
            var r := AssembleAll(a, [ApplyResidualLine(name), VerifyHashLine(name, digest)]);
            && (r.Ok? <==> constants.Ok?)
            && (r.Ok? ==> r.value == WithCode(a.(constants := constants.value),
                  [Instr(ApplyResidual, 0, id, 0, 0), Instr(VerifyHash, 0, id, constants.value.ids[digest], 0)]))
  {
    hide Intern, Table, AssembleAll, Assemble;
    AssembleTwo(a, ApplyResidualLine(name), VerifyHashLine(name, digest));
    ApplyAssembles(a, name);
    VerifyHashAssembles(WithCode(a, [Instr(ApplyResidual, 0, a.dataNames.ids[name], 0, 0)]), name, digest);
  }

  /** What the three closing lines do. */
  lemma ClosingAssembles(a: Asm, name: string, p: Piece)
    requires Table(a.dataNames) && Table(a.constants) && name in a.dataNames.ids
    ensures var constants := Intern(a.constants, p.digest);
            var r := AssembleAll(a, ClosingLines(name, p));
            && (r.Ok? <==> constants.Ok?)
            && (r.Ok? ==> r.value == WithCode(a.(constants := constants.value),
                  ClosingCode(a.dataNames.ids[name], constants.value.ids[p.digest])))
  {
    hide Intern, Table, AssembleAll;
    IdFits(a.dataNames, name);
    var patching := [ApplyResidualLine(name), VerifyHashLine(name, p.digest)];
    assert ClosingLines(name, p) == patching + [AcceptDataLine(name)];
    AssembleInTwo(a, patching, [AcceptDataLine(name)]);
    PatchingAssembles(a, name, p.digest);
    if AssembleAll(a, patching).Ok? {
      AssembleOne(AssembleAll(a, patching).value, AcceptDataLine(name));
    }
  }

  /** The tables have room for one more chunk. */
  predicate ChunkFits(a: Asm, name: string, p: Piece) {
    && Intern(a.dataNames, name).Ok? && p.length <= 65535
    && (match Intern(a.constants, BasisName(p.basis)) case Ok(t) => Intern(t, p.digest).Ok? case Err(_) => false)
  }

  function AfterChunk(a: Asm, name: string, p: Piece): Asm
    requires ChunkFits(a, name, p)
  {
    var data := Intern(a.dataNames, name).value;
    var named := Intern(a.constants, BasisName(p.basis)).value;
    var constants := Intern(named, p.digest).value;
    WithCode(a.(dataNames := data, constants := constants),
             ChunkCode(data.ids[name], named.ids[BasisName(p.basis)], constants.ids[p.digest], p))
  }

  lemma ChunkAssembles(a: Asm, name: string, p: Piece)
    requires Table(a.dataNames) && Table(a.constants) && p.Ok()
    ensures var r := AssembleAll(a, ChunkLines(name, p));
            && (r.Ok? <==> ChunkFits(a, name, p))
            && (r.Ok? ==> r.value == AfterChunk(a, name, p))
  {
    hide Intern, Table, BasisName, AssembleAll, OpeningLines, StoreLines, ClosingLines, OpeningCode, StoreCode, ClosingCode, Placed;
    var basis := BasisName(p.basis);
    var data, named := Intern(a.dataNames, name), Intern(a.constants, basis);
    var opening, stores, closing := OpeningLines(name, p), StoreLines(name, p.residuals), ClosingLines(name, p);
    OpeningAssembles(a, name, p);
    AssembleInTwo(a, opening + stores, closing);
    AssembleInTwo(a, opening, stores);
    if AssembleAll(a, opening).Ok? {
      InternTable(a.dataNames, name);
      InternTable(a.constants, basis);
      PlacedBounds(p.residuals, 0, p.length);
      var b := AssembleAll(a, opening).value;
      var id := data.value.ids[name];
      StoresAssemble(b, name, p.residuals);
      var c := WithCode(b, StoreCode(id, p.residuals));
      ClosingAssembles(c, name, p);
      if Intern(named.value, p.digest).Ok? {
        var constants := Intern(named.value, p.digest).value;
        assert AssembleAll(a, opening + stores + closing).value.code
            == a.code + OpeningCode(id, named.value.ids[basis], p) + StoreCode(id, p.residuals) + ClosingCode(id, constants.ids[p.digest]);
      }
    }
  }

  // ------------------------------------------------- whole programs

  /** The constants a program needs: its basis names and its digests. */
  function Constants(pieces: seq<Piece>): set<string> {
    if pieces == [] then {} else {BasisName(pieces[0].basis), pieces[0].digest} + Constants(pieces[1..])
  }

  /** The 16-bit limits: block ids, constant ids, block lengths. */
  ghost predicate Room(dataNames: nat, constants: set<string>, pieces: seq<Piece>) {
    && dataNames + |pieces| <= 65536
    && |constants + Constants(pieces)| <= 65536
    && Short(pieces)
  }

  ghost predicate AllOk(pieces: seq<Piece>) {
    forall i :: 0 <= i < |pieces| ==> pieces[i].Ok()
  }

  lemma {:induction false} SubsetCount<T>(a: set<T>, b: set<T>)
    requires a <= b
    ensures |a| <= |b|
  {
    if a != {} {
      var x :| x in a;
      SubsetCount(a - {x}, b - {x});
    }
  }

  lemma AddKnown<T>(a: set<T>, x: T, all: set<T>)
    requires x in all
    ensures (a + {x}) + all == a + all
    ensures |a + {x}| <= |a + all|
    ensures x !in a ==> |a + {x}| == |a| + 1
  {
    SubsetCount(a + {x}, a + all);
  }

  lemma AddBoth<T>(a: set<T>, x: T, y: T, rest: set<T>)
    ensures a + {x} + {y} + rest == a + ({x, y} + rest)
  {
  }

  lemma InternFits(t: Symbols, name: string, more: set<string>)
    requires Table(t) && name in more
    ensures |t.ids.Keys + more| <= 65536 ==> Intern(t, name).Ok?
    ensures Intern(t, name).Ok? ==> Intern(t, name).value.ids.Keys + more == t.ids.Keys + more
  {
    hide Table;
    AddKnown(t.ids.Keys, name, more);
    assert |t.ids| == |t.ids.Keys|;
    if Intern(t, name).Ok? {
      InternTable(t, name);
    }
  }

  lemma NothingNeeded(t: Symbols)
    requires Table(t)
    ensures |t.ids.Keys + Constants([])| <= 65536
  {
    assert t.ids.Keys + {} == t.ids.Keys;
    assert |t.ids.Keys| == |t.ids|;
  }

  /** Two names can be entered and leave room for the rest exactly when there is room for all. */
  lemma TwoNamesRoom(t: Symbols, x: string, y: string, rest: set<string>)
    requires Table(t)
    ensures |t.ids.Keys + ({x, y} + rest)| <= 65536
       <==> Intern(t, x).Ok? && Intern(Intern(t, x).value, y).Ok?
            && |Intern(Intern(t, x).value, y).value.ids.Keys + rest| <= 65536
  {
    hide Table, Intern;
    var all := {x, y} + rest;
    InternFits(t, x, all);
    AddBoth(t.ids.Keys, x, y, rest);
    if Intern(t, x).Ok? {
      var u := Intern(t, x).value;
      InternTable(t, x);
      InternFits(u, y, all);
      if Intern(u, y).Ok? {
        InternTable(u, y);
      }
    }
  }

  predicate Short(pieces: seq<Piece>) {
    forall i :: 0 <= i < |pieces| ==> pieces[i].length <= 65535
  }

  lemma ShortCons(pieces: seq<Piece>)
    requires pieces != []
    ensures Short(pieces) <==> pieces[0].length <= 65535 && Short(pieces[1..])
  {
    assert pieces == [pieces[0]] + pieces[1..];
  }

  /** One chunk fits and leaves room for the rest exactly when there is room for all. */
  lemma ChunkRoom(a: Asm, name: string, pieces: seq<Piece>)
    requires Table(a.dataNames) && Table(a.constants) && name !in a.dataNames.ids && pieces != []
    ensures Room(|a.dataNames.ids|, a.constants.ids.Keys, pieces)
       <==> ChunkFits(a, name, pieces[0])
            && var b := AfterChunk(a, name, pieces[0]); Room(|b.dataNames.ids|, b.constants.ids.Keys, pieces[1..])
  {
    hide Table, Intern, BasisName, Short, ChunkCode, WithCode;
    NameRoom(a.dataNames, name);
    TwoNamesRoom(a.constants, BasisName(pieces[0].basis), pieces[0].digest, Constants(pieces[1..]));
    ShortCons(pieces);
    if ChunkFits(a, name, pieces[0]) {
      ChunkTables(a, name, pieces[0]);
    }
  }

  lemma ChunkTables(a: Asm, name: string, p: Piece)
    requires ChunkFits(a, name, p)
    ensures AfterChunk(a, name, p).dataNames == Intern(a.dataNames, name).value
    ensures AfterChunk(a, name, p).constants == Intern(Intern(a.constants, BasisName(p.basis)).value, p.digest).value
  {
  }

  lemma NameRoom(t: Symbols, name: string)
    requires Table(t) && name !in t.ids
    ensures Intern(t, name).Ok? <==> |t.ids| + 1 <= 65536
    ensures Intern(t, name).Ok? ==> |Intern(t, name).value.ids| == |t.ids| + 1 && Intern(t, name).value.ids[name] == |t.ids|
  {
    if Intern(t, name).Ok? {
      NewId(t, name);
    }
  }

  /** What one chunk leaves behind. */
  lemma ChunkLeaves(a: Asm, name: string, p: Piece)
    requires Table(a.dataNames) && Table(a.constants) && name !in a.dataNames.ids && ChunkFits(a, name, p)
    ensures var b := AfterChunk(a, name, p);
            && Table(b.dataNames) && Table(b.constants) && Grown(a.constants, b.constants)
            && |b.dataNames.ids| == |a.dataNames.ids| + 1
            && (forall n :: n in b.dataNames.ids <==> n in a.dataNames.ids || n == name)
            && BasisName(p.basis) in b.constants.ids && p.digest in b.constants.ids
            && b.code == a.code + ChunkCode(|a.dataNames.ids|, IdOf(b.constants, BasisName(p.basis)), IdOf(b.constants, p.digest), p)
  {
    hide Table, Intern, BasisName, ChunkCode;
    var named := Intern(a.constants, BasisName(p.basis)).value;
    InternTable(a.dataNames, name);
    NewId(a.dataNames, name);
    InternTable(a.constants, BasisName(p.basis));
    InternTable(named, p.digest);
  }

  predicate Covers(t: Symbols, pieces: seq<Piece>) {
    forall i :: 0 <= i < |pieces| ==> BasisName(pieces[i].basis) in t.ids && pieces[i].digest in t.ids
  }

  /** What assembling a program body gives. */
  ghost predicate BodyDone(a: Asm, b: Asm, pieces: seq<Piece>) {
    && Table(b.dataNames) && Table(b.constants) && Grown(a.constants, b.constants) && Covers(b.constants, pieces)
    && |b.dataNames.ids| == |a.dataNames.ids| + |pieces|
    && b.code == a.code + BodyCode(b.constants, |a.dataNames.ids|, pieces)
  }

  lemma CoversCons(t: Symbols, u: Symbols, pieces: seq<Piece>)
    requires pieces != [] && Grown(t, u) && Covers(u, pieces[1..])
    requires BasisName(pieces[0].basis) in t.ids && pieces[0].digest in t.ids
    ensures Covers(u, pieces)
    ensures IdOf(u, BasisName(pieces[0].basis)) == IdOf(t, BasisName(pieces[0].basis))
    ensures IdOf(u, pieces[0].digest) == IdOf(t, pieces[0].digest)
  {
    hide BasisName;
    assert pieces == [pieces[0]] + pieces[1..];
  }

  lemma GrownTwice(t: Symbols, u: Symbols, v: Symbols)
    requires Grown(t, u) && Grown(u, v)
    ensures Grown(t, v)
  {
  }

  lemma BodyDoneStep(a: Asm, b: Asm, c: Asm, name: string, pieces: seq<Piece>)
    requires Table(a.dataNames) && Table(a.constants) && name !in a.dataNames.ids && pieces != []
    requires ChunkFits(a, name, pieces[0]) && b == AfterChunk(a, name, pieces[0]) && BodyDone(b, c, pieces[1..])
    ensures BodyDone(a, c, pieces)
  {
    hide Table, Intern, BasisName, ChunkCode, ChunkFits, AfterChunk, Grown, Covers, IdOf;
    ChunkLeaves(a, name, pieces[0]);
    GrownTwice(a.constants, b.constants, c.constants);
    CoversCons(b.constants, c.constants, pieces);
    CodeCons(a.code, c.constants, |a.dataNames.ids|, pieces);
  }

  lemma CodeCons(code: seq<Instruction>, t: Symbols, first: nat, pieces: seq<Piece>)
    requires pieces != []
    ensures code + BodyCode(t, first, pieces)
         == code + ChunkCode(first, IdOf(t, BasisName(pieces[0].basis)), IdOf(t, pieces[0].digest), pieces[0])
            + BodyCode(t, first + 1, pieces[1..])
  {
    hide ChunkCode, BasisName, IdOf;
  }

  /** A program body assembles exactly when there is room for it, to the code of its chunks. */
  lemma {:induction false} BodyAssembles(a: Asm, names: seq<string>, pieces: seq<Piece>)
    requires Table(a.dataNames) && Table(a.constants) && |names| == |pieces| && AllOk(pieces) && NoRepeats(names)
    requires forall i :: 0 <= i < |names| ==> names[i] !in a.dataNames.ids
    ensures var r := AssembleAll(a, BodyLines(names, pieces));
            && (r.Ok? <==> Room(|a.dataNames.ids|, a.constants.ids.Keys, pieces))
            && (r.Ok? ==> BodyDone(a, r.value, pieces))
    decreases |pieces|
  {
    hide Table, Intern, BasisName, ChunkCode, ChunkFits, AfterChunk, ChunkLines, AssembleAll, Room, BodyDone;
    if pieces == [] {
      NoBody(a);
    } else {
      var name, p := names[0], pieces[0];
      AssembleInTwo(a, ChunkLines(name, p), BodyLines(names[1..], pieces[1..]));
      ChunkAssembles(a, name, p);
      ChunkRoom(a, name, pieces);
      if ChunkFits(a, name, p) {
        var b := AfterChunk(a, name, p);
        ChunkLeaves(a, name, p);
        BodyAssembles(b, names[1..], pieces[1..]);
        if AssembleAll(b, BodyLines(names[1..], pieces[1..])).Ok? {
          BodyDoneStep(a, b, AssembleAll(b, BodyLines(names[1..], pieces[1..])).value, name, pieces);
        }
      }
    }
  }

  lemma NoBody(a: Asm)
    requires Table(a.dataNames) && Table(a.constants)
    ensures AssembleAll(a, []) == Ok(a) && BodyDone(a, a, []) && Room(|a.dataNames.ids|, a.constants.ids.Keys, [])
  {
    NothingNeeded(a.constants);
    assert a.code + [] == a.code;
  }

  /**
   A chunk program assembles exactly when it is within the 16-bit limits: at most 65536 chunks, at most 65536
   different constants, blocks of at most 65535 bytes. Its code is then the code of its chunks, a receipt, and
   a halt.
   */
  lemma ProgramAssembles(names: seq<string>, pieces: seq<Piece>)
    requires |names| == |pieces| && AllOk(pieces) && NoRepeats(names)
    ensures var r := AssembleAll(EMPTY, ProgramLines(names, pieces));
            && (r.Ok? <==> Room(0, {}, pieces))
            && (r.Ok? ==> var a := r.value;
                && Table(a.dataNames) && Table(a.constants) && Covers(a.constants, pieces) && |a.dataNames.ids| == |pieces|
                && a.code == BodyCode(a.constants, 0, pieces) + [Instr(EmitReceipt, 0, 0, 0, 0), Instr(Halt, 0, 0, 0, 0)])
  {
    hide BodyCode, BodyLines, AssembleAll, Room;
    var body := BodyLines(names, pieces);
    BodyAssembles(EMPTY, names, pieces);
    AssembleInTwo(EMPTY, body, [EmitReceiptLine, HaltLine]);
    assert EMPTY.constants.ids.Keys == {};
    if AssembleAll(EMPTY, body).Ok? {
      var a := AssembleAll(EMPTY, body).value;
      AssembleTwo(a, EmitReceiptLine, HaltLine);
      assert a.code + [Instr(EmitReceipt, 0, 0, 0, 0)] + [Instr(Halt, 0, 0, 0, 0)]
          == a.code + [Instr(EmitReceipt, 0, 0, 0, 0), Instr(Halt, 0, 0, 0, 0)];
    }
  }
}
