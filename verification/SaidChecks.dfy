/**
 Which lines the assembler accepts (bogvm/assembler.py): the number of words, the names that must be known, the kinds,
 numbers and ranges of every operation, each an if and only if, whatever the tables hold.
 */
module SaidChecks {
  import opened Wrappers
  import opened Decimals
  import opened AssemblyText
  import opened Assembler
  import opened SaidLines

  /** An id that fits its 16-bit field. */
  predicate Narrow(t: Symbols, name: string) {
    name in t.ids && t.ids[name] <= 65535
  }

  /** A name that is known, or for which there is an id left. */
  predicate Room(t: Symbols, name: string) {
    if name in t.ids then t.ids[name] <= 65535 else |t.ids| <= 65535
  }

  predicate IsKind(word: string) {
    Lower(word) == "support" || Lower(word) == "conflict"
  }

  predicate IsByte(word: string) {
    IsField(word) && Field(word) <= 255
  }

  lemma Enters(t: Symbols, name: string)
    ensures Room(t, name) ==> Intern(t, name).Ok?
    ensures Intern(t, name).Ok? ==> name in Intern(t, name).value.ids
    ensures Intern(t, name).Ok? ==> (Intern(t, name).value.ids[name] <= 65535 <==> Room(t, name))
  {
  }

  /** Nothing on a line but spaces or a comment: accepted, without effect. A word that is no operation: refused. */
  lemma OtherChecks(a: Asm, text: string)
    ensures Words(Cut(text)) == [] ==> AssembleLine(a, text) == Ok(a)
    ensures Words(Cut(text)) != [] && (forall op: Operation :: Upper(Words(Cut(text))[0]) != Mnemonic(op))
            ==> AssembleLine(a, text) == Err(UnknownOperation)
  {
    hide Words, Cut, Upper, Mnemonic;
  }

  lemma NodeChecks(a: Asm, text: string)
    requires Said(text, "CREATE_NODE").Some?
    ensures var w := Said(text, "CREATE_NODE").value; AssembleLine(a, text).Ok? <==> |w| == 1 && Room(a.nodes, w[0])
  {
    hide ReadLine, Words, Cut, Upper, Intern, Room;
    SaidReads(text, CreateNodeWord);
    var w := Said(text, "CREATE_NODE").value;
    if |w| == 1 {
      Enters(a.nodes, w[0]);
    }
  }

  lemma EdgeChecks(a: Asm, text: string)
    requires Said(text, "CREATE_EDGE").Some?
    ensures var w := Said(text, "CREATE_EDGE").value;
            AssembleLine(a, text).Ok?
            <==> |w| == 3 && Narrow(a.nodes, w[0]) && Narrow(a.nodes, w[1]) && IsKind(w[2]) && a.edgeCount <= 65535
  {
    hide ReadLine, Words, Cut, Upper, Lower;
    SaidReads(text, CreateEdgeWord);
  }

  lemma ClaimChecks(a: Asm, text: string)
    requires Said(text, "CREATE_CLAIM").Some?
    ensures var w := Said(text, "CREATE_CLAIM").value;
            AssembleLine(a, text).Ok? <==> |w| == 3 && Narrow(a.nodes, w[1]) && Narrow(a.nodes, w[2]) && Room(a.claims, w[0])
  {
    hide ReadLine, Words, Cut, Upper, Intern, Room;
    SaidReads(text, CreateClaimWord);
    var w := Said(text, "CREATE_CLAIM").value;
    if |w| == 3 {
      Enters(a.claims, w[0]);
    }
  }

  lemma ActivateChecks(a: Asm, text: string)
    requires Said(text, "ACTIVATE").Some?
    ensures var w := Said(text, "ACTIVATE").value; AssembleLine(a, text).Ok? <==> |w| == 2 && Narrow(a.nodes, w[0]) && IsField(w[1])
  {
    hide ReadLine, Words, Cut, Upper, IntOf;
    SaidReads(text, ActivateWord);
  }

  lemma PropagateChecks(a: Asm, text: string)
    requires Said(text, "PROPAGATE").Some?
    ensures var w := Said(text, "PROPAGATE").value;
            AssembleLine(a, text).Ok? <==> |w| == 3 && Narrow(a.nodes, w[0]) && IsKind(w[1]) && IsField(w[2])
  {
    hide ReadLine, Words, Cut, Upper, Lower, IntOf;
    SaidReads(text, PropagateWord);
  }

  lemma DecayChecks(a: Asm, text: string)
    requires Said(text, "DECAY").Some?
    ensures var w := Said(text, "DECAY").value; AssembleLine(a, text).Ok? <==> |w| == 1 && IsField(w[0])
  {
    hide ReadLine, Words, Cut, Upper, IntOf;
    SaidReads(text, DecayWord);
  }

  lemma ClaimOpChecks(a: Asm, text: string, op: string)
    requires ClaimCode(op).Some? && Said(text, op).Some?
    ensures var w := Said(text, op).value; AssembleLine(a, text).Ok? <==> |w| == 1 && Narrow(a.claims, w[0])
  {
    hide ReadLine, Words, Cut, Upper, Mnemonic, ActionOp, ClaimCode, ActionNamed;
    SaidReads(text, ClaimWord(ActionNamed(op)));
  }

  lemma BasisChecks(a: Asm, text: string)
    requires Said(text, "DECLARE_BASIS").Some?
    ensures var w := Said(text, "DECLARE_BASIS").value; AssembleLine(a, text).Ok? <==> |w| == 1 && Room(a.constants, w[0])
  {
    hide ReadLine, Words, Cut, Upper, Intern, Room;
    SaidReads(text, DeclareBasisWord);
    var w := Said(text, "DECLARE_BASIS").value;
    if |w| == 1 {
      Enters(a.constants, w[0]);
    }
  }

  /** DATA_BLOCK emits nothing; it gives its name an id. */
  lemma BlockLineChecks(a: Asm, text: string)
    requires Said(text, "DATA_BLOCK").Some?
    ensures var (w, r) := (Said(text, "DATA_BLOCK").value, AssembleLine(a, text));
            && (r.Ok? <==> |w| == 1 && (w[0] in a.dataNames.ids || |a.dataNames.ids| <= 65535))
            && (r.Ok? ==> r.value == a.(dataNames := r.value.dataNames) && w[0] in r.value.dataNames.ids
                          && r.value.dataNames.ids == if w[0] in a.dataNames.ids then a.dataNames.ids
                                                      else a.dataNames.ids[w[0] := |a.dataNames.ids|])
  {
    hide ReadLine, Words, Cut, Upper;
    SaidReads(text, DataBlockWord);
  }

  lemma LoadChecks(a: Asm, text: string)
    requires Said(text, "LOAD_COEFFICIENTS").Some?
    ensures var w := Said(text, "LOAD_COEFFICIENTS").value;
            AssembleLine(a, text).Ok?
            <==> (|w| == 3 || |w| == 4) && Narrow(a.dataNames, w[0]) && IsByte(w[1]) && IsField(w[2]) && (|w| == 4 ==> IsByte(w[3]))
  {
    hide ReadLine, Words, Cut, Upper, IntOf;
    SaidReads(text, LoadCoefficientsWord);
  }

  lemma StoreChecks(a: Asm, text: string)
    requires Said(text, "STORE_RESIDUAL").Some?
    ensures var w := Said(text, "STORE_RESIDUAL").value;
            AssembleLine(a, text).Ok? <==> |w| == 3 && Narrow(a.dataNames, w[0]) && IsField(w[1]) && IsByte(w[2])
  {
    hide ReadLine, Words, Cut, Upper, IntOf;
    SaidReads(text, StoreResidualWord);
  }

  lemma HashChecks(a: Asm, text: string)
    requires Said(text, "VERIFY_HASH").Some?
    ensures var w := Said(text, "VERIFY_HASH").value;
            AssembleLine(a, text).Ok? <==> |w| == 2 && Narrow(a.dataNames, w[0]) && Room(a.constants, w[1])
  {
    hide ReadLine, Words, Cut, Upper, Intern, Room;
    SaidReads(text, VerifyHashWord);
    var w := Said(text, "VERIFY_HASH").value;
    if |w| == 2 {
      Enters(a.constants, w[1]);
    }
  }

  lemma BlockOpChecks(a: Asm, text: string, op: string)
    requires BlockCode(op).Some? && Said(text, op).Some?
    ensures var w := Said(text, op).value; AssembleLine(a, text).Ok? <==> |w| == 1 && Narrow(a.dataNames, w[0])
  {
    hide ReadLine, Words, Cut, Upper, Mnemonic, BlockCode, PlainOp, Takes, LineOf, Assemble;
    var word := BlockNamed(op);
    SaidReads(text, word);
    BlockAssembles(a, word, Words(Cut(text)));
  }

  lemma BareChecks(a: Asm, text: string, op: string)
    requires BareCode(op).Some? && Said(text, op).Some?
    ensures AssembleLine(a, text).Ok?
  {
    hide ReadLine, Words, Cut, Upper, Mnemonic, BareCode, PlainOp, Takes, LineOf, Assemble;
    var word := BareNamed(op);
    SaidReads(text, word);
    BareAssembles(a, word, Words(Cut(text)));
  }

  /** The operations that are neither on a claim, nor on one block alone, nor bare. */
  const WORDS: set<string> :=
    {"CREATE_NODE", "CREATE_EDGE", "CREATE_CLAIM", "ACTIVATE", "PROPAGATE", "DECAY", "DECLARE_BASIS", "DATA_BLOCK",
     "LOAD_COEFFICIENTS", "STORE_RESIDUAL", "VERIFY_HASH"}

  /** The operations the assembler knows are these 25 words. */
  lemma OperationWords(word: string)
    ensures (exists op: Operation :: Mnemonic(op) == word)
       <==> word in WORDS || ClaimCode(word).Some? || BlockCode(word).Some? || BareCode(word).Some?
  {
    hide ClaimCode, BlockCode, BareCode;
    FixedWords(word);
    if ClaimCode(word).Some? {
      assert Mnemonic(ClaimWord(ActionNamed(word))) == word;
    }
    if BlockCode(word).Some? {
      assert Mnemonic(BlockNamed(word)) == word;
    }
    if BareCode(word).Some? {
      assert Mnemonic(BareNamed(word)) == word;
    }
    if op: Operation :| Mnemonic(op) == word {
      OtherWords(op);
    }
  }

  lemma FixedWords(word: string)
    ensures word in WORDS ==> exists op: Operation :: Mnemonic(op) == word
  {
    assert Mnemonic(CreateNodeWord) == "CREATE_NODE" && Mnemonic(CreateEdgeWord) == "CREATE_EDGE" && Mnemonic(CreateClaimWord) == "CREATE_CLAIM";
    assert Mnemonic(ActivateWord) == "ACTIVATE" && Mnemonic(PropagateWord) == "PROPAGATE" && Mnemonic(DecayWord) == "DECAY";
    assert Mnemonic(DeclareBasisWord) == "DECLARE_BASIS" && Mnemonic(DataBlockWord) == "DATA_BLOCK";
    assert Mnemonic(LoadCoefficientsWord) == "LOAD_COEFFICIENTS" && Mnemonic(StoreResidualWord) == "STORE_RESIDUAL";
    assert Mnemonic(VerifyHashWord) == "VERIFY_HASH";
  }

  lemma OtherWords(op: Operation)
    ensures Mnemonic(op) in WORDS || ClaimCode(Mnemonic(op)).Some? || BlockCode(Mnemonic(op)).Some? || BareCode(Mnemonic(op)).Some?
  {
  }
}
