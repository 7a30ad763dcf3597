/**
 The workspace journal (kernel/tools/gen_v40_workspace_vectors.py): a chain of hashed entries that appends
 and rollbacks only ever extend. Which lists of entries its verifier accepts.
 */
module Journal {
  import opened ByteStrings
  import opened WorkspaceForms

  type u64 = n: nat | n < 0x1_0000_0000_0000_0000

  datatype JournalEntry = JournalEntry(
    number: u64, previous: Digest, operation: Digest, oldRoot: Digest, newRoot: Digest, verifier: Digest, accepted: bool)

  /** The ASCII bytes of JRNLv41 and of the rollback text. */
  const JOURNAL_TAG: Bytes := [74, 82, 78, 76, 118, 52, 49]
  const ROLLBACK_TEXT: Bytes := [118, 52, 49, 45, 114, 111, 108, 108, 98, 97, 99, 107, 45, 111, 112]

  function JournalBytes(e: JournalEntry): Bytes {
    JOURNAL_TAG + LittleEndian(e.number, 8) + e.previous + LittleEndian(1, 4) + e.operation + e.oldRoot + e.newRoot + e.verifier
    + [if e.accepted then 1 else 0] + e.newRoot
  }

  /** The bytes of an entry determine it. */
  lemma {:induction false} JournalReads(e: JournalEntry, f: JournalEntry)
    requires JournalBytes(e) == JournalBytes(f)
    ensures e == f
  {
    hide LittleEndian;
    WidePowers();
    var a1, b1 := JOURNAL_TAG + LittleEndian(e.number, 8), JOURNAL_TAG + LittleEndian(f.number, 8);
    var a2, b2 := a1 + e.previous + LittleEndian(1, 4), b1 + f.previous + LittleEndian(1, 4);
    var a3, b3 := a2 + e.operation + e.oldRoot, b2 + f.operation + f.oldRoot;
    var a4, b4 := a3 + e.newRoot + e.verifier, b3 + f.newRoot + f.verifier;
    var x, y: Bytes := [if e.accepted then 1 else 0], [if f.accepted then 1 else 0];
    SplitEqual(a4 + x, b4 + y, e.newRoot, f.newRoot);
    SplitEqual(a4, b4, x, y);
    SplitEqual(a3 + e.newRoot, b3 + f.newRoot, e.verifier, f.verifier);
    SplitEqual(a3, b3, e.newRoot, f.newRoot);
    SplitEqual(a2 + e.operation, b2 + f.operation, e.oldRoot, f.oldRoot);
    SplitEqual(a2, b2, e.operation, f.operation);
    SplitEqual(a1 + e.previous, b1 + f.previous, LittleEndian(1, 4), LittleEndian(1, 4));
    SplitEqual(a1, b1, e.previous, f.previous);
    SplitEqual(JOURNAL_TAG, JOURNAL_TAG, LittleEndian(e.number, 8), LittleEndian(f.number, 8));
    LittleEndianReads(e.number, f.number, 8);
    assert x[0] == y[0];
  }

  // ------------------------------------------------- histories

  datatype Step =
    | Append(number: u64, operation: Digest, oldRoot: Digest, newRoot: Digest, verifier: Digest, accepted: bool)
    | Rollback(number: u64, current: Digest, target: Digest, verifier: Digest)

  /** The entry a step adds; a rollback adds one too, pointing back at an earlier root. */
  function EntryOf(step: Step, head: Digest, hash: Hash): JournalEntry {
    match step
    case Append(number, operation, oldRoot, newRoot, verifier, accepted) =>
      JournalEntry(number, head, operation, oldRoot, newRoot, verifier, accepted)
    case Rollback(number, current, target, verifier) =>
      JournalEntry(number, head, hash(ROLLBACK_TEXT), current, target, verifier, true)
  }

  function EntryHash(e: JournalEntry, hash: Hash): Digest {
    hash(JournalBytes(e))
  }

  /** The head of the journal after the steps; it starts from ZERO. */
  function Head(steps: seq<Step>, hash: Hash): Digest {
    if steps == [] then ZERO
    else EntryHash(EntryOf(steps[|steps| - 1], Head(steps[..|steps| - 1], hash), hash), hash)
  }

  function History(steps: seq<Step>, hash: Hash): (r: seq<JournalEntry>)
    ensures |r| == |steps|
  {
    if steps == [] then []
    else
      var last := |steps| - 1;
      History(steps[..last], hash) + [EntryOf(steps[last], Head(steps[..last], hash), hash)]
  }

  // ------------------------------------------------- verification

  /** Whether the entries, oldest first, link up to the head. */
  predicate Verifies(head: Digest, entries: seq<JournalEntry>, hash: Hash)
    decreases |entries|
  {
    if entries == [] then true
    else
      var last := |entries| - 1;
      EntryHash(entries[last], hash) == head && Verifies(entries[last].previous, entries[..last], hash)
  }

  method VerifyJournalChain(head: Digest, entries: seq<JournalEntry>, hash: Hash) returns (ok: bool)
    ensures ok == Verifies(head, entries, hash)
  {
    hide JournalBytes;
    var current := head;
    var n := |entries|;
    assert entries[..n] == entries;
    while n > 0
      invariant 0 <= n <= |entries|
      invariant Verifies(head, entries, hash) == Verifies(current, entries[..n], hash)
    {
      var e := entries[n - 1];
      assert entries[..n][n - 1] == e && entries[..n][..n - 1] == entries[..n - 1];
      if EntryHash(e, hash) != current {
        return false;
      }
      current := e.previous;
      n := n - 1;
    }
    ok := true;
  }

  function JournalMessages(entries: seq<JournalEntry>): set<Bytes> {
    set e | e in entries :: JournalBytes(e)
  }

  ghost predicate NoZeroHash(entries: seq<JournalEntry>, hash: Hash) {
    forall e :: e in entries ==> EntryHash(e, hash) != ZERO
  }

  ghost predicate IsSuffix(entries: seq<JournalEntry>, history: seq<JournalEntry>) {
    |entries| <= |history| && entries == history[|history| - |entries|..]
  }

  lemma {:induction false} SuffixLast(entries: seq<JournalEntry>, history: seq<JournalEntry>)
    requires entries != [] && history != []
    ensures IsSuffix(entries, history)
       <==> entries[|entries| - 1] == history[|history| - 1]
            && IsSuffix(entries[..|entries| - 1], history[..|history| - 1])
  {
    var m, n := |entries| - 1, |history| - 1;
    if IsSuffix(entries, history) {
      assert entries[..m] == history[..n][n - m..];
      assert entries[m] == history[n - m..][m];
    }
    if entries[m] == history[n] && IsSuffix(entries[..m], history[..n]) {
      assert entries == entries[..m] + [entries[m]];
      assert history[n - m..] == history[..n][n - m..] + [history[n]];
    }
  }

  ghost predicate HashesApart(x: seq<JournalEntry>, y: seq<JournalEntry>, hash: Hash) {
    forall e, f :: e in x && f in y && EntryHash(e, hash) == EntryHash(f, hash) ==> e == f
  }

  lemma {:induction false} InjectiveApart(x: seq<JournalEntry>, y: seq<JournalEntry>, hash: Hash)
    requires InjectiveOn(hash, JournalMessages(x) + JournalMessages(y))
    ensures HashesApart(x, y, hash)
  {
    hide JournalBytes;
    forall e, f | e in x && f in y && EntryHash(e, hash) == EntryHash(f, hash)
      ensures e == f
    {
      assert JournalBytes(e) in JournalMessages(x) && JournalBytes(f) in JournalMessages(y);
      JournalReads(e, f);
    }
  }

  lemma {:induction false} VerifiesSuffix(steps: seq<Step>, entries: seq<JournalEntry>, hash: Hash)
    requires HashesApart(entries, History(steps, hash), hash) && NoZeroHash(entries, hash)
    ensures Verifies(Head(steps, hash), entries, hash) <==> IsSuffix(entries, History(steps, hash))
    decreases |entries|
  {
    hide EntryHash, IsSuffix;
    var history := History(steps, hash);
    if entries == [] {
      EmptySuffix(history);
    } else if steps == [] {
      assert entries[|entries| - 1] in entries;
      TooLong(entries, history);
    } else {
      var m, n := |entries| - 1, |steps| - 1;
      assert history[..n] == History(steps[..n], hash);
      assert entries[m] in entries && history[n] in history;
      assert Head(steps, hash) == EntryHash(history[n], hash) && history[n].previous == Head(steps[..n], hash);
      SuffixLast(entries, history);
      if entries[m] == history[n] {
        VerifiesSuffix(steps[..n], entries[..m], hash);
      }
    }
  }

  lemma EmptySuffix(history: seq<JournalEntry>)
    ensures IsSuffix([], history)
  {
  }

  lemma FullSuffix(entries: seq<JournalEntry>, history: seq<JournalEntry>)
    ensures |entries| == |history| ==> (IsSuffix(entries, history) <==> entries == history)
  {
    assert history[0..] == history;
  }

  lemma TooLong(entries: seq<JournalEntry>, history: seq<JournalEntry>)
    requires |entries| > |history|
    ensures !IsSuffix(entries, history)
  {
  }

  /**
   The journal cannot be altered: against the head that any appends and rollbacks have built, the verifier
   accepts exactly the suffixes of the true history. Of lists as long as the history it accepts the history
   alone, so nothing was changed, reordered, or dropped from the middle.
   */
  lemma {:induction false} VerifiesExactlySuffixes(steps: seq<Step>, entries: seq<JournalEntry>, hash: Hash)
    requires InjectiveOn(hash, JournalMessages(entries) + JournalMessages(History(steps, hash)))
    requires NoZeroHash(entries, hash)
    ensures Verifies(Head(steps, hash), entries, hash) <==> IsSuffix(entries, History(steps, hash))
    ensures |entries| == |steps| ==> (Verifies(Head(steps, hash), entries, hash) <==> entries == History(steps, hash))
  {
    hide EntryHash, Head, History, Verifies, HashesApart, IsSuffix, JournalBytes, NoZeroHash;
    var history := History(steps, hash);
    InjectiveApart(entries, history, hash);
    VerifiesSuffix(steps, entries, hash);
    FullSuffix(entries, history);
  }

  // ------------------------------------------------- what is written

  /** The place of every field of an entry; the new root stands in it twice. */
  lemma JournalLayout(e: JournalEntry)
    ensures var b := JournalBytes(e);
            && |b| == 212 && b[..7] == Ascii("JRNLv41") && b[7..15] == LittleEndian(e.number, 8) && b[15..47] == e.previous
            && b[47..51] == [1, 0, 0, 0] && b[51..83] == e.operation && b[83..115] == e.oldRoot && b[115..147] == e.newRoot
            && b[147..179] == e.verifier && b[179] == (if e.accepted then 1 else 0) && b[180..212] == e.newRoot
  {
    OneInFour();
    hide LittleEndian;
    assert JOURNAL_TAG == Ascii("JRNLv41");
    var front := JOURNAL_TAG + LittleEndian(e.number, 8) + e.previous + LittleEndian(1, 4);
    var back := e.operation + e.oldRoot + e.newRoot + e.verifier + [if e.accepted then 1 else 0] + e.newRoot;
    assert JournalBytes(e) == front + back;
    FrontLayout(e, front, back);
    BackLayout(e, front, back);
  }

  lemma OneInFour()
    ensures LittleEndian(1, 4) == [1, 0, 0, 0]
  {
    assert LittleEndian(0, 3) == [0] + LittleEndian(0, 2);
    assert LittleEndian(0, 2) == [0] + LittleEndian(0, 1);
    assert LittleEndian(0, 1) == [0] + LittleEndian(0, 0);
  }

  lemma FrontLayout(e: JournalEntry, front: Bytes, back: Bytes)
    requires front == JOURNAL_TAG + LittleEndian(e.number, 8) + e.previous + LittleEndian(1, 4)
    ensures var b := front + back;
            && |front| == 51 && b[..7] == JOURNAL_TAG && b[7..15] == LittleEndian(e.number, 8) && b[15..47] == e.previous
            && b[47..51] == LittleEndian(1, 4)
  {
    hide LittleEndian;
  }

  lemma BackLayout(e: JournalEntry, front: Bytes, back: Bytes)
    requires |front| == 51
    requires back == e.operation + e.oldRoot + e.newRoot + e.verifier + [if e.accepted then 1 else 0] + e.newRoot
    ensures var b := front + back;
            && |b| == 212 && b[51..83] == e.operation && b[83..115] == e.oldRoot && b[115..147] == e.newRoot
            && b[147..179] == e.verifier && b[179] == (if e.accepted then 1 else 0) && b[180..212] == e.newRoot
  {
  }

  /** The head after one more entry is its digest, linked to the head before. */
  lemma HeadAfterAppend(steps: seq<Step>, number: u64, operation: Digest, oldRoot: Digest, newRoot: Digest, verifier: Digest,
                        accepted: bool, hash: Hash)
    ensures Head(steps + [Append(number, operation, oldRoot, newRoot, verifier, accepted)], hash)
         == hash(JournalBytes(JournalEntry(number, Head(steps, hash), operation, oldRoot, newRoot, verifier, accepted)))
  {
    hide JournalBytes;
    var step := Append(number, operation, oldRoot, newRoot, verifier, accepted);
    assert (steps + [step])[..|steps|] == steps;
  }

  /** A rollback is an entry too: accepted, from the present root to the one it goes back to, under a fixed operation. */
  lemma HeadAfterRollback(steps: seq<Step>, number: u64, current: Digest, target: Digest, verifier: Digest, hash: Hash)
    ensures Head(steps + [Rollback(number, current, target, verifier)], hash)
         == hash(JournalBytes(JournalEntry(number, Head(steps, hash), hash(Ascii("v41-rollback-op")), current, target, verifier, true)))
  {
    hide JournalBytes;
    var step := Rollback(number, current, target, verifier);
    assert (steps + [step])[..|steps|] == steps;
    assert ROLLBACK_TEXT == Ascii("v41-rollback-op");
  }
}
