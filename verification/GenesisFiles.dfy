/**
 The files of the Genesis workspace (bogvm/genesis.py): what a write changes and what it leaves, what the ledger
 records of every operation, which entry a selector names, and what a path holds after any run.
 */
module GenesisFiles {
  import opened Wrappers
  import opened Powers
  import opened ByteStrings
  import opened Decimals
  import opened Genesis
  import opened GenesisRuns

  // ------------------------------------------------- one write

  /** The reference a path has in the current manifest. */
  function RefIn(s: Store, path: string): Option<FileRef>
    requires Ready(s)
  {
    if s.current.Some? && path in FilesOf(s) then Some(FilesOf(s)[path]) else None
  }

  /** The bytes a path has in the current state. */
  function ContentIn(s: Store, path: string): Option<Bytes>
    requires Ready(s)
  {
    if s.current.Some? then ContentOf(s, path) else None
  }

  /** A write gives its path the digest and size of the data, and leaves every other path its reference and bytes. */
  lemma WriteMeans(s: Store, path: string, data: Bytes, capability: string, c: Crypto)
    requires Ready(s)
    ensures var t := Write(s, path, data, capability, c);
            && RefIn(t, path) == Some(FileRef(c.sha(data), |data|))
            && (c.sha(data) in s.objects || ContentIn(t, path) == Some(data))
            && (c.sha(data) in s.objects && s.objects[c.sha(data)] == data ==> ContentIn(t, path) == Some(data))
            && (forall p :: p != path ==> RefIn(t, p) == RefIn(s, p) && ContentIn(t, p) == ContentIn(s, p))
            && (forall h :: h in t.objects <==> h in s.objects || h == c.sha(data))
            && (forall h :: h in s.objects ==> t.objects[h] == s.objects[h])
            && (c.sha(data) !in s.objects ==> t.objects[c.sha(data)] == data)
  {
    hide NewEntry;
    var (o, t) := (WithObject(Opened(s, c), data, c), Write(s, path, data, capability, c));
    assert FilesOf(t) == FilesOf(o)[path := FileRef(c.sha(data), |data|)];
    OpenedFiles(s, c);
    forall p | p != path
      ensures RefIn(t, p) == RefIn(s, p) && ContentIn(t, p) == ContentIn(s, p)
    {
      assert RefIn(o, p) == RefIn(s, p);
      if p in FilesOf(o) {
        assert Backed(FilesOf(o), o.objects);
        assert FilesOf(o)[p].sha in Opened(s, c).objects;
      }
    }
  }

  /** Opening a workspace for the first time finds no files, and changes none otherwise. */
  lemma OpenedFiles(s: Store, c: Crypto)
    requires Ready(s)
    ensures var o := Opened(s, c);
            && o.objects == s.objects && o.ledger == s.ledger && (s.current.Some? ==> o == s)
            && (s.current.None? ==> o.current == Some(c.manifestHash(map[])))
            && forall p :: RefIn(o, p) == RefIn(s, p) && ContentIn(o, p) == ContentIn(s, p)
  {
  }

  // ------------------------------------------------- what the ledger records

  /** The event an operation records, said by what was there before. */
  ghost function EventOfOp(s: Store, op: Op, c: Crypto): Option<Event>
    requires Ready(s)
  {
    var root := if s.current.Some? then s.current.value else c.manifestHash(map[]);
    match op
    case DoBoot => Some(TrustedBoot(root))
    case DoCheckpoint => Some(Checkpoint(root))
    case DoRead(path, capability) =>
      Some(FsRead(path, capability, match ContentIn(s, path) case Some(data) => Some(c.sha(data)) case None => None, root))
    case DoWrite(path, data, capability) =>
      var files := if s.current.Some? then FilesOf(s) else map[];
      Some(FsWrite(path, capability, c.sha(data), c.manifestHash(files), c.manifestHash(files[path := FileRef(c.sha(data), |data|)])))
    case DoReplay => Some(Replayed(ReplayVerifies(s, c), LedgerCheck(s.ledger, c).1, ReplayWalk(s.ledger, s.objects).root))
    case DoRollback(selector) =>
      match ReadEntry(s.ledger, selector)
      case None => None
      case Some(e) =>
        var target := TargetRoot(e.payload.event);
        Some(RolledBack(e.receiptHash, root, target, target.Some? && target.value in s.states))
  }

  /** Every operation adds one entry, numbered and linked, that says what it did; a rollback to no entry adds none. */
  lemma Records(s: Store, op: Op, c: Crypto)
    requires Ready(s)
    ensures Perform(s, op, c).ledger
         == s.ledger + match EventOfOp(s, op, c)
                       case None => []
                       case Some(event) =>
                         var payload := Payload(event, |s.ledger| + 1, if s.ledger == [] then ZERO_HASH else s.ledger[|s.ledger| - 1].receiptHash);
                         [Entry(payload, c.receiptHash(payload), c.sign(payload, c.receiptHash(payload)))]
  {
    hide LedgerCheck, ReplayWalk, ReplayVerifies, ReadEntry;
    OpenedFiles(s, c);
    match op
    case DoWrite(path, data, capability) => WriteRecords(s, path, data, capability, c);
    case DoRollback(selector) => assert s.ledger + [] == s.ledger;
    case DoReplay => SameVerdict(s, c);
    case _ =>
  }

  lemma WriteRecords(s: Store, path: string, data: Bytes, capability: string, c: Crypto)
    requires Ready(s)
    ensures Write(s, path, data, capability, c).ledger == s.ledger + [NewEntry(s.ledger, EventOfOp(s, DoWrite(path, data, capability), c).value, c)]
  {
    hide NewEntry;
  }

  lemma SameVerdict(s: Store, c: Crypto)
    requires Ready(s)
    ensures Replay(s, c).ledger
         == s.ledger + [NewEntry(s.ledger, Replayed(ReplayVerifies(s, c), LedgerCheck(s.ledger, c).1, ReplayWalk(s.ledger, s.objects).root), c)]
  {
    hide NewEntry, LedgerCheck, ReplayWalk, ReplayVerifies;
  }

  // ------------------------------------------------- what replay looks at

  /** The root the events of a ledger lead to: that of the last boot, write or rollback, zero before there is one. */
  function RootSaid(ledger: seq<Entry>): Option<string> {
    if ledger == [] then Some(ZERO_HASH)
    else
      match ledger[|ledger| - 1].payload.event
      case TrustedBoot(root) => Some(root)
      case FsWrite(_, _, _, _, after) => Some(after)
      case RolledBack(_, _, target, _) => target
      case _ => RootSaid(ledger[..|ledger| - 1])
  }

  /** A write that starts from the root the ledger had led to, and whose object is stored. */
  predicate WriteFits(ledger: seq<Entry>, i: nat, objects: map<string, Bytes>)
    requires i < |ledger|
  {
    match ledger[i].payload.event
    case FsWrite(_, _, content, before, _) => content in objects && Some(before) == RootSaid(ledger[..i])
    case _ => true
  }

  lemma {:induction false} WalkMeans(ledger: seq<Entry>, objects: map<string, Bytes>)
    ensures ReplayWalk(ledger, objects).root == RootSaid(ledger)
    ensures ReplayWalk(ledger, objects).mismatches == 0 <==> forall i :: 0 <= i < |ledger| ==> WriteFits(ledger, i, objects)
  {
    if ledger != [] {
      var last := |ledger| - 1;
      WalkMeans(ledger[..last], objects);
      forall i | 0 <= i < last
        ensures WriteFits(ledger[..last], i, objects) <==> WriteFits(ledger, i, objects)
      {
        assert ledger[..last][..i] == ledger[..i];
      }
      if forall i :: 0 <= i < |ledger| ==> WriteFits(ledger, i, objects) {
        assert WriteFits(ledger, last, objects);
      }
    }
  }

  /**
   A session replay verifies exactly when every entry is numbered, linked, hashed and signed, every write starts from
   the root before it and has its object, and the events lead to the current root.
   */
  lemma ReplayMeans(s: Store, c: Crypto)
    requires Proper(c)
    ensures ReplayVerifies(s, c)
       <==> && (forall i :: 0 <= i < |s.ledger| ==> EntryFits(s.ledger, i, c) && WriteFits(s.ledger, i, s.objects))
            && RootSaid(s.ledger) == Some(if s.current.Some? then s.current.value else c.manifestHash(map[]))
  {
    hide LedgerCheck, ReplayWalk, RootSaid, WriteFits, EntryFits;
    CheckMeans(s.ledger, c);
    WalkMeans(s.ledger, s.objects);
  }

  // ------------------------------------------------- selectors

  /** The number a word of digits names: its digits by their weight. */
  function Weighted(word: string): nat
    requires forall i :: 0 <= i < |word| ==> IsDigit(word[i])
  {
    if word == "" then 0
    else
      assert IsDigit(word[0]);
      var digit: nat := word[0] as nat - '0' as nat;
      digit * Pow(10, |word| - 1) + Weighted(word[1..])
  }

  lemma {:induction false} DigitsMean(word: string)
    requires IsDigits(word)
    ensures DigitsOf(word).Some? && DigitsOf(word).value == Weighted(word)
    decreases |word|
  {
    var last := |word| - 1;
    if last > 0 {
      DigitsMean(word[..last]);
      WeightedLast(word[..last], word[last]);
      assert word == word[..last] + [word[last]];
    } else {
      assert word[1..] == "" && Pow(10, 0) == 1;
    }
  }

  lemma {:induction false} WeightedLast(front: string, digit: char)
    requires IsDigit(digit) && forall i :: 0 <= i < |front| ==> IsDigit(front[i])
    ensures Weighted(front + [digit]) == 10 * Weighted(front) + (digit as int - '0' as int)
  {
    var word := front + [digit];
    if front == "" {
      assert word[1..] == "" && Pow(10, 0) == 1;
    } else {
      assert word[1..] == front[1..] + [digit];
      WeightedLast(front[1..], digit);
      assert Pow(10, |front|) == 10 * Pow(10, |front| - 1);
      TenTimes(front[0] as int - '0' as int, Pow(10, |front| - 1));
    }
  }

  lemma TenTimes(a: int, b: int)
    ensures a * (10 * b) == 10 * (a * b)
  {
  }

  /** Which entry a selector names: a number counts from 1, and 0 is the last; digits are such a number; else a hash. */
  lemma SelectorMeans(ledger: seq<Entry>, selector: Selector)
    requires selector.Number? || IsDigits(selector.word)
    ensures var n := if selector.Number? then selector.n else Weighted(selector.word);
            ReadEntry(ledger, selector)
            == if ledger == [] || n > |ledger| then None else if n == 0 then Some(ledger[|ledger| - 1]) else Some(ledger[n - 1])
  {
    hide Weighted;
    if selector.Word? {
      DigitsMean(selector.word);
    }
  }

  // ------------------------------------------------- runs

  /** Operation i of a run goes back to an earlier root. */
  predicate GoesBack(ops: seq<Op>, i: nat, c: Crypto)
    requires i < |ops|
  {
    ops[i].DoRollback?
    && match ReadEntry(After(ops[..i], c).ledger, ops[i].selector)
       case Some(e) => TargetRoot(e.payload.event).Some?
       case None => false
  }

  /** The data of the last write to a path from operation k on. */
  function LastWrite(ops: seq<Op>, k: nat, path: string): Option<Bytes>
    requires k <= |ops|
  {
    if k == |ops| then None
    else
      var last := ops[|ops| - 1];
      if last.DoWrite? && last.path == path then Some(last.data) else LastWrite(ops[..|ops| - 1], k, path)
  }

  /** No two different contents that were written have one digest. */
  ghost predicate WritesApart(ops: seq<Op>, c: Crypto) {
    forall i, j :: 0 <= i < |ops| && 0 <= j < |ops| && ops[i].DoWrite? && ops[j].DoWrite? && c.sha(ops[i].data) == c.sha(ops[j].data)
      ==> ops[i].data == ops[j].data
  }

  /** Every stored object was written, under its digest. */
  ghost predicate ObjectsWritten(s: Store, ops: seq<Op>, c: Crypto) {
    forall h :: h in s.objects ==> exists i :: 0 <= i < |ops| && ops[i].DoWrite? && c.sha(ops[i].data) == h && s.objects[h] == ops[i].data
  }

  lemma {:induction false} RunObjects(ops: seq<Op>, c: Crypto)
    ensures ObjectsWritten(After(ops, c), ops, c)
  {
    hide Write, Read, Boot, SaveCheckpoint, Rollback, Replay, ReadEntry;
    if ops != [] {
      var last := |ops| - 1;
      var (s, t) := (After(ops[..last], c), After(ops, c));
      RunObjects(ops[..last], c);
      OtherObjects(s, ops[last], c);
      if ops[last].DoWrite? {
        WriteMeans(s, ops[last].path, ops[last].data, ops[last].capability, c);
      }
      forall h | h in t.objects
        ensures exists i :: 0 <= i < |ops| && ops[i].DoWrite? && c.sha(ops[i].data) == h && t.objects[h] == ops[i].data
      {
        if h in s.objects {
          var i :| 0 <= i < last && ops[..last][i].DoWrite? && c.sha(ops[..last][i].data) == h && s.objects[h] == ops[..last][i].data;
          assert ops[i] == ops[..last][i];
        } else {
          assert ops[last].DoWrite?;
        }
      }
    }
  }

  lemma OtherObjects(s: Store, op: Op, c: Crypto)
    requires Ready(s)
    ensures !op.DoWrite? ==> Perform(s, op, c).objects == s.objects
  {
    hide NewEntry, ReadEntry, LedgerCheck, ReplayWalk;
  }

  /** An operation that neither writes nor goes back leaves every path as it was. */
  lemma OthersKeep(s: Store, op: Op, c: Crypto)
    requires Ready(s) && !op.DoWrite?
    requires op.DoRollback? ==> match ReadEntry(s.ledger, op.selector) case Some(e) => TargetRoot(e.payload.event).None? case None => true
    ensures forall p :: RefIn(Perform(s, op, c), p) == RefIn(s, p) && ContentIn(Perform(s, op, c), p) == ContentIn(s, p)
  {
    hide NewEntry, ReadEntry, LedgerCheck, ReplayWalk;
    OpenedFiles(s, c);
  }

  /**
   What a path holds after a run: the data of its last write since operation k, with its digest and size; and if it
   was not written since, what it held before operation k; provided no operation since has gone back to an earlier root.
   */
  lemma {:induction false} FilesAfter(ops: seq<Op>, k: nat, path: string, c: Crypto)
    requires k <= |ops| && WritesApart(ops, c)
    requires forall i :: k <= i < |ops| ==> !GoesBack(ops, i, c)
    ensures ContentIn(After(ops, c), path)
         == match LastWrite(ops, k, path) case Some(data) => Some(data) case None => ContentIn(After(ops[..k], c), path)
    ensures RefIn(After(ops, c), path)
         == match LastWrite(ops, k, path) case Some(data) => Some(FileRef(c.sha(data), |data|)) case None => RefIn(After(ops[..k], c), path)
    decreases |ops|
  {
    hide Perform, ReadEntry, ContentIn, RefIn, WritesApart, ObjectsWritten;
    if k == |ops| {
      assert ops[..k] == ops;
    } else {
      var last := |ops| - 1;
      var (front, s) := (ops[..last], After(ops[..last], c));
      FrontApart(ops, last, c);
      FrontStays(ops, k, last, c);
      FilesAfter(front, k, path, c);
      assert front[..k] == ops[..k];
      if ops[last].DoWrite? {
        RunObjects(front, c);
        LastWritten(ops, s, c);
        PerformsWrite(s, ops[last], path, c);
      } else {
        OthersKeep(s, ops[last], c);
      }
    }
  }

  lemma FrontApart(ops: seq<Op>, n: nat, c: Crypto)
    requires WritesApart(ops, c) && n <= |ops|
    ensures WritesApart(ops[..n], c)
  {
  }

  lemma FrontStays(ops: seq<Op>, k: nat, n: nat, c: Crypto)
    requires k <= n <= |ops| && forall i :: k <= i < |ops| ==> !GoesBack(ops, i, c)
    ensures forall i :: k <= i < n ==> !GoesBack(ops[..n], i, c)
    ensures n < |ops| && ops[n].DoRollback? ==>
              match ReadEntry(After(ops[..n], c).ledger, ops[n].selector) case Some(e) => TargetRoot(e.payload.event).None? case None => true
  {
    hide After, ReadEntry;
    forall i | k <= i < n
      ensures !GoesBack(ops[..n], i, c)
    {
      assert ops[..n][..i] == ops[..i] && !GoesBack(ops, i, c);
    }
    assert n < |ops| ==> !GoesBack(ops, n, c);
  }

  lemma LastWritten(ops: seq<Op>, s: Store, c: Crypto)
    requires ops != [] && ops[|ops| - 1].DoWrite? && WritesApart(ops, c) && ObjectsWritten(s, ops[..|ops| - 1], c)
    ensures var h := c.sha(ops[|ops| - 1].data); h in s.objects ==> s.objects[h] == ops[|ops| - 1].data
  {
    var (last, h) := (|ops| - 1, c.sha(ops[|ops| - 1].data));
    if h in s.objects {
      var i :| 0 <= i < last && ops[..last][i].DoWrite? && c.sha(ops[..last][i].data) == h && s.objects[h] == ops[..last][i].data;
      assert ops[i] == ops[..last][i];
    }
  }

  lemma PerformsWrite(s: Store, op: Op, path: string, c: Crypto)
    requires Ready(s) && op.DoWrite? && (c.sha(op.data) in s.objects ==> s.objects[c.sha(op.data)] == op.data)
    ensures ContentIn(Perform(s, op, c), path) == if path == op.path then Some(op.data) else ContentIn(s, path)
    ensures RefIn(Perform(s, op, c), path) == if path == op.path then Some(FileRef(c.sha(op.data), |op.data|)) else RefIn(s, path)
  {
    hide Write, ContentIn, RefIn;
    WriteMeans(s, op.path, op.data, op.capability, c);
  }
}
