/**
 Runs of the Genesis ledger: every ledger verifies, replay arrives at the current root exactly when blocked
 rollbacks are made good, and rolling back restores files and contents.
 */
module GenesisRuns {
  import opened Wrappers
  import opened ByteStrings
  import opened Genesis

  datatype Op =
    | DoBoot | DoCheckpoint | DoReplay
    | DoWrite(path: string, data: Bytes, capability: string) | DoRead(path: string, capability: string)
    | DoRollback(selector: Selector)

  /** One operation; a rollback to an unknown entry is refused and leaves everything as it was. */
  function Perform(s: Store, op: Op, c: Crypto): (t: Store)
    requires Ready(s)
    ensures Ready(t)
  {
    match op
    case DoBoot => Boot(s, c)
    case DoCheckpoint => SaveCheckpoint(s, c)
    case DoReplay => Replay(s, c)
    case DoWrite(path, data, capability) => Write(s, path, data, capability, c)
    case DoRead(path, capability) => Read(s, path, capability, c)
    case DoRollback(selector) =>
      match ReadEntry(s.ledger, selector) case Some(e) => Rollback(s, e, c) case None => s
  }

  function After(ops: seq<Op>, c: Crypto): (s: Store)
    ensures Ready(s)
  {
    if ops == [] then FRESH else Perform(After(ops[..|ops| - 1], c), ops[|ops| - 1], c)
  }

  /** Signatures by the workspace key verify, and digests are not empty. */
  ghost predicate Proper(c: Crypto) {
    Trusted(c) && forall p :: c.receiptHash(p) != ""
  }

  // ------------------------------------------------- the ledger verifies

  ghost predicate Chained(ledger: seq<Entry>, c: Crypto) {
    LedgerCheck(ledger, c) == ([], LastHash(ledger))
  }

  lemma NoFailures(e: Entry, at: nat, previous: string, c: Crypto)
    ensures EntryFailures(e, at, previous, c) == []
       <==> && e.payload.sequence == at && e.payload.previous == previous
            && c.receiptHash(e.payload) == e.receiptHash && c.check(e.payload, e.receiptHash, e.signature)
  {
    var a: seq<Failure> := if e.payload.sequence != at then [SequenceMismatch(at)] else [];
    var b: seq<Failure> := if e.payload.previous != previous then [PreviousMismatch(at)] else [];
    var d: seq<Failure> := if c.receiptHash(e.payload) != e.receiptHash then [HashMismatch(at)] else [];
    var f: seq<Failure> := if !c.check(e.payload, e.receiptHash, e.signature) then [SignatureFailed(at)] else [];
    assert |EntryFailures(e, at, previous, c)| == |a| + |b| + |d| + |f|;
  }

  /** The check of one more entry. */
  lemma LedgerCheckStep(ledger: seq<Entry>, e: Entry, c: Crypto)
    ensures var (failures, previous) := LedgerCheck(ledger, c);
            LedgerCheck(ledger + [e], c)
            == (failures + EntryFailures(e, |ledger| + 1, previous, c), if e.receiptHash == "" then previous else e.receiptHash)
  {
    assert (ledger + [e])[..|ledger|] == ledger;
  }

  lemma {:induction false} RecordKeepsChain(ledger: seq<Entry>, event: Event, c: Crypto)
    requires Proper(c) && Chained(ledger, c)
    ensures Chained(ledger + [NewEntry(ledger, event, c)], c)
  {
    hide EntryFailures, LedgerCheck;
    var e := NewEntry(ledger, event, c);
    assert c.check(e.payload, e.receiptHash, c.sign(e.payload, e.receiptHash));
    NoFailures(e, |ledger| + 1, LastHash(ledger), c);
    LedgerCheckStep(ledger, e, c);
    assert (ledger + [e])[|ledger|] == e;
    var none: seq<Failure> := [];
    assert none + none == none;
  }

  /** Verification, said outright: entries are numbered, linked, hashed and signed. */
  ghost predicate EntryFits(ledger: seq<Entry>, i: nat, c: Crypto)
    requires i < |ledger|
  {
    && ledger[i].payload.sequence == i + 1
    && ledger[i].payload.previous == LastHash(ledger[..i])
    && ledger[i].receiptHash == c.receiptHash(ledger[i].payload)
    && c.check(ledger[i].payload, ledger[i].receiptHash, ledger[i].signature)
  }

  lemma {:induction false} AllFit(front: seq<Entry>, last: Entry, c: Crypto)
    ensures (forall i :: 0 <= i < |front| + 1 ==> EntryFits(front + [last], i, c))
       <==> (forall i :: 0 <= i < |front| ==> EntryFits(front, i, c)) && EntryFits(front + [last], |front|, c)
  {
    var ledger := front + [last];
    forall i | 0 <= i < |front|
      ensures EntryFits(ledger, i, c) <==> EntryFits(front, i, c)
    {
      assert ledger[..i] == front[..i];
    }
  }

  lemma {:induction false} CheckMeans(ledger: seq<Entry>, c: Crypto)
    requires Proper(c)
    ensures LedgerCheck(ledger, c).0 == [] <==> forall i :: 0 <= i < |ledger| ==> EntryFits(ledger, i, c)
    ensures LedgerCheck(ledger, c).0 == [] ==> LedgerCheck(ledger, c).1 == LastHash(ledger)
  {
    if ledger != [] {
      hide EntryFailures, LedgerCheck;
      var n := |ledger| - 1;
      CheckMeans(ledger[..n], c);
      assert ledger == ledger[..n] + [ledger[n]];
      LedgerCheckStep(ledger[..n], ledger[n], c);
      NoFailures(ledger[n], |ledger|, LedgerCheck(ledger[..n], c).1, c);
      AllFit(ledger[..n], ledger[n], c);
    }
  }

  /** Every operation extends the ledger by at most one entry, made from what was there. */
  ghost predicate Extends(s: Store, t: Store, c: Crypto) {
    t.ledger == s.ledger || exists event :: t.ledger == s.ledger + [NewEntry(s.ledger, event, c)]
  }

  lemma {:induction false} RecordExtends(s: Store, o: Store, event: Event, c: Crypto)
    requires o.ledger == s.ledger
    ensures Extends(s, Record(o, event, c), c)
  {
    assert Record(o, event, c).ledger == s.ledger + [NewEntry(s.ledger, event, c)];
  }

  lemma {:induction false} PerformExtends(s: Store, op: Op, c: Crypto)
    requires Ready(s)
    ensures Extends(s, Perform(s, op, c), c)
  {
    hide Extends, Record, Ready;
    var o := Opened(s, c);
    match op
    case DoBoot => RecordExtends(s, o, TrustedBoot(o.current.value), c);
    case DoCheckpoint => RecordExtends(s, o, Checkpoint(o.current.value), c);
    case DoReplay =>
      RecordExtends(s, o, Replayed(ReplayVerifies(s, c), LedgerCheck(s.ledger, c).1, ReplayWalk(s.ledger, s.objects).root), c);
    case DoWrite(path, data, capability) => WriteExtends(s, path, data, capability, c);
    case DoRead(path, capability) =>
      var digest := match ContentOf(o, path) case None => None case Some(data) => Some(c.sha(data));
      RecordExtends(s, o, FsRead(path, capability, digest, o.current.value), c);
    case DoRollback(selector) =>
      match ReadEntry(s.ledger, selector)
      case None => Unchanged(s, c);
      case Some(e) =>
        var target := TargetRoot(e.payload.event);
        var ok := target.Some? && target.value in s.states;
        var moved := if ok then o.(current := target) else o;
        RecordExtends(s, moved, RolledBack(e.receiptHash, o.current.value, target, ok), c);
  }

  lemma Unchanged(s: Store, c: Crypto)
    ensures Extends(s, s, c)
  {
  }

  lemma {:induction false} WriteExtends(s: Store, path: string, data: Bytes, capability: string, c: Crypto)
    requires Ready(s)
    ensures Extends(s, Write(s, path, data, capability, c), c)
  {
    hide Extends, Record;
    var o := WithObject(Opened(s, c), data, c);
    var before := FilesOf(o);
    var after := before[path := FileRef(c.sha(data), |data|)];
    RecordExtends(s, SaveManifest(o, after, c), FsWrite(path, capability, c.sha(data), c.manifestHash(before), c.manifestHash(after)), c);
  }

  /** Every ledger of every run verifies. */
  lemma {:induction false} LedgerAlwaysVerifies(ops: seq<Op>, c: Crypto)
    requires Proper(c)
    ensures Chained(After(ops, c).ledger, c)
  {
    hide Perform, Chained, NewEntry, Ready;
    if ops == [] {
      NothingChained(c);
    } else {
      var s := After(ops[..|ops| - 1], c);
      LedgerAlwaysVerifies(ops[..|ops| - 1], c);
      PerformExtends(s, ops[|ops| - 1], c);
      if After(ops, c).ledger != s.ledger {
        var event :| After(ops, c).ledger == s.ledger + [NewEntry(s.ledger, event, c)];
        RecordKeepsChain(s.ledger, event, c);
      }
    }
  }

  lemma NothingChained(c: Crypto)
    ensures Chained([], c)
  {
  }

  // ------------------------------------------------- what a ledger root identifies

  function Payloads(ledger: seq<Entry>): (r: seq<Payload>)
    ensures |r| == |ledger|
    ensures forall i :: 0 <= i < |r| ==> r[i] == ledger[i].payload
  {
    if ledger == [] then [] else Payloads(ledger[..|ledger| - 1]) + [ledger[|ledger| - 1].payload]
  }

  /** No two receipts of these ledgers share a digest, and none has the digest a ledger starts from. */
  ghost predicate ReceiptsApart(x: seq<Entry>, y: seq<Entry>, c: Crypto) {
    && (forall e, f :: e in x && f in y && c.receiptHash(e.payload) == c.receiptHash(f.payload) ==> e.payload == f.payload)
    && (forall e :: e in x || e in y ==> c.receiptHash(e.payload) != ZERO_HASH)
  }

  /** Two ledgers that verify and have the same root hold the same receipts: nothing was changed, dropped or added. */
  lemma {:induction false} LedgerRootIdentifies(x: seq<Entry>, y: seq<Entry>, c: Crypto)
    requires Proper(c) && ReceiptsApart(x, y, c)
    requires LedgerCheck(x, c).0 == [] && LedgerCheck(y, c).0 == [] && LedgerCheck(x, c).1 == LedgerCheck(y, c).1
    ensures Payloads(x) == Payloads(y)
    decreases |x|
  {
    hide LedgerCheck, EntryFits, Payloads;
    CheckMeans(x, c);
    CheckMeans(y, c);
    if x == [] || y == [] {
      if x != [] {
        FitsLast(x, c);
      }
      if y != [] {
        FitsLast(y, c);
      }
    } else {
      var (m, n) := (|x| - 1, |y| - 1);
      FitsLast(x, c);
      FitsLast(y, c);
      assert x[m] in x && y[n] in y;
      assert x[m].payload == y[n].payload;
      ChecksPrefix(x, c);
      ChecksPrefix(y, c);
      CheckMeans(x[..m], c);
      CheckMeans(y[..n], c);
      LedgerRootIdentifies(x[..m], y[..n], c);
      PayloadsLast(x);
      PayloadsLast(y);
    }
  }

  lemma PayloadsLast(x: seq<Entry>)
    requires x != []
    ensures Payloads(x) == Payloads(x[..|x| - 1]) + [x[|x| - 1].payload]
  {
  }

  lemma FitsLast(x: seq<Entry>, c: Crypto)
    requires x != [] && forall i :: 0 <= i < |x| ==> EntryFits(x, i, c)
    ensures var e := x[|x| - 1];
            e in x && e.payload.previous == LastHash(x[..|x| - 1]) && LastHash(x) == c.receiptHash(e.payload)
  {
    assert EntryFits(x, |x| - 1, c);
  }

  lemma ChecksPrefix(x: seq<Entry>, c: Crypto)
    requires x != [] && LedgerCheck(x, c).0 == []
    ensures LedgerCheck(x[..|x| - 1], c).0 == []
  {
  }
}
