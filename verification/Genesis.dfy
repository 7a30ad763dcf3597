/**
 The Genesis ledger (bogvm/genesis.py): file states, an object store and a chained, signed ledger of receipts.
 Canonical-JSON hashing, SHA-256 and signatures are parameters. The ledger directory is a sequence, the
 object and state directories are maps.
 */
module Genesis {
  import opened Wrappers
  import opened ByteStrings
  import opened Decimals

  datatype FileRef = FileRef(sha: string, size: nat)

  type Files = map<string, FileRef>

  /** What a ledger entry says, by event, as far as rollback and replay look at it. */
  datatype Event =
    | TrustedBoot(stateRoot: string)
    | FsWrite(path: string, capability: string, content: string, before: string, after: string)
    | FsRead(path: string, capability: string, found: Option<string>, stateRoot: string)
    | Checkpoint(stateRoot: string)
    | RolledBack(source: string, before: string, target: Option<string>, completed: bool)
    | Replayed(verified: bool, ledgerRoot: string, finalRoot: Option<string>)

  datatype Payload = Payload(event: Event, sequence: int, previous: string)

  datatype Entry = Entry(payload: Payload, receiptHash: string, signature: string)

  datatype Crypto = Crypto(
    sha: Bytes -> string, manifestHash: Files -> string, receiptHash: Payload -> string,
    sign: (Payload, string) -> string, check: (Payload, string, string) -> bool)

  /** The workspace key is trusted: what it signs is verified. */
  ghost predicate Trusted(c: Crypto) {
    forall p, h :: c.check(p, h, c.sign(p, h))
  }

  const ZERO_HASH: string := "0000000000000000000000000000000000000000000000000000000000000000"

  datatype Store = Store(ledger: seq<Entry>, objects: map<string, Bytes>, states: map<string, Files>, current: Option<string>)

  const FRESH: Store := Store([], map[], map[], None)

  /** The current root names a saved state, and the files of every saved state have their objects. */
  predicate Ready(s: Store) {
    && (s.current.Some? ==> s.current.value in s.states)
    && (forall r :: r in s.states ==> Backed(s.states[r], s.objects))
  }

  predicate Backed(files: Files, objects: map<string, Bytes>) {
    forall p :: p in files ==> files[p].sha in objects
  }

  // ------------------------------------------------- states

  function SaveManifest(s: Store, files: Files, c: Crypto): Store {
    s.(states := s.states[c.manifestHash(files) := files], current := Some(c.manifestHash(files)))
  }

  /** The first look at the current state saves the empty one. */
  function Opened(s: Store, c: Crypto): (t: Store)
    ensures t.current.Some?
    ensures Ready(s) ==> Ready(t)
  {
    if s.current.None? then SaveManifest(s, map[], c) else s
  }

  function FilesOf(s: Store): Files
    requires Ready(s) && s.current.Some?
  {
    s.states[s.current.value]
  }

  function LastHash(ledger: seq<Entry>): string {
    if ledger == [] then ZERO_HASH else ledger[|ledger| - 1].receiptHash
  }

  function NewEntry(ledger: seq<Entry>, event: Event, c: Crypto): Entry {
    var payload := Payload(event, |ledger| + 1, LastHash(ledger));
    Entry(payload, c.receiptHash(payload), c.sign(payload, c.receiptHash(payload)))
  }

  function Record(s: Store, event: Event, c: Crypto): (t: Store)
    ensures Ready(s) ==> Ready(t)
  {
    s.(ledger := s.ledger + [NewEntry(s.ledger, event, c)])
  }

  // ------------------------------------------------- operations

  function Boot(s: Store, c: Crypto): (t: Store)
    requires Ready(s)
    ensures Ready(t)
  {
    var o := Opened(s, c);
    Record(o, TrustedBoot(o.current.value), c)
  }

  function SaveCheckpoint(s: Store, c: Crypto): (t: Store)
    requires Ready(s)
    ensures Ready(t)
  {
    var o := Opened(s, c);
    Record(o, Checkpoint(o.current.value), c)
  }

  /** Stores the bytes under their digest unless something is stored there already. */
  function WithObject(s: Store, data: Bytes, c: Crypto): (t: Store)
    requires Ready(s)
    ensures Ready(t)
  {
    if c.sha(data) in s.objects then s else s.(objects := s.objects[c.sha(data) := data])
  }

  function Write(s: Store, path: string, data: Bytes, capability: string, c: Crypto): (t: Store)
    requires Ready(s)
    ensures Ready(t)
  {
    var o := WithObject(Opened(s, c), data, c);
    var before := FilesOf(o);
    var after := before[path := FileRef(c.sha(data), |data|)];
    assert Backed(before, o.objects);
    var saved := SaveManifest(o, after, c);
    assert Ready(saved);
    Record(saved, FsWrite(path, capability, c.sha(data), c.manifestHash(before), c.manifestHash(after)), c)
  }

  /** The bytes of a path, if it is there. */
  function ContentOf(s: Store, path: string): Option<Bytes>
    requires Ready(s) && s.current.Some?
  {
    if path in FilesOf(s) then
      assert Backed(FilesOf(s), s.objects);
      Some(s.objects[FilesOf(s)[path].sha])
    else None
  }

  function Read(s: Store, path: string, capability: string, c: Crypto): (t: Store)
    requires Ready(s)
    ensures Ready(t)
  {
    var o := Opened(s, c);
    var digest := match ContentOf(o, path) case None => None case Some(data) => Some(c.sha(data));
    Record(o, FsRead(path, capability, digest, o.current.value), c)
  }

  /** Entries are named by a number, or by a word: their number in digits, or their hash. */
  datatype Selector = Number(n: nat) | Word(word: string)
  {
    function Numbered(): (r: Option<nat>)
      ensures r.None? <==> Word? && !IsDigits(word)
    {
      match this
      case Number(n) => Some(n)
      case Word(word) =>
        if IsDigits(word) then
          DigitsRead(word);
          DigitsOf(word)
        else None
    }
  }

  function FindHash(ledger: seq<Entry>, h: string): (r: Option<Entry>)
    ensures r.Some? ==> r.value in ledger && r.value.receiptHash == h
    ensures r.None? ==> forall e :: e in ledger ==> e.receiptHash != h
  {
    if ledger == [] then None else if ledger[0].receiptHash == h then Some(ledger[0]) else FindHash(ledger[1..], h)
  }

  /** Number n is entry n; number 0 counts from the end, as index -1 does. A word of digits is never a hash. */
  function ReadEntry(ledger: seq<Entry>, selector: Selector): Option<Entry> {
    match selector.Numbered()
    case Some(n) =>
      if n > |ledger| || ledger == [] then None else Some(ledger[if n == 0 then |ledger| - 1 else n - 1])
    case None => FindHash(ledger, selector.word)
  }

  /** The root an entry points back to. */
  function TargetRoot(event: Event): Option<string> {
    match event
    case TrustedBoot(root) => Some(root)
    case FsWrite(_, _, _, _, after) => Some(after)
    case FsRead(_, _, _, root) => Some(root)
    case Checkpoint(root) => Some(root)
    case RolledBack(_, _, target, _) => target
    case Replayed(_, _, _) => None
  }

  /** Goes back to the root of an entry; blocked, but still recorded, when that is not a saved state. */
  function Rollback(s: Store, e: Entry, c: Crypto): (t: Store)
    requires Ready(s)
    ensures Ready(t)
  {
    var target := TargetRoot(e.payload.event);
    var ok := target.Some? && target.value in s.states;
    var o := Opened(s, c);
    var moved := if ok then o.(current := target) else o;
    Record(moved, RolledBack(e.receiptHash, o.current.value, target, ok), c)
  }

  // ------------------------------------------------- verification

  datatype Failure = SequenceMismatch(at: nat) | PreviousMismatch(at: nat) | HashMismatch(at: nat) | SignatureFailed(at: nat)

  function EntryFailures(e: Entry, at: nat, previous: string, c: Crypto): seq<Failure> {
    (if e.payload.sequence != at then [SequenceMismatch(at)] else [])
    + (if e.payload.previous != previous then [PreviousMismatch(at)] else [])
    + (if c.receiptHash(e.payload) != e.receiptHash then [HashMismatch(at)] else [])
    + (if !c.check(e.payload, e.receiptHash, e.signature) then [SignatureFailed(at)] else [])
  }

  /** The failures of a ledger, numbered from 1, and the hash the next entry must name. */
  function LedgerCheck(ledger: seq<Entry>, c: Crypto): (r: (seq<Failure>, string)) {
    if ledger == [] then ([], ZERO_HASH)
    else
      var n := |ledger| - 1;
      var (failures, previous) := LedgerCheck(ledger[..n], c);
      (failures + EntryFailures(ledger[n], |ledger|, previous, c), if ledger[n].receiptHash == "" then previous else ledger[n].receiptHash)
  }

  /** The root that replaying the ledger arrives at, and the number of mismatches on the way. */
  datatype Walk = Walk(root: Option<string>, mismatches: nat)

  function WalkStep(w: Walk, event: Event, objects: map<string, Bytes>): Walk {
    match event
    case TrustedBoot(root) => w.(root := Some(root))
    case FsWrite(_, _, content, before, after) =>
      Walk(Some(after), w.mismatches + (if Some(before) != w.root then 1 else 0) + (if content !in objects then 1 else 0))
    case RolledBack(_, _, target, _) => w.(root := target)
    case _ => w
  }

  function ReplayWalk(ledger: seq<Entry>, objects: map<string, Bytes>): Walk {
    if ledger == [] then Walk(Some(ZERO_HASH), 0)
    else WalkStep(ReplayWalk(ledger[..|ledger| - 1], objects), ledger[|ledger| - 1].payload.event, objects)
  }

  /** The verdict of a session replay. */
  predicate ReplayVerifies(s: Store, c: Crypto) {
    var walk := ReplayWalk(s.ledger, s.objects);
    LedgerCheck(s.ledger, c).0 == [] && walk.mismatches == 0 && walk.root == Opened(s, c).current
  }

  function Replay(s: Store, c: Crypto): (t: Store)
    requires Ready(s)
    ensures Ready(t)
  {
    Record(Opened(s, c), Replayed(ReplayVerifies(s, c), LedgerCheck(s.ledger, c).1, ReplayWalk(s.ledger, s.objects).root), c)
  }

  // ------------------------------------------------- the class

  datatype LedgerError = UnknownReceipt

  class Ledger {
    const crypto: Crypto
    var entries: seq<Entry>
    var objects: map<string, Bytes>
    var states: map<string, Files>
    var pointer: Option<string>

    function Snapshot(): Store
      reads this
    {
      Store(entries, objects, states, pointer)
    }

    predicate Valid()
      reads this
    {
      Ready(Snapshot())
    }

    constructor (crypto: Crypto)
      ensures Valid() && Snapshot() == FRESH && this.crypto == crypto
    {
      this.crypto := crypto;
      entries, objects, states, pointer := [], map[], map[], None;
    }

    method StoreManifest(files: Files) returns (root: string)
      modifies this`states, this`pointer
      ensures Snapshot() == SaveManifest(old(Snapshot()), files, crypto) && root == crypto.manifestHash(files)
    {
      root := crypto.manifestHash(files);
      states := states[root := files];
      pointer := Some(root);
    }

    method CurrentManifest() returns (files: Files)
      requires Valid()
      modifies this`states, this`pointer
      ensures Valid() && Snapshot() == Opened(old(Snapshot()), crypto) && files == FilesOf(Snapshot())
    {
      if pointer.None? {
        var _ := StoreManifest(map[]);
      }
      files := states[pointer.value];
    }

    method RecordEvent(event: Event) returns (entry: Entry)
      modifies this`entries
      ensures Snapshot() == Record(old(Snapshot()), event, crypto) && entry == NewEntry(old(entries), event, crypto)
    {
      var previous := if |entries| == 0 then ZERO_HASH else entries[|entries| - 1].receiptHash;
      var payload := Payload(event, |entries| + 1, previous);
      var receiptHash := crypto.receiptHash(payload);
      entry := Entry(payload, receiptHash, crypto.sign(payload, receiptHash));
      entries := entries + [entry];
    }

    method BootTrusted() returns (entry: Entry)
      requires Valid()
      modifies this
      ensures Valid() && Snapshot() == Boot(old(Snapshot()), crypto)
    {
      hide NewEntry;
      var _ := CurrentManifest();
      entry := RecordEvent(TrustedBoot(pointer.value));
    }

    method WriteFile(path: string, data: Bytes, capability: string) returns (entry: Entry)
      requires Valid()
      modifies this
      ensures Valid() && Snapshot() == Write(old(Snapshot()), path, data, capability, crypto)
    {
      hide NewEntry;
      var before := CurrentManifest();
      var digest := crypto.sha(data);
      if digest !in objects {
        objects := objects[digest := data];
      }
      var after := before[path := FileRef(digest, |data|)];
      var beforeRoot := crypto.manifestHash(before);
      var afterRoot := StoreManifest(after);
      entry := RecordEvent(FsWrite(path, capability, digest, beforeRoot, afterRoot));
    }

    method ReadFile(path: string, capability: string) returns (data: Bytes, entry: Entry)
      requires Valid()
      modifies this
      ensures Valid() && Snapshot() == Read(old(Snapshot()), path, capability, crypto)
      ensures data == match ContentOf(Opened(old(Snapshot()), crypto), path) case Some(d) => d case None => []
    {
      hide NewEntry;
      var files := CurrentManifest();
      ghost var looked := Snapshot();
      data := [];
      if path in files {
        assert Backed(files, objects);
        data := objects[files[path].sha];
        entry := RecordEvent(FsRead(path, capability, Some(crypto.sha(data)), pointer.value));
      } else {
        entry := RecordEvent(FsRead(path, capability, None, pointer.value));
      }
      assert ContentOf(looked, path) == if path in files then Some(data) else None;
    }

    method FindEntry(selector: Selector) returns (r: Option<Entry>)
      ensures r == ReadEntry(entries, selector)
    {
      match selector.Numbered()
      case Some(n) =>
        if |entries| == 0 || n > |entries| {
          return None;
        }
        r := Some(if n == 0 then entries[|entries| - 1] else entries[n - 1]);
      case None =>
        var h := selector.word;
        for i := 0 to |entries|
          invariant FindHash(entries, h) == FindHash(entries[i..], h)
        {
          assert entries[i..][1..] == entries[i + 1..];
          if entries[i].receiptHash == h {
            return Some(entries[i]);
          }
        }
        r := None;
    }

    method RollbackTo(selector: Selector) returns (r: Result<Entry, LedgerError>)
      requires Valid()
      modifies this
      ensures Valid()
      ensures match ReadEntry(old(entries), selector)
              case Some(e) => r.Ok? && Snapshot() == Rollback(old(Snapshot()), e, crypto)
              case None => r == Err(UnknownReceipt) && Snapshot() == old(Snapshot())
    {
      hide NewEntry;
      var found := FindEntry(selector);
      if found.None? {
        return Err(UnknownReceipt);
      }
      var target := TargetRoot(found.value.payload.event);
      var ok := target.Some? && target.value in states;
      var _ := CurrentManifest();
      var before := pointer.value;
      if ok {
        pointer := target;
      }
      var entry := RecordEvent(RolledBack(found.value.receiptHash, before, target, ok));
      r := Ok(entry);
    }

    method VerifyLedger() returns (failures: seq<Failure>, root: string)
      ensures (failures, root) == LedgerCheck(entries, crypto)
    {
      failures, root := [], ZERO_HASH;
      for i := 0 to |entries|
        invariant (failures, root) == LedgerCheck(entries[..i], crypto)
      {
        var e := entries[i];
        assert entries[..i + 1] == entries[..i] + [e] && entries[..i + 1][..i] == entries[..i];
        failures := failures + EntryFailures(e, i + 1, root, crypto);
        root := if e.receiptHash == "" then root else e.receiptHash;
      }
      assert entries[..|entries|] == entries;
    }

    /** The replay loop: the root and the mismatches. */
    method WalkLedger() returns (root: Option<string>, mismatches: nat)
      ensures Walk(root, mismatches) == ReplayWalk(entries, objects)
    {
      root, mismatches := Some(ZERO_HASH), 0;
      for i := 0 to |entries|
        invariant Walk(root, mismatches) == ReplayWalk(entries[..i], objects)
      {
        assert entries[..i + 1][..i] == entries[..i];
        match entries[i].payload.event
        case TrustedBoot(stateRoot) => root := Some(stateRoot);
        case FsWrite(_, _, content, before, after) =>
          if Some(before) != root {
            mismatches := mismatches + 1;
          }
          root := Some(after);
          if content !in objects {
            mismatches := mismatches + 1;
          }
        case RolledBack(_, _, target, _) => root := target;
        case _ =>
      }
      assert entries[..|entries|] == entries;
    }

    method ReplaySession() returns (verified: bool)
      requires Valid()
      modifies this
      ensures Valid() && Snapshot() == Replay(old(Snapshot()), crypto)
      ensures verified == ReplayVerifies(old(Snapshot()), crypto)
    {
      hide NewEntry, LedgerCheck, ReplayWalk;
      var failures, ledgerRoot := VerifyLedger();
      var root, mismatches := WalkLedger();
      var _ := CurrentManifest();
      verified := failures == [] && mismatches == 0 && root == pointer;
      var _ := RecordEvent(Replayed(verified, ledgerRoot, root));
    }
  }
}
