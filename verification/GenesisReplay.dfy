/** Replay and rollback of the Genesis ledger: what they find and what they bring back. */
module GenesisReplay {
  import opened Wrappers
  import opened ByteStrings
  import opened Genesis
  import opened GenesisRuns

  // ------------------------------------------------- what one operation does

  /** Saved states are filed under their own hash. */
  ghost predicate Keyed(s: Store, c: Crypto) {
    forall r :: r in s.states ==> c.manifestHash(s.states[r]) == r
  }

  predicate EventKnown(event: Event, s: Store) {
    && (TargetRoot(event).Some? ==> TargetRoot(event).value in s.states)
    && (event.FsWrite? ==> event.content in s.objects)
  }

  /** The roots and objects the ledger names are there. */
  ghost predicate Known(s: Store) {
    forall e :: e in s.ledger ==> EventKnown(e.payload.event, s)
  }

  /** How the current root moves, as the recorded event tells it. */
  ghost predicate Moves(s: Store, t: Store, event: Event) {
    match event
    case FsWrite(_, _, content, before, after) =>
      t.current == Some(after) && content in t.objects && (s.current.Some? ==> s.current == Some(before))
    case RolledBack(_, _, target, completed) =>
      if completed then target.Some? && t.current == target else target.None? && (s.current.Some? ==> t.current == s.current)
    case Replayed(_, _, _) => s.current.Some? ==> t.current == s.current
    case _ => t.current == TargetRoot(event) && (s.current.Some? ==> t.current == s.current)
  }

  ghost predicate Grows(s: Store, t: Store) {
    && s.states.Keys <= t.states.Keys
    && forall o :: o in s.objects ==> o in t.objects && t.objects[o] == s.objects[o]
  }

  ghost predicate Stepped(s: Store, t: Store, event: Event, c: Crypto) {
    && t.ledger == s.ledger + [NewEntry(s.ledger, event, c)]
    && t.current.Some? && Keyed(t, c) && Grows(s, t) && Moves(s, t, event)
  }

  lemma OpenedSteps(s: Store, c: Crypto)
    requires Ready(s) && Keyed(s, c)
    ensures var o := Opened(s, c);
            Keyed(o, c) && Grows(s, o) && o.ledger == s.ledger && o.current.Some? && (s.current.Some? ==> o == s)
  {
  }

  lemma WriteSteps(s: Store, path: string, data: Bytes, capability: string, c: Crypto) returns (event: Event)
    requires Ready(s) && Keyed(s, c)
    ensures Stepped(s, Write(s, path, data, capability, c), event, c)
  {
    hide NewEntry;
    OpenedSteps(s, c);
    var o := WithObject(Opened(s, c), data, c);
    var before := FilesOf(o);
    var after := before[path := FileRef(c.sha(data), |data|)];
    event := FsWrite(path, capability, c.sha(data), c.manifestHash(before), c.manifestHash(after));
    assert c.manifestHash(o.states[o.current.value]) == o.current.value;
  }

  lemma RollbackSteps(s: Store, e: Entry, c: Crypto) returns (event: Event)
    requires Ready(s) && Keyed(s, c) && EventKnown(e.payload.event, s)
    ensures Stepped(s, Rollback(s, e, c), event, c)
  {
    hide NewEntry, Ready;
    OpenedSteps(s, c);
    var o, target := Opened(s, c), TargetRoot(e.payload.event);
    event := RolledBack(e.receiptHash, o.current.value, target, target.Some?);
  }

  lemma FoundKnown(s: Store, selector: Selector)
    requires Known(s) && ReadEntry(s.ledger, selector).Some?
    ensures EventKnown(ReadEntry(s.ledger, selector).value.payload.event, s)
  {
    hide EventKnown;
    assert ReadEntry(s.ledger, selector).value in s.ledger;
  }

  /** Every operation but a refused rollback records one event that tells what it did. */
  lemma PerformSteps(s: Store, op: Op, c: Crypto) returns (event: Option<Event>)
    requires Ready(s) && Keyed(s, c) && Known(s)
    ensures match event
            case Some(e) => Stepped(s, Perform(s, op, c), e, c)
            case None => Perform(s, op, c) == s && op.DoRollback? && ReadEntry(s.ledger, op.selector).None?
  {
    hide NewEntry, Ready, Known, Write, Rollback, LedgerCheck, ReplayWalk, ReplayVerifies;
    OpenedSteps(s, c);
    var o := Opened(s, c);
    match op
    case DoBoot => event := Some(TrustedBoot(o.current.value));
    case DoCheckpoint => event := Some(Checkpoint(o.current.value));
    case DoReplay =>
      event := Some(Replayed(ReplayVerifies(s, c), LedgerCheck(s.ledger, c).1, ReplayWalk(s.ledger, s.objects).root));
    case DoWrite(path, data, capability) =>
      var e := WriteSteps(s, path, data, capability, c);
      event := Some(e);
    case DoRead(path, capability) =>
      var digest := match ContentOf(o, path) case None => None case Some(data) => Some(c.sha(data));
      event := Some(FsRead(path, capability, digest, o.current.value));
    case DoRollback(selector) =>
      var found := ReadEntry(s.ledger, selector);
      if found.None? {
        event := None;
      } else {
        FoundKnown(s, selector);
        var e := RollbackSteps(s, found.value, c);
        event := Some(e);
      }
  }

  /** The last entry, when it has a root, has the current one. */
  ghost predicate AtHead(s: Store) {
    s.ledger != [] ==>
      && s.current.Some?
      && (TargetRoot(s.ledger[|s.ledger| - 1].payload.event).Some?
          ==> TargetRoot(s.ledger[|s.ledger| - 1].payload.event) == s.current)
  }

  ghost predicate Inv(s: Store, c: Crypto) {
    Ready(s) && Keyed(s, c) && Known(s) && AtHead(s)
  }

  lemma {:induction false} StepKeepsInv(s: Store, t: Store, event: Event, c: Crypto)
    requires Inv(s, c) && Ready(t) && Stepped(s, t, event, c)
    ensures Inv(t, c)
  {
    hide Keyed;
    forall e | e in t.ledger
      ensures EventKnown(e.payload.event, t)
    {
      if e in s.ledger {
        assert EventKnown(e.payload.event, s);
      } else {
        assert e == NewEntry(s.ledger, event, c);
      }
    }
  }

  lemma {:induction false} RunKeepsInv(ops: seq<Op>, c: Crypto)
    ensures Inv(After(ops, c), c)
  {
    hide Inv, Perform, Stepped, Ready;
    if ops == [] {
      FreshInv(c);
    } else {
      var s := After(ops[..|ops| - 1], c);
      RunKeepsInv(ops[..|ops| - 1], c);
      InvParts(s, c);
      var event := PerformSteps(s, ops[|ops| - 1], c);
      if event.Some? {
        StepKeepsInv(s, After(ops, c), event.value, c);
      }
    }
  }

  lemma FreshInv(c: Crypto)
    ensures Inv(FRESH, c)
  {
  }

  lemma InvParts(s: Store, c: Crypto)
    requires Inv(s, c)
    ensures Ready(s) && Keyed(s, c) && Known(s)
  {
  }

  // ------------------------------------------------- replay

  predicate Restores(event: Event) {
    event.TrustedBoot? || (event.RolledBack? && event.completed)
  }

  predicate BlockedRollback(event: Event) {
    event.RolledBack? && !event.completed
  }

  /** A blocked rollback at i is made good: a boot or a completed rollback follows before any write. */
  ghost predicate MadeGood(ledger: seq<Entry>, i: nat) {
    exists j :: i < j < |ledger| && Restores(ledger[j].payload.event) && NoWriteBetween(ledger, i, j)
  }

  ghost predicate NoWriteBetween(ledger: seq<Entry>, i: nat, j: nat) {
    forall k :: i < k < j && k < |ledger| ==> !ledger[k].payload.event.FsWrite?
  }

  ghost predicate Healed(ledger: seq<Entry>) {
    forall i :: 0 <= i < |ledger| && BlockedRollback(ledger[i].payload.event) ==> MadeGood(ledger, i)
  }

  /** Replay has lost the root: a blocked rollback set it to nothing and nothing has set it since. */
  predicate Lost(ledger: seq<Entry>) {
    ledger != []
    && var event := ledger[|ledger| - 1].payload.event;
       BlockedRollback(event) || (!Restores(event) && !event.FsWrite? && Lost(ledger[..|ledger| - 1]))
  }

  /** Something was written while the root was lost. */
  predicate Spoiled(ledger: seq<Entry>) {
    ledger != []
    && (Spoiled(ledger[..|ledger| - 1]) || (ledger[|ledger| - 1].payload.event.FsWrite? && Lost(ledger[..|ledger| - 1])))
  }

  /** A lost root goes back to a blocked rollback with neither a restore nor a write after it. */
  lemma {:induction false} LostSince(ledger: seq<Entry>) returns (i: nat)
    requires Lost(ledger)
    ensures i < |ledger| && BlockedRollback(ledger[i].payload.event)
    ensures forall j :: i < j < |ledger| ==> !Restores(ledger[j].payload.event) && !ledger[j].payload.event.FsWrite?
  {
    var n := |ledger| - 1;
    if BlockedRollback(ledger[n].payload.event) {
      i := n;
    } else {
      i := LostSince(ledger[..n]);
      forall j | i < j < |ledger|
        ensures !Restores(ledger[j].payload.event) && !ledger[j].payload.event.FsWrite?
      {
        assert j < n ==> ledger[..n][j] == ledger[j];
      }
    }
  }

  /** A spoiled ledger has a write after a blocked rollback with no restore in between. */
  lemma {:induction false} SpoiledBy(ledger: seq<Entry>) returns (i: nat, w: nat)
    requires Spoiled(ledger)
    ensures i < w < |ledger| && BlockedRollback(ledger[i].payload.event) && ledger[w].payload.event.FsWrite?
    ensures forall j :: i < j < w ==> !Restores(ledger[j].payload.event)
  {
    var n := |ledger| - 1;
    if Spoiled(ledger[..n]) {
      i, w := SpoiledBy(ledger[..n]);
      SamePrefix(ledger, n, i, w);
    } else {
      i := LostSince(ledger[..n]);
      w := n;
      SamePrefix(ledger, n, i, n);
    }
  }

  lemma SamePrefix(ledger: seq<Entry>, n: nat, i: nat, w: nat)
    requires i < w <= n <= |ledger|
    ensures forall j :: i <= j < w ==> ledger[j] == ledger[..n][j]
    ensures w < n ==> ledger[w] == ledger[..n][w]
  {
  }

  lemma {:induction false} SpoiledIsNotHealed(ledger: seq<Entry>)
    requires Spoiled(ledger)
    ensures !Healed(ledger)
  {
    var i, w := SpoiledBy(ledger);
    forall j | i < j < |ledger| && Restores(ledger[j].payload.event)
      ensures !NoWriteBetween(ledger, i, j)
    {
      assert i < w < j && ledger[w].payload.event.FsWrite?;
    }
    assert !MadeGood(ledger, i);
  }

  lemma {:induction false} LostIsNotHealed(ledger: seq<Entry>)
    requires Lost(ledger)
    ensures !Healed(ledger)
  {
    var i := LostSince(ledger);
    assert !MadeGood(ledger, i);
  }

  lemma StillMadeGood(ledger: seq<Entry>, n: nat, i: nat)
    requires n <= |ledger| && MadeGood(ledger[..n], i)
    ensures MadeGood(ledger, i)
  {
    var j :| i < j < n && Restores(ledger[..n][j].payload.event) && NoWriteBetween(ledger[..n], i, j);
    assert ledger[j] == ledger[..n][j];
    forall k | i < k < j && k < |ledger|
      ensures !ledger[k].payload.event.FsWrite?
    {
      assert ledger[k] == ledger[..n][k];
    }
    assert NoWriteBetween(ledger, i, j);
  }

  lemma {:induction false} HealsOrLost(ledger: seq<Entry>, i: nat)
    requires i < |ledger| && BlockedRollback(ledger[i].payload.event) && !Spoiled(ledger)
    ensures MadeGood(ledger, i) || (Lost(ledger) && NoWriteBetween(ledger, i, |ledger|))
  {
    hide MadeGood;
    var n := |ledger| - 1;
    if i < n {
      assert ledger[..n][i] == ledger[i];
      HealsOrLost(ledger[..n], i);
      if MadeGood(ledger[..n], i) {
        StillMadeGood(ledger, n, i);
      } else {
        forall k | i < k < n
          ensures !ledger[k].payload.event.FsWrite?
        {
          assert ledger[k] == ledger[..n][k];
        }
        if Restores(ledger[n].payload.event) {
          RestoredAt(ledger, i, n);
        }
      }
    }
  }

  lemma RestoredAt(ledger: seq<Entry>, i: nat, j: nat)
    requires i < j < |ledger| && Restores(ledger[j].payload.event) && NoWriteBetween(ledger, i, j)
    ensures MadeGood(ledger, i)
  {
  }

  /** The condition, read off step by step. */
  lemma {:induction false} HealedMeans(ledger: seq<Entry>)
    ensures Healed(ledger) <==> !Lost(ledger) && !Spoiled(ledger)
  {
    hide MadeGood, Lost, Spoiled;
    if Spoiled(ledger) {
      SpoiledIsNotHealed(ledger);
    } else if Lost(ledger) {
      LostIsNotHealed(ledger);
    } else {
      forall i | 0 <= i < |ledger| && BlockedRollback(ledger[i].payload.event)
        ensures MadeGood(ledger, i)
      {
        HealsOrLost(ledger, i);
      }
    }
  }

  /** Replay of a ledger whose objects are all there does not depend on what else is stored. */
  lemma {:induction false} WalkIgnoresMore(ledger: seq<Entry>, x: map<string, Bytes>, y: map<string, Bytes>)
    requires forall e :: e in ledger && e.payload.event.FsWrite? ==> e.payload.event.content in x && e.payload.event.content in y
    ensures ReplayWalk(ledger, x) == ReplayWalk(ledger, y)
  {
    if ledger != [] {
      var n := |ledger| - 1;
      assert ledger[n] in ledger;
      forall e | e in ledger[..n] && e.payload.event.FsWrite?
        ensures e.payload.event.content in x && e.payload.event.content in y
      {
        assert e in ledger;
      }
      WalkIgnoresMore(ledger[..n], x, y);
    }
  }

  /** Replay follows the current root unless it is lost, and counts a mismatch exactly when spoiled. */
  ghost predicate Tracks(s: Store) {
    var walk := ReplayWalk(s.ledger, s.objects);
    && walk.root == (if Lost(s.ledger) then None else s.current)
    && (walk.mismatches == 0 <==> !Spoiled(s.ledger))
  }

  lemma {:induction false} StepTracks(s: Store, t: Store, event: Event, c: Crypto)
    requires Inv(s, c) && s.current.Some? && Tracks(s) && Stepped(s, t, event, c)
    ensures Tracks(t)
  {
    hide LedgerCheck, Keyed, Ready;
    var e := NewEntry(s.ledger, event, c);
    assert t.ledger[..|s.ledger|] == s.ledger && t.ledger[|s.ledger|] == e;
    forall e | e in s.ledger && e.payload.event.FsWrite?
      ensures e.payload.event.content in s.objects && e.payload.event.content in t.objects
    {
      assert EventKnown(e.payload.event, s);
    }
    WalkIgnoresMore(s.ledger, s.objects, t.objects);
    WalkAppend(s.ledger, e, t.objects);
    StepLost(s.ledger, e);
  }

  lemma WalkAppend(ledger: seq<Entry>, e: Entry, objects: map<string, Bytes>)
    ensures ReplayWalk(ledger + [e], objects) == WalkStep(ReplayWalk(ledger, objects), e.payload.event, objects)
  {
    assert (ledger + [e])[..|ledger|] == ledger;
  }

  lemma StepLost(ledger: seq<Entry>, e: Entry)
    ensures Lost(ledger + [e])
       <==> BlockedRollback(e.payload.event) || (!Restores(e.payload.event) && !e.payload.event.FsWrite? && Lost(ledger))
    ensures Spoiled(ledger + [e]) <==> Spoiled(ledger) || (e.payload.event.FsWrite? && Lost(ledger))
  {
    assert (ledger + [e])[..|ledger|] == ledger;
  }

  lemma BootTracks(c: Crypto)
    ensures Tracks(Boot(FRESH, c)) && Boot(FRESH, c).current.Some?
  {
    hide NewEntry;
    var o := Opened(FRESH, c);
    var e := NewEntry([], TrustedBoot(o.current.value), c);
    assert Boot(FRESH, c).ledger == [] + [e] && e.payload.event == TrustedBoot(o.current.value) by { EventOf([], TrustedBoot(o.current.value), c); }
    WalkAppend([], e, o.objects);
    StepLost([], e);
  }

  lemma EventOf(ledger: seq<Entry>, event: Event, c: Crypto)
    ensures NewEntry(ledger, event, c).payload.event == event
  {
  }

  lemma {:induction false} RunTracks(ops: seq<Op>, c: Crypto)
    requires ops != [] && ops[0].DoBoot?
    ensures Tracks(After(ops, c)) && After(ops, c).current.Some?
  {
    hide Perform, Stepped, Ready, Tracks, Inv, Boot;
    if |ops| == 1 {
      BootTracks(c);
      OneBoot(ops, c);
    } else {
      var s := After(ops[..|ops| - 1], c);
      RunTracks(ops[..|ops| - 1], c);
      RunKeepsInv(ops[..|ops| - 1], c);
      InvParts(s, c);
      var event := PerformSteps(s, ops[|ops| - 1], c);
      if event.Some? {
        StepTracks(s, After(ops, c), event.value, c);
        SteppedCurrent(s, After(ops, c), event.value, c);
      }
    }
  }

  lemma SteppedCurrent(s: Store, t: Store, event: Event, c: Crypto)
    requires Stepped(s, t, event, c)
    ensures t.current.Some?
  {
  }

  lemma OneBoot(ops: seq<Op>, c: Crypto)
    requires |ops| == 1 && ops[0].DoBoot?
    ensures After(ops, c) == Boot(FRESH, c)
  {
    assert ops[..0] == [];
  }

  /**
   Session replay after a boot: it verifies exactly when every blocked rollback in the ledger is followed by a
   boot or a completed rollback before any write. In particular any run without blocked rollbacks replays to
   the current root.
   */
  lemma ReplayExact(ops: seq<Op>, c: Crypto)
    requires Proper(c) && ops != [] && ops[0].DoBoot?
    ensures ReplayVerifies(After(ops, c), c) <==> Healed(After(ops, c).ledger)
  {
    hide After, LedgerCheck, ReplayWalk, Healed, Lost, Spoiled;
    LedgerAlwaysVerifies(ops, c);
    RunTracks(ops, c);
    HealedMeans(After(ops, c).ledger);
  }

  lemma OneMoreOp(ops: seq<Op>, op: Op, c: Crypto)
    ensures After(ops + [op], c) == Perform(After(ops, c), op, c)
  {
    hide Perform;
    assert (ops + [op])[..|ops|] == ops;
  }

  lemma RollbackToReplay(s: Store, c: Crypto)
    requires Ready(s) && |s.ledger| == 1
    ensures var t := Perform(Replay(s, c), DoRollback(Number(2)), c);
            |t.ledger| == 3 && BlockedRollback(t.ledger[2].payload.event)
  {
    hide LedgerCheck, ReplayWalk, ReplayVerifies, Ready;
  }

  /** A blocked rollback alone makes replay fail: replay, roll back to the replay receipt, replay again. */
  lemma BlockedRollbackBreaksReplay(c: Crypto)
    requires Proper(c)
    ensures !ReplayVerifies(After([DoBoot, DoReplay, DoRollback(Number(2))], c), c)
  {
    hide After, Replay, Boot, Proper, ReplayVerifies, Perform;
    var ops := [DoBoot, DoReplay, DoRollback(Number(2))];
    var booted := Boot(FRESH, c);
    OneBoot([DoBoot], c);
    OneMoreOp([DoBoot], DoReplay, c);
    OneMoreOp([DoBoot] + [DoReplay], DoRollback(Number(2)), c);
    assert ops == [DoBoot] + [DoReplay] + [DoRollback(Number(2))];
    assert |booted.ledger| == 1 by { BootRecords(c); }
    assert Perform(booted, DoReplay, c) == Replay(booted, c) by { ReplayPerformed(booted, c); }
    RollbackToReplay(booted, c);
    assert !MadeGood(After(ops, c).ledger, 2);
    ReplayExact(ops, c);
  }

  lemma BootRecords(c: Crypto)
    ensures |Boot(FRESH, c).ledger| == 1
  {
  }

  lemma ReplayPerformed(s: Store, c: Crypto)
    requires Ready(s)
    ensures Perform(s, DoReplay, c) == Replay(s, c)
  {
  }

  // ------------------------------------------------- rollback

  /** The manifests that were ever current. */
  function Saved(ops: seq<Op>, c: Crypto): set<Files> {
    {map[]}
    + (if After(ops, c).current.Some? then {FilesOf(After(ops, c))} else {})
    + (if ops == [] then {} else Saved(ops[..|ops| - 1], c))
  }

  ghost predicate ManifestsApart(files: set<Files>, c: Crypto) {
    forall f, g :: f in files && g in files && c.manifestHash(f) == c.manifestHash(g) ==> f == g
  }

  /** Everything in the state directory was saved at some time. */
  ghost predicate Filed(s: Store, files: set<Files>) {
    forall r :: r in s.states ==> s.states[r] in files
  }

  /** One operation saves at most the empty manifest and the new current one. */
  lemma PerformSaves(s: Store, op: Op, c: Crypto)
    requires Ready(s)
    ensures var t := Perform(s, op, c);
            forall r :: r in t.states ==>
              || (r in s.states && t.states[r] == s.states[r])
              || t.states[r] == map[]
              || (t.current.Some? && t.states[r] == FilesOf(t))
  {
    hide LedgerCheck, ReplayWalk, ReplayVerifies, NewEntry, ReadEntry;
  }

  lemma {:induction false} AllFiled(ops: seq<Op>, c: Crypto)
    ensures Filed(After(ops, c), Saved(ops, c))
  {
    hide Perform, Ready;
    if ops != [] {
      var (s, t) := (After(ops[..|ops| - 1], c), After(ops, c));
      AllFiled(ops[..|ops| - 1], c);
      PerformSaves(s, ops[|ops| - 1], c);
    }
  }

  /** Without collisions, what a root stands for never changes. */
  ghost predicate Persists(s: Store, t: Store) {
    && (forall r :: r in s.states ==> r in t.states && t.states[r] == s.states[r])
    && (forall o :: o in s.objects ==> o in t.objects && t.objects[o] == s.objects[o])
    && s.ledger <= t.ledger
  }

  lemma StepPersists(s: Store, t: Store, event: Event, files: set<Files>, c: Crypto)
    requires Keyed(s, c) && Stepped(s, t, event, c) && ManifestsApart(files, c) && Filed(s, files) && Filed(t, files)
    ensures Persists(s, t)
  {
    hide NewEntry;
    forall r | r in s.states
      ensures r in t.states && t.states[r] == s.states[r]
    {
      assert c.manifestHash(t.states[r]) == r == c.manifestHash(s.states[r]);
    }
  }

  lemma {:induction false} SavedGrows(ops: seq<Op>, k: nat, c: Crypto)
    requires k <= |ops|
    ensures Saved(ops[..k], c) <= Saved(ops, c)
  {
    hide After, Ready;
    if k == |ops| {
      assert ops[..k] == ops;
    } else {
      SavedGrows(ops[..|ops| - 1], k, c);
      assert ops[..|ops| - 1][..k] == ops[..k];
    }
  }

  lemma FiledInMore(s: Store, files: set<Files>, more: set<Files>)
    requires Filed(s, files) && files <= more
    ensures Filed(s, more)
  {
  }

  lemma PersistsOn(s: Store, t: Store, u: Store)
    requires Persists(s, t) && Persists(t, u)
    ensures Persists(s, u)
  {
  }

  lemma PersistsHere(s: Store)
    ensures Persists(s, s)
  {
  }

  /** The n operations after the first k keep everything that was stored. */
  lemma {:induction false} RunPersists(ops: seq<Op>, k: nat, n: nat, c: Crypto)
    requires k <= n <= |ops| && ManifestsApart(Saved(ops, c), c)
    ensures Persists(After(ops[..k], c), After(ops[..n], c))
  {
    hide Perform, Ready, Persists, Stepped, Keyed, Known, Saved, ManifestsApart, Filed, Inv;
    if k == n {
      PersistsHere(After(ops[..k], c));
    } else {
      var (s, t) := (After(ops[..n - 1], c), After(ops[..n], c));
      RunPersists(ops, k, n - 1, c);
      assert ops[..n][..n - 1] == ops[..n - 1];
      RunKeepsInv(ops[..n - 1], c);
      InvParts(s, c);
      var event := PerformSteps(s, ops[n - 1], c);
      if event.Some? {
        AllFiled(ops[..n - 1], c);
        SavedGrows(ops, n - 1, c);
        FiledInMore(s, Saved(ops[..n - 1], c), Saved(ops, c));
        AllFiled(ops[..n], c);
        SavedGrows(ops, n, c);
        FiledInMore(t, Saved(ops[..n], c), Saved(ops, c));
        StepPersists(s, t, event.value, Saved(ops, c), c);
        PersistsOn(After(ops[..k], c), s, t);
      }
    }
  }

  ghost predicate SameFiles(s: Store, t: Store)
    requires Ready(s) && Ready(t) && s.current.Some? && t.current.Some?
  {
    FilesOf(s) == FilesOf(t) && forall path :: ContentOf(s, path) == ContentOf(t, path)
  }

  /** The entry of number n says which root was current right after it, if it says anything. */
  lemma HeadTarget(s: Store, c: Crypto)
    requires Inv(s, c) && s.ledger != [] && TargetRoot(s.ledger[|s.ledger| - 1].payload.event).Some?
    ensures s.current == TargetRoot(s.ledger[|s.ledger| - 1].payload.event) && s.current.value in s.states
  {
  }

  lemma RestoredFiles(s: Store, t: Store, e: Entry, c: Crypto)
    requires Ready(s) && Ready(t) && Persists(s, t)
    requires s.current.Some? && t.current.Some? && TargetRoot(e.payload.event) == s.current
    ensures var u := Rollback(t, e, c); u.current == s.current && SameFiles(s, u)
  {
    hide NewEntry;
    var u := Rollback(t, e, c);
    assert u.states[s.current.value] == s.states[s.current.value];
    forall path
      ensures ContentOf(s, path) == ContentOf(u, path)
    {
      if path in FilesOf(s) {
        assert Backed(FilesOf(s), s.objects);
      }
    }
  }

  /**
   Rolling back to an entry, at any later time, brings back the files and contents that held right after it:
   after the first k operations the ledger had n entries, and a rollback to number n after all operations gives
   the same file map and the same bytes for every path. Only manifests must not collide.
   */
  lemma RollbackRestores(ops: seq<Op>, k: nat, c: Crypto)
    requires k <= |ops| && ManifestsApart(Saved(ops, c), c)
    requires var ledger := After(ops[..k], c).ledger;
             ledger != [] && TargetRoot(ledger[|ledger| - 1].payload.event).Some?
    ensures var s := After(ops[..k], c);
            var t := After(ops + [DoRollback(Number(|s.ledger|))], c);
            && s.current.Some? && t.current.Some? && SameFiles(s, t)
            && t.ledger != [] && t.ledger[|t.ledger| - 1].payload.event.RolledBack? && t.ledger[|t.ledger| - 1].payload.event.completed
  {
    hide After, Ready, Persists, Keyed, Known, Saved, ManifestsApart, Inv, SameFiles, FilesOf;
    var (s, t) := (After(ops[..k], c), After(ops, c));
    var e := s.ledger[|s.ledger| - 1];
    RunKeepsInv(ops[..k], c);
    HeadTarget(s, c);
    RunPersists(ops, k, |ops|, c);
    assert ops[..|ops|] == ops;
    OneMoreOp(ops, DoRollback(Number(|s.ledger|)), c);
    PersistsKnows(s, t);
    RunKeepsInv(ops, c);
    HasCurrent(t, c);
    RestoredFiles(s, t, e, c);
    RollbackCompletes(t, e, c);
  }

  lemma HasCurrent(s: Store, c: Crypto)
    requires Inv(s, c) && s.ledger != []
    ensures s.current.Some?
  {
  }

  lemma PersistsKnows(s: Store, t: Store)
    requires Persists(s, t) && s.ledger != []
    ensures t.ledger != []
    ensures ReadEntry(t.ledger, Number(|s.ledger|)) == Some(s.ledger[|s.ledger| - 1])
    ensures forall r :: r in s.states ==> r in t.states
  {
  }

  /** A rollback is completed exactly when its entry names a saved root. */
  lemma RollbackCompletes(t: Store, e: Entry, c: Crypto)
    requires Ready(t)
    ensures var u := Rollback(t, e, c);
            var target := TargetRoot(e.payload.event);
            && |u.ledger| == |t.ledger| + 1 && u.ledger[|t.ledger|].payload.event.RolledBack?
            && (u.ledger[|t.ledger|].payload.event.completed <==> target.Some? && target.value in t.states)
  {
  }

  /** In a run, a rollback is blocked exactly when it goes to a replay receipt or to a blocked rollback. */
  lemma BlockedExactly(ops: seq<Op>, e: Entry, c: Crypto)
    requires e in After(ops, c).ledger
    ensures var u := Rollback(After(ops, c), e, c);
            BlockedRollback(u.ledger[|u.ledger| - 1].payload.event)
            <==> e.payload.event.Replayed? || (e.payload.event.RolledBack? && e.payload.event.target.None?)
  {
    hide After, Ready, Keyed, AtHead;
    RunKeepsInv(ops, c);
    RollbackCompletes(After(ops, c), e, c);
    assert EventKnown(e.payload.event, After(ops, c));
  }

  /** What was written is read back, if no other object has its digest. */
  lemma WriteThenRead(s: Store, path: string, data: Bytes, capability: string, c: Crypto)
    requires Ready(s)
    requires c.sha(data) in s.objects ==> s.objects[c.sha(data)] == data
    ensures var t := Write(s, path, data, capability, c);
            t.current.Some? && ContentOf(t, path) == Some(data)
  {
    hide NewEntry;
  }
}
