/**
 Whole runs of the virtual machine: the program counter only moves forward, so a run is a fold of `Step`
 over the instruction stream. What every run keeps, and what must have happened before an acceptance.
 */
module Runs {
  import opened Wrappers
  import opened Sorting
  import opened Containers
  import opened Instructions
  import opened Machine

  // ------------------------------------------------- what one step keeps

  ghost predicate StrictlySorted(ids: seq<nat>) {
    forall i, j :: 0 <= i < j < |ids| ==> ids[i] < ids[j]
  }

  /** The invariant of the machine: adjacency lists name known edges, result lists are sorted without repeats. */
  ghost predicate Sound(s: State) {
    EdgesListed(s.graph) && SoundClaims(s.claims) && SoundData(s.data)
  }

  ghost predicate SoundClaims(c: Claims) {
    StrictlySorted(c.accepted) && StrictlySorted(c.rejected) && StrictlySorted(c.quarantined)
  }

  ghost predicate SoundData(d: Data) {
    StrictlySorted(d.accepted) && StrictlySorted(d.rejected)
  }

  lemma NatLeIsTotalOrder()
    ensures TotalOrder(NatLe)
  {
  }

  lemma AddSortedElements(ids: seq<nat>, id: nat)
    ensures forall x :: x in AddSorted(ids, id) <==> x in ids || x == id
  {
    SameElements(AddSorted(ids, id), ids + [id]);
  }

  lemma {:induction false} SortedOfStrict(ids: seq<nat>, id: nat)
    requires StrictlySorted(ids) && id !in ids
    ensures StrictlySorted(AddSorted(ids, id))
  {
    hide Sort;
    var r := AddSorted(ids, id);
    NatLeIsTotalOrder();
    SortSorted(ids + [id], NatLe);
    forall i, j | 0 <= i < j < |r|
      ensures r[i] < r[j]
    {
      assert NatLe(r[i], r[j]);
      if r[i] == r[j] {
        CountsOnce(ids, id, r[i]);
        TwiceCounted(r, i, j);
      }
    }
  }

  lemma CountsOnce(ids: seq<nat>, id: nat, x: nat)
    requires StrictlySorted(ids) && id !in ids
    ensures multiset(ids + [id])[x] <= 1
  {
    assert NoRepeats(ids);
    OnceEach(ids, x);
  }

  lemma TwiceCounted(r: seq<nat>, i: nat, j: nat)
    requires i < j < |r| && r[i] == r[j]
    ensures multiset(r)[r[i]] >= 2
  {
    assert r == r[..j] + [r[j]] + r[j + 1..];
    assert r[i] in r[..j];
  }

  lemma RegisterKeepsOrder(ids: seq<nat>, id: nat)
    requires StrictlySorted(ids)
    ensures StrictlySorted(Register(ids, id))
    ensures forall x :: x in Register(ids, id) <==> x in ids || x == id
  {
    hide AddSorted, StrictlySorted;
    if id !in ids {
      SortedOfStrict(ids, id);
      AddSortedElements(ids, id);
    }
  }

  lemma NewEdgeListed(g: Graph, id: nat, edge: Edge)
    requires EdgesListed(g)
    ensures EdgesListed(WithEdge(g, id, edge))
  {
    hide AddSorted;
    AddSortedElements(ListAt(g.adjacencyOut, edge.source), id);
    AddSortedElements(ListAt(g.adjacencyIn, edge.target), id);
  }

  lemma SameEdges(g: Graph, h: Graph)
    requires EdgesListed(g)
    requires h.edges == g.edges && h.adjacencyOut == g.adjacencyOut && h.adjacencyIn == g.adjacencyIn
    ensures EdgesListed(h)
  {
  }

  lemma GraphStep(g: Graph, i: Instruction, op: Op, m: Manifest)
    requires EdgesListed(g) && StepGraph(g, i, op, m).Next?
    ensures EdgesListed(StepGraph(g, i, op, m).state)
  {
    hide WithEdge, Ticks, EdgesListed, Decayed;
    if op.CreateEdge? {
      NewEdgeListed(g, i.target, Edge(i.source, i.param, EdgeKindOf(i.flags).value));
    } else {
      SameEdges(g, StepGraph(g, i, op, m).state);
    }
  }

  lemma ClaimStep(g: Graph, c: Claims, i: Instruction, op: Op, m: Manifest)
    requires EdgesListed(g) && SoundClaims(c) && StepClaim(g, c, i, op, m).Next?
    ensures var t := StepClaim(g, c, i, op, m).state;
            && SoundClaims(t)
            && (forall x :: x in t.accepted && x !in c.accepted ==>
                  op.Accept? && x == i.target && x in c.verdicts && c.verdicts[x] == Verified)
            && (forall x :: x in t.verdicts && t.verdicts[x] == Verified ==>
                  if op.Verify? && x == i.target then x in c.table && VerdictOf(g, c, x) == Verified
                  else x in c.verdicts && c.verdicts[x] == Verified)
  {
    hide Register, VerdictOf, ConflictPressure, EdgesListed, StrictlySorted;
    RegisterKeepsOrder(c.accepted, i.target);
    RegisterKeepsOrder(c.rejected, i.target);
    RegisterKeepsOrder(c.quarantined, i.target);
  }

  lemma DataStep(d: Data, i: Instruction, op: Op, m: Manifest, sha: Sha)
    requires SoundData(d) && StepData(d, i, op, m, sha).Next?
    ensures var t := StepData(d, i, op, m, sha).state;
            && SoundData(t)
            && (forall x :: x in t.accepted && x !in d.accepted ==>
                  op.AcceptData? && x == i.target && x in d.hashVerified && d.hashVerified[x])
            && (forall x :: x in t.hashVerified && t.hashVerified[x] ==>
                  if op.VerifyHash? && x == i.target then
                    x in d.blocks && i.source in m.constants && sha(d.blocks[x].bytes) == m.constants[i.source]
                  else x in d.hashVerified && d.hashVerified[x])
  {
    hide Register, Sort, PatchAll, BasisOf, StrictlySorted;
    RegisterKeepsOrder(d.accepted, i.target);
    RegisterKeepsOrder(d.rejected, i.target);
  }

  lemma StepKeepsEdges(s: State, i: Instruction, m: Manifest, sha: Sha)
    requires EdgesListed(s.graph) && Step(s, i, m, sha).Next?
    ensures EdgesListed(Step(s, i, m, sha).state.graph)
  {
    hide StepGraph, StepClaim, StepData, EdgesListed, IsDataOp, IsClaimOp;
    var op := i.Name().value;
    if !op.EmitReceipt? && !IsDataOp(op) && !IsClaimOp(op) {
      GraphStep(s.graph, i, op, m);
    }
  }

  lemma StepKeepsSound(s: State, i: Instruction, m: Manifest, sha: Sha)
    requires Sound(s) && Step(s, i, m, sha).Next?
    ensures Sound(Step(s, i, m, sha).state)
  {
    hide StepGraph, StepData, StepClaim, EdgesListed, SoundClaims, SoundData, IsDataOp, IsClaimOp;
    StepKeepsEdges(s, i, m, sha);
    var op := i.Name().value;
    if !op.EmitReceipt? && IsDataOp(op) {
      DataStep(s.data, i, op, m, sha);
    } else if !op.EmitReceipt? && IsClaimOp(op) {
      ClaimStep(s.graph, s.claims, i, op, m);
    }
  }

  // ------------------------------------------------- runs

  datatype Final = Completed(state: State) | Stopped(state: State, reason: BlockReason) | Failed

  ghost function Run(code: seq<Instruction>, s: State, m: Manifest, sha: Sha): Final
    requires EdgesListed(s.graph)
  {
    if code == [] then Stopped(s, EndedWithoutHalt)
    else if code[0].Name() == Some(Halt) then Completed(s)
    else match Step(s, code[0], m, sha)
      case Blocked(reason) => Stopped(s, reason)
      case KeyMissing => Failed
      case Next(t) =>
        StepKeepsEdges(s, code[0], m, sha);
        Run(code[1..], t, m, sha)
  }

  /** The state after the first k instructions, if the machine gets that far. */
  ghost function After(code: seq<Instruction>, k: nat, m: Manifest, sha: Sha): (r: Option<State>)
    requires k <= |code|
    ensures r.Some? ==> Sound(r.value)
  {
    if k == 0 then Some(INITIAL)
    else match After(code, k - 1, m, sha)
      case None => None
      case Some(s) =>
        if code[k - 1].Name() == Some(Halt) then None
        else match Step(s, code[k - 1], m, sha)
          case Next(t) => StepKeepsSound(s, code[k - 1], m, sha); Some(t)
          case _ => None
  }

  /** A run from the initial state ends in the state after some number of executed instructions. */
  lemma {:induction false} RunEndsAfter(code: seq<Instruction>, k: nat, m: Manifest, sha: Sha) returns (n: nat)
    requires k <= |code| && After(code, k, m, sha).Some?
    requires !Run(code[k..], After(code, k, m, sha).value, m, sha).Failed?
    ensures k <= n <= |code|
    ensures After(code, n, m, sha) == Some(Run(code[k..], After(code, k, m, sha).value, m, sha).state)
    decreases |code| - k
  {
    hide Step, EdgesListed;
    n := k;
    var s := After(code, k, m, sha).value;
    if k < |code| && code[k].Name() != Some(Halt) && Step(s, code[k], m, sha).Next? {
      assert code[k..][0] == code[k] && code[k..][1..] == code[k + 1..];
      n := RunEndsAfter(code, k + 1, m, sha);
    }
  }

  // ------------------------------------------------- the acceptance gates

  predicate Is(i: Instruction, op: Op, id: nat) {
    i.Name() == Some(op) && i.target == id
  }

  /** Instruction i is the latest VERIFY_HASH of block d before instruction k, and its hash matched. */
  ghost predicate HashedAt(code: seq<Instruction>, i: nat, k: nat, d: nat, m: Manifest, sha: Sha) {
    && i < k <= |code| && Is(code[i], VerifyHash, d)
    && (forall j :: i < j < k ==> !Is(code[j], VerifyHash, d))
    && After(code, i, m, sha).Some?
    && (var s := After(code, i, m, sha).value;
        d in s.data.blocks && code[i].source in m.constants && sha(s.data.blocks[d].bytes) == m.constants[code[i].source])
  }

  /** Instruction i is the latest VERIFY of claim c before instruction k, and it returned verified. */
  ghost predicate VerifiedAt(code: seq<Instruction>, i: nat, k: nat, c: nat, m: Manifest, sha: Sha) {
    && i < k <= |code| && Is(code[i], Verify, c)
    && (forall j :: i < j < k ==> !Is(code[j], Verify, c))
    && After(code, i, m, sha).Some?
    && (var s := After(code, i, m, sha).value;
        c in s.claims.table && VerdictOf(s.graph, s.claims, c) == Verified)
  }

  /** How one step changes the two gates. */
  lemma StepGates(s: State, i: Instruction, m: Manifest, sha: Sha)
    requires Sound(s) && Step(s, i, m, sha).Next?
    ensures var t := Step(s, i, m, sha).state;
            && (forall d :: d in t.data.accepted && d !in s.data.accepted ==>
                  Is(i, AcceptData, d) && d in s.data.hashVerified && s.data.hashVerified[d])
            && (forall d :: d in t.data.hashVerified && t.data.hashVerified[d] ==>
                  if Is(i, VerifyHash, d) then
                    d in s.data.blocks && i.source in m.constants && sha(s.data.blocks[d].bytes) == m.constants[i.source]
                  else d in s.data.hashVerified && s.data.hashVerified[d])
            && (forall c :: c in t.claims.accepted && c !in s.claims.accepted ==>
                  Is(i, Accept, c) && c in s.claims.verdicts && s.claims.verdicts[c] == Verified)
            && (forall c :: c in t.claims.verdicts && t.claims.verdicts[c] == Verified ==>
                  if Is(i, Verify, c) then c in s.claims.table && VerdictOf(s.graph, s.claims, c) == Verified
                  else c in s.claims.verdicts && s.claims.verdicts[c] == Verified)
  {
    hide StepGraph, StepData, StepClaim, EdgesListed, SoundClaims, SoundData, VerdictOf;
    var op := i.Name().value;
    if IsDataOp(op) {
      DataStep(s.data, i, op, m, sha);
    } else if IsClaimOp(op) {
      ClaimStep(s.graph, s.claims, i, op, m);
    }
  }

  lemma {:induction false} HashGate(code: seq<Instruction>, k: nat, d: nat, m: Manifest, sha: Sha) returns (i: nat)
    requires k <= |code| && After(code, k, m, sha).Some?
    requires var t := After(code, k, m, sha).value; d in t.data.hashVerified && t.data.hashVerified[d]
    ensures HashedAt(code, i, k, d, m, sha)
  {
    hide Step, Sound, EdgesListed;
    var s := After(code, k - 1, m, sha).value;
    StepGates(s, code[k - 1], m, sha);
    if Is(code[k - 1], VerifyHash, d) {
      i := k - 1;
    } else {
      i := HashGate(code, k - 1, d, m, sha);
    }
  }

  lemma {:induction false} VerdictGate(code: seq<Instruction>, k: nat, c: nat, m: Manifest, sha: Sha) returns (i: nat)
    requires k <= |code| && After(code, k, m, sha).Some?
    requires var t := After(code, k, m, sha).value; c in t.claims.verdicts && t.claims.verdicts[c] == Verified
    ensures VerifiedAt(code, i, k, c, m, sha)
  {
    hide Step, Sound, EdgesListed, VerdictOf;
    var s := After(code, k - 1, m, sha).value;
    StepGates(s, code[k - 1], m, sha);
    if Is(code[k - 1], Verify, c) {
      i := k - 1;
    } else {
      i := VerdictGate(code, k - 1, c, m, sha);
    }
  }

  /**
   No data block is accepted without proof: in every run of any instruction stream, each accepted block was
   accepted by an ACCEPT_DATA whose latest earlier VERIFY_HASH found the bytes of that moment to hash to the
   constant it names.
   */
  lemma {:induction false} DataGate(code: seq<Instruction>, k: nat, d: nat, m: Manifest, sha: Sha) returns (i: nat, j: nat)
    requires k <= |code| && After(code, k, m, sha).Some?
    requires d in After(code, k, m, sha).value.data.accepted
    ensures DataAcceptance(code, i, j, k, d, m, sha)
  {
    hide Step, Sound, EdgesListed, HashedAt;
    var s := After(code, k - 1, m, sha).value;
    StepGates(s, code[k - 1], m, sha);
    if d in s.data.accepted {
      i, j := DataGate(code, k - 1, d, m, sha);
    } else {
      j := k - 1;
      i := HashGate(code, k - 1, d, m, sha);
    }
  }

  /** No claim is accepted without a latest VERIFY that returned verified. */
  lemma {:induction false} ClaimGate(code: seq<Instruction>, k: nat, c: nat, m: Manifest, sha: Sha) returns (i: nat, j: nat)
    requires k <= |code| && After(code, k, m, sha).Some?
    requires c in After(code, k, m, sha).value.claims.accepted
    ensures ClaimAcceptance(code, i, j, k, c, m, sha)
  {
    hide Step, Sound, EdgesListed, VerifiedAt;
    var s := After(code, k - 1, m, sha).value;
    StepGates(s, code[k - 1], m, sha);
    if c in s.claims.accepted {
      i, j := ClaimGate(code, k - 1, c, m, sha);
    } else {
      j := k - 1;
      i := VerdictGate(code, k - 1, c, m, sha);
    }
  }

  ghost predicate DataAcceptance(code: seq<Instruction>, i: nat, j: nat, n: nat, d: nat, m: Manifest, sha: Sha) {
    j < n <= |code| && Is(code[j], AcceptData, d) && HashedAt(code, i, j, d, m, sha)
  }

  ghost predicate ClaimAcceptance(code: seq<Instruction>, i: nat, j: nat, n: nat, c: nat, m: Manifest, sha: Sha) {
    j < n <= |code| && Is(code[j], Accept, c) && VerifiedAt(code, i, j, c, m, sha)
  }

  /**
   The gates for whole runs, completed or blocked: whatever the final state accepts went through its gate,
   and its result lists are sorted and free of repeats.
   */
  lemma RunsAreGated(code: seq<Instruction>, m: Manifest, sha: Sha) returns (n: nat)
    requires !Run(code, INITIAL, m, sha).Failed?
    ensures n <= |code| && After(code, n, m, sha) == Some(Run(code, INITIAL, m, sha).state)
    ensures Sound(Run(code, INITIAL, m, sha).state)
    ensures forall d :: d in Run(code, INITIAL, m, sha).state.data.accepted ==>
              exists i, j :: DataAcceptance(code, i, j, n, d, m, sha)
    ensures forall c :: c in Run(code, INITIAL, m, sha).state.claims.accepted ==>
              exists i, j :: ClaimAcceptance(code, i, j, n, c, m, sha)
  {
    hide Step, Sound, HashedAt, VerifiedAt, Is, Run;
    assert code[0..] == code;
    n := RunEndsAfter(code, 0, m, sha);
    var t := Run(code, INITIAL, m, sha).state;
    forall d | d in t.data.accepted
      ensures exists i, j :: DataAcceptance(code, i, j, n, d, m, sha)
    {
      var i, j := DataGate(code, n, d, m, sha);
      assert DataAcceptance(code, i, j, n, d, m, sha);
    }
    forall c | c in t.claims.accepted
      ensures exists i, j :: ClaimAcceptance(code, i, j, n, c, m, sha)
    {
      var i, j := ClaimGate(code, n, c, m, sha);
      assert ClaimAcceptance(code, i, j, n, c, m, sha);
    }
  }
}
