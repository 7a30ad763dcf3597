/**
 What an acceptance says about the bytes of a block. VERIFY_HASH results are kept when the bytes change later,
 so the accepted bytes are the verified ones exactly as long as nothing rewrites the block in between.
 */
module VerifiedBytes {
  import opened Wrappers
  import opened Sorting
  import opened ByteStrings
  import opened Bases
  import opened Optimizer
  import opened Containers
  import opened Instructions
  import opened Machine
  import opened Runs

  /** The instructions that set the bytes of block d; a LOAD_COEFFICIENTS does unless its coefficients are refused. */
  predicate Rewrites(i: Instruction, d: nat) {
    i.target == d
    && (i.Name() == Some(Synthesize) || i.Name() == Some(ApplyResidual)
        || (i.Name() == Some(LoadCoefficients) && i.source <= 255 && i.flags <= 255))
  }

  /** Block d has these bytes. */
  predicate Holds(s: State, d: nat, bytes: Bytes) {
    d in s.data.blocks && s.data.blocks[d].bytes == bytes
  }

  lemma DataKeepsBytes(t: Data, i: Instruction, op: Op, m: Manifest, sha: Sha, d: nat)
    requires i.Name() == Some(op) && IsDataOp(op) && !Rewrites(i, d) && d in t.blocks && StepData(t, i, op, m, sha).Next?
    ensures var u := StepData(t, i, op, m, sha).state; d in u.blocks && u.blocks[d].bytes == t.blocks[d].bytes
  {
    hide PatchAll, Register, Sort, BasisOf;
  }

  lemma StepKeepsBytes(s: State, i: Instruction, m: Manifest, sha: Sha, d: nat)
    requires EdgesListed(s.graph) && !Rewrites(i, d) && d in s.data.blocks && Step(s, i, m, sha).Next?
    ensures Holds(Step(s, i, m, sha).state, d, s.data.blocks[d].bytes)
  {
    hide StepGraph, StepClaim, StepData, EdgesListed, IsDataOp, IsClaimOp, Rewrites;
    var op := i.Name().value;
    if IsDataOp(op) && !op.EmitReceipt? {
      DataKeepsBytes(s.data, i, op, m, sha, d);
    }
  }

  // ------------------------------------------------- which code keeps the bytes

  /** The state after running from position i of the code, with the machine in state s, to position j. */
  ghost function Through(code: seq<Instruction>, i: nat, j: nat, s: State, m: Manifest, sha: Sha): Option<State>
    requires i <= j <= |code| && EdgesListed(s.graph)
    decreases j - i
  {
    if i == j then Some(s)
    else if code[i].Name() == Some(Halt) then None
    else match Step(s, code[i], m, sha)
      case Next(t) => StepKeepsEdges(s, code[i], m, sha); Through(code, i + 1, j, t, m, sha)
      case _ => None
  }

  /** From every state at every position, with every manifest and digest function, the code keeps the bytes of d. */
  ghost predicate KeepsBytes(code: seq<Instruction>, d: nat) {
    forall i: nat, j: nat, s: State, m: Manifest, sha: Sha ::
      i <= j <= |code| && EdgesListed(s.graph) && d in s.data.blocks && Through(code, i, j, s, m, sha).Some? ==>
        Holds(Through(code, i, j, s, m, sha).value, d, s.data.blocks[d].bytes)
  }

  /** A state with one block: two bytes, of which the second is to be patched, over a repeated 0. */
  function OneBlock(d: nat): State {
    INITIAL.(data := INITIAL.data.(blocks := map[d := Block(Some(RepeatByte), 0, 0, 1, [1, 1], [Patch(1, 2)])]))
  }

  function Naming(d: nat): Manifest {
    Manifest(map[], map[], map[d := "d"], map[])
  }

  lemma OneBlockListed(d: nat)
    ensures EdgesListed(OneBlock(d).graph)
  {
  }

  /** Every rewriting instruction does change the bytes of a state with one block. */
  lemma RewriteChanges(i: Instruction, d: nat, sha: Sha)
    requires Rewrites(i, d)
    ensures EdgesListed(OneBlock(d).graph)
    ensures var r := Step(OneBlock(d), i, Naming(d), sha); r.Next? && !Holds(r.state, d, [1, 1])
  {
    OneBlockListed(d);
    PatchedOnce();
    hide PatchAll, EdgesListed;
  }

  lemma PatchedOnce()
    ensures PatchAll([1, 1], [Patch(1, 2)]) == Some([1, 2])
  {
    assert [Patch(1, 2)][1..] == [];
    assert [1, 1][1 := 2] == [1, 2];
    assert PatchAll([1, 2], []) == Some([1, 2]);
  }

  lemma {:induction false} ThroughKeeps(code: seq<Instruction>, i: nat, j: nat, s: State, m: Manifest, sha: Sha, d: nat)
    requires i <= j <= |code| && EdgesListed(s.graph) && d in s.data.blocks && Through(code, i, j, s, m, sha).Some?
    requires forall k :: 0 <= k < |code| ==> !Rewrites(code[k], d)
    ensures Holds(Through(code, i, j, s, m, sha).value, d, s.data.blocks[d].bytes)
    decreases j - i
  {
    hide Step, Rewrites, EdgesListed;
    if i < j {
      StepKeepsBytes(s, code[i], m, sha, d);
      StepKeepsEdges(s, code[i], m, sha);
      ThroughKeeps(code, i + 1, j, Step(s, code[i], m, sha).state, m, sha, d);
    }
  }

  lemma RewriteRuns(code: seq<Instruction>, k: nat, d: nat, sha: Sha)
    requires k < |code| && Rewrites(code[k], d)
    ensures EdgesListed(OneBlock(d).graph)
    ensures var r := Through(code, k, k + 1, OneBlock(d), Naming(d), sha); r.Some? && !Holds(r.value, d, [1, 1])
  {
    hide Step, EdgesListed, Holds, OneBlock, Naming;
    RewriteChanges(code[k], d, sha);
    var t := Step(OneBlock(d), code[k], Naming(d), sha).state;
    StepKeepsEdges(OneBlock(d), code[k], Naming(d), sha);
    assert Through(code, k + 1, k + 1, t, Naming(d), sha) == Some(t);
  }

  /** Code keeps the bytes of d from every state exactly when none of its instructions rewrites d. */
  lemma KeepsBytesExactly(code: seq<Instruction>, d: nat)
    ensures KeepsBytes(code, d) <==> forall k :: 0 <= k < |code| ==> !Rewrites(code[k], d)
  {
    hide Step, Rewrites, EdgesListed, Through;
    if k :| 0 <= k < |code| && Rewrites(code[k], d) {
      var sha: Sha := (data: Bytes) => "";
      RewriteRuns(code, k, d, sha);
      var s := OneBlock(d);
      assert d in s.data.blocks && s.data.blocks[d].bytes == [1, 1];
    } else {
      forall i: nat, j: nat, s: State, m: Manifest, sha: Sha |
          i <= j <= |code| && EdgesListed(s.graph) && d in s.data.blocks && Through(code, i, j, s, m, sha).Some?
        ensures Holds(Through(code, i, j, s, m, sha).value, d, s.data.blocks[d].bytes)
      {
        ThroughKeeps(code, i, j, s, m, sha, d);
      }
    }
  }

  // ------------------------------------------------- runs

  /** No instruction from i up to k rewrites d. */
  ghost predicate Untouched(code: seq<Instruction>, i: nat, k: nat, d: nat) {
    forall j :: i <= j < k && j < |code| ==> !Rewrites(code[j], d)
  }

  lemma {:induction false} KeptBetween(code: seq<Instruction>, i: nat, k: nat, d: nat, m: Manifest, sha: Sha)
    requires i <= k <= |code| && After(code, i, m, sha).Some? && After(code, k, m, sha).Some? && Untouched(code, i, k, d)
    requires d in After(code, i, m, sha).value.data.blocks
    ensures Holds(After(code, k, m, sha).value, d, After(code, i, m, sha).value.data.blocks[d].bytes)
    decreases k
  {
    hide Step, Sound, EdgesListed, Rewrites;
    if i < k {
      KeptBetween(code, i, k - 1, d, m, sha);
      var s := After(code, k - 1, m, sha).value;
      SoundEdges(s);
      StepKeepsBytes(s, code[k - 1], m, sha, d);
    }
  }

  lemma SoundEdges(s: State)
    requires Sound(s)
    ensures EdgesListed(s.graph)
  {
  }

  /** The bytes of block d hash to constant c. */
  ghost predicate Matches(s: State, d: nat, c: nat, m: Manifest, sha: Sha) {
    d in s.data.blocks && c in m.constants && sha(s.data.blocks[d].bytes) == m.constants[c]
  }

  lemma MatchesStill(code: seq<Instruction>, i: nat, j: nat, k: nat, d: nat, m: Manifest, sha: Sha)
    requires HashedAt(code, i, j, d, m, sha) && i <= k <= |code| && After(code, k, m, sha).Some? && Untouched(code, i, k, d)
    ensures Matches(After(code, k, m, sha).value, d, code[i].source, m, sha)
  {
    hide Step, After, Rewrites;
    KeptBetween(code, i, k, d, m, sha);
  }

  lemma {:induction false} ReachedBefore(code: seq<Instruction>, k: nat, n: nat, m: Manifest, sha: Sha)
    requires k <= n <= |code| && After(code, n, m, sha).Some?
    ensures After(code, k, m, sha).Some?
    decreases n
  {
    hide Step, Sound, EdgesListed;
    if k < n {
      ReachedBefore(code, k, n - 1, m, sha);
    }
  }

  /**
   An accepted block has the verified bytes as long as nothing rewrites it: if no instruction between its latest
   VERIFY_HASH and its acceptance rewrites it, its bytes at the acceptance hash to the named constant, and if
   none does up to a later point of the run, they still do there.
   */
  lemma AcceptedBytesMatch(code: seq<Instruction>, n: nat, d: nat, m: Manifest, sha: Sha) returns (i: nat, j: nat)
    requires n <= |code| && After(code, n, m, sha).Some? && d in After(code, n, m, sha).value.data.accepted
    ensures DataAcceptance(code, i, j, n, d, m, sha) && After(code, j, m, sha).Some?
    ensures Untouched(code, i, j, d) ==> Matches(After(code, j, m, sha).value, d, code[i].source, m, sha)
    ensures Untouched(code, i, n, d) ==> Matches(After(code, n, m, sha).value, d, code[i].source, m, sha)
  {
    hide Step, After, Sound, HashedAt, Matches, Untouched, Is;
    i, j := DataGate(code, n, d, m, sha);
    ReachedBefore(code, j, n, m, sha);
    GateOrder(code, i, j, d, m, sha);
    if Untouched(code, i, j, d) {
      MatchesStill(code, i, j, j, d, m, sha);
    }
    if Untouched(code, i, n, d) {
      MatchesStill(code, i, j, n, d, m, sha);
    }
  }

  lemma GateOrder(code: seq<Instruction>, i: nat, j: nat, d: nat, m: Manifest, sha: Sha)
    requires HashedAt(code, i, j, d, m, sha)
    ensures i < j
  {
  }

  // ------------------------------------------------- a stale acceptance

  /** LOAD 7 times 1; verify the empty block; synthesize it; accept it. */
  const STALE: seq<Instruction> := [
    Instruction(16, 0, 0, 0, 0), Instruction(17, 0, 0, 7, 1), Instruction(19, 0, 0, 1, 0),
    Instruction(18, 0, 0, 0, 0), Instruction(20, 0, 0, 0, 0), Instruction(1, 0, 0, 0, 0)]

  function StaleManifest(sha: Sha): Manifest {
    Manifest(map[], map[], map[0 := "d"], map[0 := "repeat_byte", 1 := sha([])])
  }

  /** The data part of the machine after the first k instructions of it. */
  function StaleData(k: nat, sha: Sha): Data
    requires k <= 5
  {
    var loaded := Block(Some(RepeatByte), 7, 0, 1, [], []);
    if k == 0 then INITIAL.data
    else if k == 1 then Data(map[], Some(RepeatByte), map[], [], [])
    else if k == 2 then Data(map[0 := loaded], Some(RepeatByte), map[], [], [])
    else if k == 3 then Data(map[0 := loaded], Some(RepeatByte), map[0 := true], [], [])
    else if k == 4 then Data(map[0 := loaded.(bytes := [7])], Some(RepeatByte), map[0 := true], [], [])
    else Data(map[0 := loaded.(bytes := [7])], Some(RepeatByte), map[0 := true], [0], [])
  }

  predicate StepsTo(k: nat, sha: Sha)
    requires k < 5
  {
    && STALE[k].Name().Some? && IsDataOp(STALE[k].Name().value)
    && StepData(StaleData(k, sha), STALE[k], STALE[k].Name().value, StaleManifest(sha), sha) == Next(StaleData(k + 1, sha))
  }

  lemma StaleDeclares(sha: Sha)
    ensures StepsTo(0, sha)
  {
    assert BasisOf("repeat_byte") == Some(RepeatByte);
  }

  lemma StaleLoads(sha: Sha)
    ensures StepsTo(1, sha)
  {
  }

  lemma StaleVerifies(sha: Sha)
    ensures StepsTo(2, sha)
  {
  }

  lemma StaleSynthesizes(sha: Sha)
    ensures StepsTo(3, sha)
  {
    var loaded := Block(Some(RepeatByte), 7, 0, 1, [], []);
    assert SynthesizeBasis(RepeatByte, 7, 1, 0) == [7];
    assert map[0 := loaded][0 := loaded.(bytes := [7])] == map[0 := loaded.(bytes := [7])];
  }

  lemma StaleAccepts(sha: Sha)
    ensures StepsTo(4, sha)
  {
    hide Register;
    FirstOnly();
  }

  lemma StaleStep(k: nat, sha: Sha)
    requires k < 5
    ensures StepsTo(k, sha)
  {
    hide StepsTo;
    StaleDeclares(sha);
    StaleLoads(sha);
    StaleVerifies(sha);
    StaleSynthesizes(sha);
    StaleAccepts(sha);
  }

  lemma FirstOnly()
    ensures Register([], 0) == [0]
  {
    assert [] + [0] == [0];
    assert [0][1..] == [];
  }

  lemma StaleWhole(k: nat, sha: Sha)
    requires k < 5 && EdgesListed(INITIAL.graph)
    ensures STALE[k].Name() != Some(Halt)
    ensures Step(INITIAL.(data := StaleData(k, sha)), STALE[k], StaleManifest(sha), sha) == Next(INITIAL.(data := StaleData(k + 1, sha)))
  {
    hide StepData, StaleData, EdgesListed, StaleManifest;
    StaleStep(k, sha);
  }

  lemma {:induction false} StaleAfter(k: nat, sha: Sha)
    requires k <= 5
    ensures After(STALE, k, StaleManifest(sha), sha) == Some(INITIAL.(data := StaleData(k, sha)))
  {
    hide Step, StaleData, Sound, EdgesListed, StaleManifest;
    InitialEdges();
    if k == 0 {
      StaleStart(sha);
    } else {
      StaleAfter(k - 1, sha);
      StaleWhole(k - 1, sha);
    }
  }

  lemma StaleStart(sha: Sha)
    ensures StaleData(0, sha) == INITIAL.data
  {
  }

  /** The condition is needed: this program completes with a block accepted whose bytes do not match. */
  lemma StaleAcceptance(sha: Sha)
    requires sha([7]) != sha([])
    ensures After(STALE, 5, StaleManifest(sha), sha).Some? && EdgesListed(INITIAL.graph)
    ensures var s := After(STALE, 5, StaleManifest(sha), sha).value;
            && Run(STALE, INITIAL, StaleManifest(sha), sha) == Completed(s)
            && s.data.accepted == [0] && Holds(s, 0, [7]) && !Matches(s, 0, 1, StaleManifest(sha), sha)
  {
    hide Step, After, EdgesListed;
    InitialEdges();
    StaleAfter(5, sha);
    StaleRun(5, sha);
    assert STALE[0..] == STALE;
    StaleRun(0, sha);
    StaleAfter(0, sha);
    StaleStart(sha);
  }

  lemma InitialEdges()
    ensures EdgesListed(INITIAL.graph)
  {
  }

  /** The rest of the program completes with the last of these states. */
  lemma {:induction false} StaleRun(k: nat, sha: Sha)
    requires k <= 5 && EdgesListed(INITIAL.graph)
    ensures Run(STALE[k..], INITIAL.(data := StaleData(k, sha)), StaleManifest(sha), sha)
         == Completed(INITIAL.(data := StaleData(5, sha)))
    decreases 5 - k
  {
    hide Step, StaleData, EdgesListed, StaleManifest;
    assert STALE[k..][0] == STALE[k];
    if k < 5 {
      assert STALE[k..][1..] == STALE[k + 1..];
      StaleWhole(k, sha);
      StaleRun(k + 1, sha);
    }
  }
}
