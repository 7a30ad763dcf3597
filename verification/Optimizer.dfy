/**
 Residual planning (bogvm/optimizer.py): a chunk is written as a generated basis plus the bytes that
 differ from it, and the planner searches for the basis with the fewest differing bytes.
 */
module Optimizer {
  import opened ByteStrings
  import opened Bases

  datatype Patch = Patch(offset: nat, value: byte)

  // ------------------------------------------------- residuals

  /** The patches that turn the first n bytes of `generated` into those of `data`. */
  function Patches(data: Bytes, generated: Bytes, n: nat): (r: seq<Patch>)
    requires n <= |data| && |generated| == |data|
    ensures |r| <= n
  {
    if n == 0 then []
    else
      Patches(data, generated, n - 1)
      + if data[n - 1] != generated[n - 1] then [Patch(n - 1, data[n - 1])] else []
  }

  /** Offsets strictly increase and stay below the chunk length. */
  ghost predicate WellPlaced(residuals: seq<Patch>, length: nat) {
    && (forall k :: 0 <= k < |residuals| ==> residuals[k].offset < length)
    && (forall j, k :: 0 <= j < k < |residuals| ==> residuals[j].offset < residuals[k].offset)
  }

  function ApplyPatches(base: Bytes, residuals: seq<Patch>): (r: Bytes)
    requires WellPlaced(residuals, |base|)
    ensures |r| == |base|
  {
    if residuals == [] then base
    else
      var last := |residuals| - 1;
      assert WellPlaced(residuals[..last], |base|);
      ApplyPatches(base, residuals[..last])[residuals[last].offset := residuals[last].value]
  }

  lemma {:induction false} PatchesWellPlaced(data: Bytes, generated: Bytes, n: nat)
    requires n <= |data| && |generated| == |data|
    ensures WellPlaced(Patches(data, generated, n), n)
  {
    if n > 0 {
      PatchesWellPlaced(data, generated, n - 1);
    }
  }

  lemma Widen(residuals: seq<Patch>, m: nat, n: nat)
    requires WellPlaced(residuals, m) && m <= n
    ensures WellPlaced(residuals, n)
  {
  }

  lemma ApplyLast(base: Bytes, residuals: seq<Patch>, p: Patch)
    requires WellPlaced(residuals, |base|) && WellPlaced(residuals + [p], |base|)
    ensures p.offset < |base|
    ensures ApplyPatches(base, residuals + [p]) == ApplyPatches(base, residuals)[p.offset := p.value]
  {
    assert (residuals + [p])[..|residuals|] == residuals;
    assert (residuals + [p])[|residuals|] == p;
  }

  /** Patching a generated block with its own residuals restores the data. */
  lemma {:induction false} PatchesRestore(data: Bytes, generated: Bytes, n: nat)
    requires n <= |data| && |generated| == |data|
    requires WellPlaced(Patches(data, generated, n), |data|)
    ensures ApplyPatches(generated, Patches(data, generated, n)) == data[..n] + generated[n..]
  {
    hide WellPlaced, ApplyPatches;
    if n == 0 {
      NoPatches(generated);
    } else {
      var before := Patches(data, generated, n - 1);
      PatchesWellPlaced(data, generated, n - 1);
      Widen(before, n - 1, |data|);
      PatchesRestore(data, generated, n - 1);
      if data[n - 1] != generated[n - 1] {
        ApplyLast(generated, before, Patch(n - 1, data[n - 1]));
      } else {
        assert Patches(data, generated, n) == before;
      }
    }
  }

  lemma NoPatches(base: Bytes)
    ensures WellPlaced([], |base|) && ApplyPatches(base, []) == base
  {
  }

  /** The number of differing bytes, which is the number of patches a basis costs. */
  function ResidualCount(data: Bytes, basis: Basis, start: byte, delta: byte): nat {
    |Patches(data, SynthesizeBasis(basis, start, |data|, delta), |data|)|
  }

  // ------------------------------------------------- the candidates

  datatype Candidate = Candidate(basis: Basis, start: byte, delta: byte, residualCount: nat)

  /** How many offsets of `data` suggest `start` as the first byte of a ramp with this step. */
  function StartCount(data: Bytes, delta: byte, start: byte, n: nat): (r: nat)
    requires n <= |data|
    ensures r <= n
  {
    if n == 0 then 0
    else StartCount(data, delta, start, n - 1) + if Suggested(data, delta, n - 1) == start then 1 else 0
  }

  function Suggested(data: Bytes, delta: byte, offset: nat): byte
    requires offset < |data|
  {
    Wrap(data[offset] - offset * delta)
  }

  /** The lowest index of the largest count (`min` by (-count, index)). */
  function ArgMax(counts: seq<nat>): (r: nat)
    requires counts != []
    ensures r < |counts|
    ensures forall i :: 0 <= i < |counts| ==> counts[i] <= counts[r]
    ensures forall i :: 0 <= i < r ==> counts[i] < counts[r]
  {
    if |counts| == 1 then 0
    else
      var r := ArgMax(counts[..|counts| - 1]);
      if counts[|counts| - 1] > counts[r] then |counts| - 1 else r
  }

  function Histogram(data: Bytes, delta: byte, n: nat): (r: seq<nat>)
    requires n <= |data|
    ensures |r| == 256
  {
    seq(256, s requires 0 <= s < 256 => StartCount(data, delta, s, n))
  }

  function BestStart(data: Bytes, delta: byte): byte {
    ArgMax(Histogram(data, delta, |data|))
  }

  function MostCommonByte(data: Bytes): byte {
    if data == [] then 0 else BestStart(data, 0)
  }

  function CoefficientTuples(basis: Basis, data: Bytes): (r: seq<(byte, byte)>)
    ensures r != []
  {
    match basis
    case ZeroBlock => [(0, 0)]
    case DeltaU8 => seq(256, d requires 0 <= d < 256 => (BestStart(data, d), d))
    case DictionaryU8 => [(MostCommonByte(data), 0)]
    case RleU8 => [(MostCommonByte(data), 0)]
    case _ => seq(256, s requires 0 <= s < 256 => (s, 0))
  }

  function ToCandidate(basis: Basis, data: Bytes, coefficients: (byte, byte)): Candidate {
    Candidate(basis, coefficients.0, coefficients.1, ResidualCount(data, basis, coefficients.0, coefficients.1))
  }

  /** The first n candidates of one basis, in search order. */
  function CandidatesOf(basis: Basis, data: Bytes, n: nat): (r: seq<Candidate>)
    requires n <= |CoefficientTuples(basis, data)|
    ensures |r| == n
  {
    seq(n, i requires 0 <= i < n => ToCandidate(basis, data, CoefficientTuples(basis, data)[i]))
  }

  /** The candidates of the first n bases, in search order. */
  function CandidatesUpTo(n: nat, data: Bytes): seq<Candidate>
    requires n <= |BASIS_ORDER|
  {
    if n == 0 then []
    else
      var basis := BASIS_ORDER[n - 1];
      CandidatesUpTo(n - 1, data) + CandidatesOf(basis, data, |CoefficientTuples(basis, data)|)
  }

  /** The key (residual_count, basis_index, coefficient_tuple), compared lexicographically. */
  predicate Better(a: Candidate, b: Candidate) {
    if a.residualCount != b.residualCount then a.residualCount < b.residualCount
    else if BasisIndex(a.basis) != BasisIndex(b.basis) then BasisIndex(a.basis) < BasisIndex(b.basis)
    else if a.start != b.start then a.start < b.start
    else a.delta < b.delta
  }

  function BestOf(candidates: seq<Candidate>): (best: Candidate)
    requires candidates != []
    ensures best in candidates
    ensures forall c :: c in candidates ==> !Better(c, best)
  {
    var last := candidates[|candidates| - 1];
    var rest := candidates[..|candidates| - 1];
    assert candidates == rest + [last];
    if rest == [] then last
    else
      var best := BestOf(rest);
      if Better(last, best) then last else best
  }

  function AllCandidates(data: Bytes): (r: seq<Candidate>)
    ensures r != []
  {
    CandidatesUpTo(|BASIS_ORDER|, data)
  }

  function Best(data: Bytes): Candidate {
    BestOf(AllCandidates(data))
  }

  lemma {:induction false} CandidateListed(n: nat, data: Bytes, basis: Basis, i: nat)
    requires BasisIndex(basis) < n <= |BASIS_ORDER|
    requires i < |CoefficientTuples(basis, data)|
    ensures ToCandidate(basis, data, CoefficientTuples(basis, data)[i]) in CandidatesUpTo(n, data)
  {
    hide CoefficientTuples, ToCandidate;
    if BasisIndex(basis) == n - 1 {
      var all := CandidatesOf(basis, data, |CoefficientTuples(basis, data)|);
      assert all[i] in all;
    } else {
      CandidateListed(n - 1, data, basis, i);
    }
  }

  lemma {:induction false} CandidateShape(n: nat, data: Bytes, c: Candidate)
    requires n <= |BASIS_ORDER|
    requires c in CandidatesUpTo(n, data)
    ensures (c.start, c.delta) in CoefficientTuples(c.basis, data)
    ensures c == ToCandidate(c.basis, data, (c.start, c.delta))
  {
    hide CoefficientTuples;
    if n > 0 && c !in CandidatesUpTo(n - 1, data) {
      var basis := BASIS_ORDER[n - 1];
      var tuples := CoefficientTuples(basis, data);
      var i :| 0 <= i < |tuples| && c == CandidatesOf(basis, data, |tuples|)[i];
      assert tuples[i] in tuples;
    } else {
      CandidateShape(n - 1, data, c);
    }
  }

  // ------------------------------------------------- what the search achieves

  lemma WrapShift(v: byte, s: byte, k: int)
    ensures Wrap(v - k) == s <==> v == Wrap(s + k)
  {
    var q := (v - k) / 256;
    assert v - k == 256 * q + Wrap(v - k);
    if Wrap(v - k) == s {
      assert s + k == 256 * (-q) + v;
    }
    var p := (s + k) / 256;
    assert s + k == 256 * p + Wrap(s + k);
    if v == Wrap(s + k) {
      assert v - k == 256 * (-p) + s;
    }
  }

  /** A ramp misses exactly the bytes that do not suggest its start. */
  lemma {:induction false} CountComplement(data: Bytes, delta: byte, start: byte, n: nat)
    requires n <= |data|
    ensures |Patches(data, SynthesizeBasis(DeltaU8, start, |data|, delta), n)|
         == n - StartCount(data, delta, start, n)
  {
    hide Wrap;
    if n > 0 {
      CountComplement(data, delta, start, n - 1);
      WrapShift(data[n - 1], start, (n - 1) * delta);
    }
  }

  /** What a ramp costs, in terms of the histogram. */
  lemma RampCost(data: Bytes, delta: byte, start: byte)
    ensures ResidualCount(data, DeltaU8, start, delta) == |data| - StartCount(data, delta, start, |data|)
  {
    CountComplement(data, delta, start, |data|);
  }

  lemma BestStartIsBest(data: Bytes, delta: byte, start: byte)
    ensures ResidualCount(data, DeltaU8, BestStart(data, delta), delta) <= ResidualCount(data, DeltaU8, start, delta)
  {
    var counts := Histogram(data, delta, |data|);
    assert counts[start] <= counts[ArgMax(counts)];
    RampCost(data, delta, start);
    RampCost(data, delta, BestStart(data, delta));
  }

  lemma FlatRamp(start: byte, n: nat, delta: byte)
    ensures SynthesizeBasis(RepeatByte, start, n, delta) == SynthesizeBasis(DeltaU8, start, n, 0)
  {
  }

  lemma FlatWave(start: byte, n: nat)
    ensures SynthesizeBasis(Fourier8U8, start, n, 0) == SynthesizeBasis(RepeatByte, start, n, 0)
  {
  }

  /** Bases that generate the same bytes cost the same. */
  lemma SameBytes(data: Bytes, start: byte, delta: byte)
    ensures ResidualCount(data, ZeroBlock, start, delta) == ResidualCount(data, ZeroBlock, 0, 0)
    ensures ResidualCount(data, RepeatByte, start, delta) == ResidualCount(data, DeltaU8, start, 0)
    ensures ResidualCount(data, DictionaryU8, start, delta) == ResidualCount(data, RepeatByte, start, 0)
    ensures ResidualCount(data, RleU8, start, delta) == ResidualCount(data, RepeatByte, start, 0)
    ensures ResidualCount(data, RampU8, start, delta) == ResidualCount(data, DeltaU8, start, 1)
    ensures ResidualCount(data, TriangleU8, start, delta) == ResidualCount(data, TriangleU8, start, 0)
    ensures ResidualCount(data, Sine8U8, start, delta) == ResidualCount(data, Sine8U8, start, 0)
    ensures ResidualCount(data, Fourier8U8, start, 0) == ResidualCount(data, RepeatByte, start, 0)
  {
    hide Wrap, Patches;
    var n := |data|;
    assert SynthesizeBasis(ZeroBlock, start, n, delta) == SynthesizeBasis(ZeroBlock, 0, n, 0);
    FlatRamp(start, n, delta);
    FlatWave(start, n);
    assert SynthesizeBasis(DictionaryU8, start, n, delta) == SynthesizeBasis(RepeatByte, start, n, 0);
    assert SynthesizeBasis(RleU8, start, n, delta) == SynthesizeBasis(RepeatByte, start, n, 0);
    assert SynthesizeBasis(RampU8, start, n, delta) == SynthesizeBasis(DeltaU8, start, n, 1);
    assert SynthesizeBasis(TriangleU8, start, n, delta) == SynthesizeBasis(TriangleU8, start, n, 0);
    assert SynthesizeBasis(Sine8U8, start, n, delta) == SynthesizeBasis(Sine8U8, start, n, 0);
  }

  /** The candidate of a searched basis at a given start, which is no worse than the basis asked for. */
  lemma Cover(data: Bytes, basis: Basis, start: byte, delta: byte) returns (c: Candidate)
    requires basis.Fourier8U8? ==> delta == 0
    ensures c in AllCandidates(data)
    ensures c.residualCount <= ResidualCount(data, basis, start, delta)
    ensures basis in {DictionaryU8, RleU8, RampU8, Fourier8U8} ==> BasisIndex(c.basis) < BasisIndex(basis)
  {
    hide ResidualCount, BestStart;
    SameBytes(data, start, delta);
    SameBytes(data, start, 0);
    BestStartIsBest(data, delta, start);
    BestStartIsBest(data, 1, start);
    var (searched, i) :=
      match basis {
        case ZeroBlock => (ZeroBlock, 0)
        case RepeatByte => (RepeatByte, start)
        case DeltaU8 => (DeltaU8, delta)
        case DictionaryU8 => (RepeatByte, start)
        case RleU8 => (RepeatByte, start)
        case RampU8 => (DeltaU8, 1)
        case TriangleU8 => (TriangleU8, start)
        case Sine8U8 => (Sine8U8, start)
        case Fourier8U8 => (RepeatByte, start)
      };
    CandidateListed(|BASIS_ORDER|, data, searched, i);
    c := ToCandidate(searched, data, CoefficientTuples(searched, data)[i]);
  }

  /** No basis the search covers, at any start and step, needs fewer residuals than the chosen one. */
  lemma BestHasFewestResiduals(data: Bytes, basis: Basis, start: byte, delta: byte)
    requires basis.Fourier8U8? ==> delta == 0
    ensures Best(data).residualCount <= ResidualCount(data, basis, start, delta)
  {
    hide ResidualCount, AllCandidates;
    var c := Cover(data, basis, start, delta);
    assert !Better(c, Best(data));
  }

  /** The count the winner carries is the one of its own basis, and its step is one the search tries. */
  lemma BestIsConsistent(data: Bytes)
    ensures var b := Best(data);
            && b.residualCount == ResidualCount(data, b.basis, b.start, b.delta)
            && (b.basis.Fourier8U8? ==> b.delta == 0)
  {
    hide ResidualCount, BestOf;
    var b := Best(data);
    CandidateShape(|BASIS_ORDER|, data, b);
    if b.basis.Fourier8U8? {
      var tuples := CoefficientTuples(b.basis, data);
      var i :| 0 <= i < |tuples| && tuples[i] == (b.start, b.delta);
    }
  }

  /** Four of the nine bases are never chosen: an earlier one always does as well. */
  lemma UnusedBases(data: Bytes)
    ensures Best(data).basis !in {DictionaryU8, RleU8, RampU8, Fourier8U8}
  {
    hide ResidualCount, AllCandidates;
    var b := Best(data);
    BestIsConsistent(data);
    var c := Cover(data, b.basis, b.start, b.delta);
    assert !Better(c, b);
  }

  lemma StepFits(a: byte, b: byte)
    ensures Wrap(b - 1 * Minus(b, a)) == a
  {
    assert Minus(b, a) == if b >= a then b - a else b - a + 256;
  }

  lemma TwoSuggestions(data: Bytes, delta: byte, start: byte)
    requires |data| >= 2
    requires Suggested(data, delta, 0) == start == Suggested(data, delta, 1)
    ensures StartCount(data, delta, start, 2) == 2
  {
    hide Suggested;
    assert StartCount(data, delta, start, 1) == 1;
  }

  /** Two bytes always fit a ramp. */
  lemma RampFitsTwoBytes(data: Bytes)
    requires |data| >= 2
    ensures ResidualCount(data, DeltaU8, data[0], Minus(data[1], data[0])) <= |data| - 2
  {
    hide Minus, ResidualCount, StartCount;
    var delta := Minus(data[1], data[0]);
    RampCost(data, delta, data[0]);
    StepFits(data[0], data[1]);
    TwoSuggestions(data, delta, data[0]);
    StartCountMonotone(data, delta, data[0], 2, |data|);
  }

  lemma {:induction false} StartCountMonotone(data: Bytes, delta: byte, start: byte, m: nat, n: nat)
    requires m <= n <= |data|
    ensures StartCount(data, delta, start, m) <= StartCount(data, delta, start, n)
  {
    if m < n {
      StartCountMonotone(data, delta, start, m, n - 1);
    }
  }

  function Sum(counts: seq<nat>): nat {
    if counts == [] then 0 else Sum(counts[..|counts| - 1]) + counts[|counts| - 1]
  }

  lemma {:induction false} SumBounded(counts: seq<nat>, most: nat)
    requires forall i :: 0 <= i < |counts| ==> counts[i] <= most
    ensures Sum(counts) <= |counts| * most
  {
    if counts != [] {
      SumBounded(counts[..|counts| - 1], most);
    }
  }

  lemma {:induction false} SumIncrement(counts: seq<nat>, i: nat)
    requires i < |counts|
    ensures Sum(counts[i := counts[i] + 1]) == Sum(counts) + 1
  {
    var n := |counts| - 1;
    var after := counts[i := counts[i] + 1];
    if i < n {
      SumIncrement(counts[..n], i);
      assert after[..n] == counts[..n][i := counts[i] + 1];
    } else {
      assert after[..n] == counts[..n];
    }
  }

  lemma {:induction false} SumZeros(n: nat)
    ensures Sum(seq(n, _ => 0)) == 0
  {
    if n > 0 {
      SumZeros(n - 1);
      assert seq(n, _ => 0)[..n - 1] == seq(n - 1, _ => 0);
    }
  }

  /** Counting one more offset adds one to one entry of the histogram. */
  lemma HistogramStep(data: Bytes, delta: byte, n: nat)
    requires n < |data|
    ensures var s := Suggested(data, delta, n);
            Histogram(data, delta, n + 1) == Histogram(data, delta, n)[s := Histogram(data, delta, n)[s] + 1]
  {
    hide Suggested;
  }

  lemma {:induction false} HistogramTotal(data: Bytes, delta: byte, n: nat)
    requires n <= |data|
    ensures Sum(Histogram(data, delta, n)) == n
  {
    hide Suggested;
    if n == 0 {
      SumZeros(256);
      assert Histogram(data, delta, 0) == seq(256, _ => 0);
    } else {
      HistogramTotal(data, delta, n - 1);
      HistogramStep(data, delta, n - 1);
      SumIncrement(Histogram(data, delta, n - 1), Suggested(data, delta, n - 1));
    }
  }

  /** By the pigeonhole principle some byte value makes up a 256th of the data. */
  lemma MostCommonIsFrequent(data: Bytes)
    ensures 256 * (|data| - ResidualCount(data, DeltaU8, BestStart(data, 0), 0)) >= |data|
  {
    var counts := Histogram(data, 0, |data|);
    HistogramTotal(data, 0, |data|);
    SumBounded(counts, counts[ArgMax(counts)]);
    RampCost(data, 0, BestStart(data, 0));
  }

  /** The residuals of the chosen plan: at most n - 2 for n >= 2 bytes, and at most n - ceil(n / 256). */
  lemma ResidualBounds(data: Bytes)
    ensures |data| >= 2 ==> Best(data).residualCount <= |data| - 2
    ensures Best(data).residualCount <= |data| - (|data| + 255) / 256
  {
    hide *;
    if |data| >= 2 {
      RampFitsTwoBytes(data);
      BestHasFewestResiduals(data, DeltaU8, data[0], Minus(data[1], data[0]));
    }
    MostCommonIsFrequent(data);
    BestHasFewestResiduals(data, DeltaU8, BestStart(data, 0), 0);
  }

  lemma {:induction false} NoPatchesMeansEqual(data: Bytes, generated: Bytes, n: nat)
    requires n <= |data| && |generated| == |data|
    ensures Patches(data, generated, n) == [] <==> data[..n] == generated[..n]
  {
    if n > 0 {
      NoPatchesMeansEqual(data, generated, n - 1);
      assert data[..n] == data[..n - 1] + [data[n - 1]];
      assert generated[..n] == generated[..n - 1] + [generated[n - 1]];
    }
  }

  lemma ExactFit(data: Bytes, basis: Basis, start: byte, delta: byte)
    ensures ResidualCount(data, basis, start, delta) == 0 <==> data == SynthesizeBasis(basis, start, |data|, delta)
  {
    var generated := SynthesizeBasis(basis, start, |data|, delta);
    NoPatchesMeansEqual(data, generated, |data|);
    assert data[..|data|] == data && generated[..|data|] == generated;
  }

  // ------------------------------------------------- the one gap of the search

  lemma Unwrap(v: int) returns (q: int)
    ensures v == 256 * q + Wrap(v)
  {
    q := v / 256;
  }

  /** How far three successive bytes are from a straight line, modulo 256. */
  function Bend(a: int, b: int, c: int): byte {
    Wrap(2 * b - a - c)
  }

  lemma WrapMultiple(v: int, q: int)
    ensures Wrap(v + 256 * q) == Wrap(v)
  {
  }

  /** Wrapping bytes does not change how they bend. */
  lemma BendOfWrapped(a: int, b: int, c: int)
    ensures Bend(Wrap(a), Wrap(b), Wrap(c)) == Bend(a, b, c)
  {
    hide Wrap;
    var (p, q, r) := (a / 256, b / 256, c / 256);
    p := Unwrap(a);
    q := Unwrap(b);
    r := Unwrap(c);
    WrapMultiple(2 * Wrap(b) - Wrap(a) - Wrap(c), 2 * q - p - r);
  }

  /** Byte i of a fourier wave before wrapping, without its start. */
  function WaveOffset(delta: byte, i: nat): int {
    var cosineDelta: int := delta / 2;
    (delta as int * SINE8_U8_OFFSETS[i % 8]) / 127 + (cosineDelta * COSINE8_U8_OFFSETS[i % 8]) / 127
  }

  lemma WaveStart(delta: byte)
    ensures WaveOffset(delta, 0) == delta / 2
    ensures WaveOffset(delta, 1) == (delta * 90 as int) / 127 + (delta / 2 * 90 as int) / 127
    ensures WaveOffset(delta, 2) == delta
    ensures WaveOffset(delta, 3) == (delta * 90 as int) / 127 + (delta / 2 * -90 as int) / 127
  {
    var cosineDelta: int := delta / 2;
    assert WaveOffset(delta, 0) == (delta as int * 0) / 127 + (cosineDelta * 127) / 127;
    assert WaveOffset(delta, 1) == (delta as int * 90) / 127 + (cosineDelta * 90) / 127;
    assert WaveOffset(delta, 2) == (delta as int * 127) / 127 + (cosineDelta * 0) / 127;
    assert WaveOffset(delta, 3) == (delta as int * 90) / 127 + (cosineDelta * -90) / 127;
  }

  /** Every wave with a step bends at its third byte, and does not come back to its second byte unless the step is 1. */
  lemma WaveBends(delta: byte)
    requires delta != 0
    ensures 2 <= 2 * WaveOffset(delta, 2) - WaveOffset(delta, 1) - WaveOffset(delta, 3) <= 153
    ensures delta != 1 ==> 1 <= WaveOffset(delta, 1) - WaveOffset(delta, 3) <= 182
    ensures delta == 1 ==> WaveOffset(delta, 0) == 0 && WaveOffset(delta, 2) == 1
  {
    hide WaveOffset;
    WaveStart(delta);
  }

  lemma WaveBytes(start: byte, delta: byte, i: nat)
    requires i < 4
    ensures SynthesizeBasis(Fourier8U8, start, 4, delta)[i] == Wrap(start + WaveOffset(delta, i))
  {
    hide Wrap;
  }

  lemma WrapDiffers(a: int, b: int)
    requires 1 <= a - b < 256
    ensures Wrap(a) != Wrap(b)
  {
  }

  /** What the first four bytes of a wave with a step look like. */
  lemma WaveShape(start: byte, delta: byte)
    requires delta != 0
    ensures var w := SynthesizeBasis(Fourier8U8, start, 4, delta);
            && Bend(w[1], w[2], w[3]) != 0
            && (delta != 1 ==> w[1] != w[3])
            && (delta == 1 ==> Minus(w[2], w[0]) == 1)
  {
    hide Wrap, SynthesizeBasis, WaveOffset, Bend, Minus;
    forall i: nat | i < 4
      ensures SynthesizeBasis(Fourier8U8, start, 4, delta)[i] == Wrap(start + WaveOffset(delta, i))
    {
      WaveBytes(start, delta, i);
    }
    WaveBends(delta);
    WrappedShape(start + WaveOffset(delta, 1), start + WaveOffset(delta, 2), start + WaveOffset(delta, 3));
    if delta == 1 {
      StepOfWrapped(start + WaveOffset(delta, 0), start + WaveOffset(delta, 2), 1);
    }
  }

  lemma WrappedShape(x: int, y: int, z: int)
    requires 1 <= 2 * y - x - z < 256
    ensures Bend(Wrap(x), Wrap(y), Wrap(z)) != 0
    ensures 1 <= x - z < 256 ==> Wrap(x) != Wrap(z)
  {
    hide Wrap, Bend;
    BendOfWrapped(x, y, z);
    BendIsNot(x, y, z);
    if 1 <= x - z < 256 {
      WrapDiffers(x, z);
    }
  }

  lemma BendIsNot(a: int, b: int, c: int)
    requires 1 <= 2 * b - a - c < 256
    ensures Bend(a, b, c) != 0
  {
  }

  lemma StepOfWrapped(a: int, b: int, step: byte)
    requires b == a + step
    ensures Minus(Wrap(b), Wrap(a)) == step
  {
    hide Wrap;
    var p := Unwrap(a);
    var q := Unwrap(b);
    WrapMultiple(step, p - q);
    SmallWraps(step);
  }

  lemma SmallWraps(v: byte)
    ensures Wrap(v) == v
  {
  }

  /** What the search covers is straight at its third byte, but for the sine wave, which comes back to its second. */
  lemma SearchedShape(basis: Basis, start: byte, delta: byte)
    requires basis.Fourier8U8? ==> delta == 0
    ensures var g := SynthesizeBasis(basis, start, 4, delta);
            if basis.Sine8U8? then g[1] == g[3] && Minus(g[2], g[0]) == 127 else Bend(g[1], g[2], g[3]) == 0
  {
    hide Wrap;
    var g := SynthesizeBasis(basis, start, 4, delta);
    assert g[0] == BasisByte(basis, start, delta, 0) && g[1] == BasisByte(basis, start, delta, 1)
        && g[2] == BasisByte(basis, start, delta, 2) && g[3] == BasisByte(basis, start, delta, 3);
    match basis
    case Sine8U8 => StepOfWrapped(start, start + 127, 127); SmallWraps(start);
    case DeltaU8 => StraightLine(start, delta);
    case RampU8 => StraightLine(start, 1);
    case TriangleU8 => StraightLine(start, 32);
    case ZeroBlock => FlatLine(0);
    case Fourier8U8 => FlatLine(Wrap(start));
    case _ => FlatLine(start);
  }

  lemma FlatLine(v: byte)
    ensures Bend(v, v, v) == 0
  {
  }

  lemma StraightLine(start: byte, step: byte)
    ensures Bend(Wrap(start + 1 * step), Wrap(start + 2 * step), Wrap(start + 3 * step)) == 0
  {
    hide Wrap;
    BendOfWrapped(start + 1 * step, start + 2 * step, start + 3 * step);
    SmallWraps(0);
  }

  /**
   The search never tries `fourier8_u8` with a step. For every start and every step but 0 this costs: four
   bytes of that wave need no residuals, and the chosen plan needs some.
   */
  lemma FourierStepsAreNotSearched(start: byte, delta: byte)
    requires delta != 0
    ensures var wave := SynthesizeBasis(Fourier8U8, start, 4, delta);
            ResidualCount(wave, Fourier8U8, start, delta) == 0 && Best(wave).residualCount > 0
  {
    hide ResidualCount, Best, SynthesizeBasis, Bend, Minus;
    var wave := SynthesizeBasis(Fourier8U8, start, 4, delta);
    ExactFit(wave, Fourier8U8, start, delta);
    BestIsConsistent(wave);
    var b := Best(wave);
    ExactFit(wave, b.basis, b.start, b.delta);
    WaveShape(start, delta);
    SearchedShape(b.basis, b.start, b.delta);
  }

  /** The chosen plan is never beaten by a basis at a start and step exactly when it is not a fourier wave with a step. */
  lemma NeverBeatenExactly(basis: Basis, start: byte, delta: byte)
    ensures (forall data: Bytes :: Best(data).residualCount <= ResidualCount(data, basis, start, delta))
       <==> (basis.Fourier8U8? ==> delta == 0)
  {
    hide ResidualCount, Best, SynthesizeBasis;
    if basis.Fourier8U8? && delta != 0 {
      FourierStepsAreNotSearched(start, delta);
    } else {
      forall data: Bytes
        ensures Best(data).residualCount <= ResidualCount(data, basis, start, delta)
      {
        BestHasFewestResiduals(data, basis, start, delta);
      }
    }
  }
}
