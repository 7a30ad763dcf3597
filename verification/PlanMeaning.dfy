/**
 What the planner chooses (bogvm/optimizer.py, bogvm/bases.py), said by what a reader can count: the bytes of the
 generators, the bytes that differ, and the keys that the chosen plan, transform and chunk size are least in.
 */
module PlanMeaning {
  import opened Wrappers
  import opened ByteStrings
  import opened Transforms
  import opened Bases
  import opened Optimizer
  import opened Reader
  import opened ResidualCodec
  import opened Containers
  import opened Bogpk
  import opened Planner
  import opened Builder

  // ------------------------------------------------- generators

  /** The flat generators. */
  lemma FlatMeans(start: byte, delta: byte, n: nat, i: nat)
    requires i < n
    ensures SynthesizeBasis(ZeroBlock, start, n, delta)[i] == 0 && SynthesizeBasis(RepeatByte, start, n, delta)[i] == start
    ensures SynthesizeBasis(DictionaryU8, start, n, delta)[i] == start && SynthesizeBasis(RleU8, start, n, delta)[i] == start
  {
  }

  lemma ByteOf(basis: Basis, start: byte, delta: byte, n: nat, i: nat)
    requires i < n
    ensures SynthesizeBasis(basis, start, n, delta)[i] == BasisByte(basis, start, delta, i)
  {
  }

  lemma WrapPlus(a: int, d: int)
    ensures Wrap(a + d) == (Wrap(a) as int + d) % 256
  {
  }

  lemma WrapByte(b: byte)
    ensures Wrap(b) == b
  {
  }

  /** The straight generators: where they start, and how they go on. */
  lemma RampMeans(start: byte, delta: byte, n: nat, i: nat)
    requires i < n
    ensures var b := SynthesizeBasis(DeltaU8, start, n, delta); b[0] == start && (i > 0 ==> b[i] == (b[i - 1] as int + delta) % 256)
    ensures var b := SynthesizeBasis(RampU8, start, n, delta); b[0] == start && (i > 0 ==> b[i] == (b[i - 1] as int + 1) % 256)
  {
    hide Wrap, SynthesizeBasis;
    WrapByte(start);
    ByteOf(DeltaU8, start, delta, n, 0);
    ByteOf(RampU8, start, delta, n, 0);
    if i > 0 {
      ByteOf(DeltaU8, start, delta, n, i);
      ByteOf(DeltaU8, start, delta, n, i - 1);
      ByteOf(RampU8, start, delta, n, i);
      ByteOf(RampU8, start, delta, n, i - 1);
      OneMoreStep(i, delta);
      WrapPlus(start + (i - 1) * delta, delta);
      WrapPlus(start + (i - 1), 1);
    }
  }

  lemma OneMoreStep(i: nat, delta: nat)
    requires i > 0
    ensures i * delta == (i - 1) * delta + delta
  {
  }

  lemma TriangleOffsets(i: nat)
    requires i > 0
    ensures TRIANGLE_U8_OFFSETS[i % 8] == TRIANGLE_U8_OFFSETS[(i - 1) % 8] + if (i - 1) % 8 < 4 then 32 else -32
    ensures TRIANGLE_U8_OFFSETS[0] == 0
  {
    var r := (i - 1) % 8;
    assert i % 8 == if r == 7 then 0 else r + 1;
  }

  /** The wave of straight lines climbs by 32 for four bytes and falls by 32 for four, over and over. */
  lemma TriangleMeans(start: byte, delta: byte, n: nat, i: nat)
    requires i < n
    ensures SynthesizeBasis(TriangleU8, start, n, delta)[0] == start
    ensures var b := SynthesizeBasis(TriangleU8, start, n, delta);
            i > 0 ==> b[i] == (b[i - 1] as int + if (i - 1) % 8 < 4 then 32 else -32) % 256
  {
    hide Wrap, SynthesizeBasis, TRIANGLE_U8_OFFSETS;
    WrapByte(start);
    ByteOf(TriangleU8, start, delta, n, 0);
    TriangleOffsets(1);
    TriangleStarts(start, delta);
    if i > 0 {
      ByteOf(TriangleU8, start, delta, n, i);
      ByteOf(TriangleU8, start, delta, n, i - 1);
      TriangleStep(start, delta, i);
    }
  }

  lemma TriangleStarts(start: byte, delta: byte)
    ensures BasisByte(TriangleU8, start, delta, 0) == start
  {
  }

  lemma TriangleStep(start: byte, delta: byte, i: nat)
    requires i > 0
    ensures BasisByte(TriangleU8, start, delta, i)
         == (BasisByte(TriangleU8, start, delta, i - 1) as int + if (i - 1) % 8 < 4 then 32 else -32) % 256
  {
    hide Wrap;
    TriangleOffsets(i);
    WrapPlus(start + TRIANGLE_U8_OFFSETS[(i - 1) % 8], if (i - 1) % 8 < 4 then 32 else -32);
  }

  /** The height of the sine wave at each of its eight places. */
  function SineHeight(r: nat): int
    requires r < 8
  {
    match r case 0 => 0 case 1 => 90 case 2 => 127 case 3 => 90 case 4 => 0 case 5 => -90 case 6 => -127 case _ => -90
  }

  lemma SineOffsets(r: nat)
    requires r < 8
    ensures SINE8_U8_OFFSETS[r] == SineHeight(r)
    ensures r < 4 ==> SineHeight(r + 4) == -SineHeight(r)
  {
  }

  /** The sine wave: 0, 90, 127, 90 above its start, and the same below it. */
  lemma SineMeans(start: byte, delta: byte, n: nat, i: nat)
    requires i < n
    ensures SynthesizeBasis(Sine8U8, start, n, delta)[i] == Wrap(start as int + SineHeight(i % 8))
  {
    hide Wrap, SynthesizeBasis, SINE8_U8_OFFSETS, SineHeight;
    ByteOf(Sine8U8, start, delta, n, i);
    SineOffsets(i % 8);
  }

  /** Each offset of the fourier wave: sine times the step and cosine times half the step, of amplitude 127, rounded down. */
  lemma WaveMeans(delta: byte, r: nat)
    requires r < 8
    ensures var (d, h) := (delta as int, delta as int / 2);
            (d * SINE8_U8_OFFSETS[r]) / 127 + (h * COSINE8_U8_OFFSETS[r]) / 127
            == match r
               case 0 => h
               case 1 => 90 * d / 127 + 90 * h / 127
               case 2 => d
               case 3 => 90 * d / 127 + (-90 * h) / 127
               case 4 => -h
               case 5 => (-90 * d) / 127 + (-90 * h) / 127
               case 6 => -d
               case _ => (-90 * d) / 127 + 90 * h / 127
  {
    Scaled(delta as int);
    Scaled(delta as int / 2);
  }

  /** The fourier wave: at its start half the step up, then the step, and so round the circle. */
  lemma FourierMeans(start: byte, delta: byte, n: nat, i: nat)
    requires i < n
    ensures var (d, h) := (delta as int, delta as int / 2);
            SynthesizeBasis(Fourier8U8, start, n, delta)[i]
            == Wrap(start as int + match i % 8
               case 0 => h
               case 1 => 90 * d / 127 + 90 * h / 127
               case 2 => d
               case 3 => 90 * d / 127 + (-90 * h) / 127
               case 4 => -h
               case 5 => (-90 * d) / 127 + (-90 * h) / 127
               case 6 => -d
               case _ => (-90 * d) / 127 + 90 * h / 127)
  {
    hide Wrap, SynthesizeBasis;
    ByteOf(Fourier8U8, start, delta, n, i);
    FourierByte(start, delta, i);
    WaveMeans(delta, i % 8);
  }

  lemma FourierByte(start: byte, delta: byte, i: nat)
    ensures var h := delta as int / 2;
            BasisByte(Fourier8U8, start, delta, i)
            == Wrap(start as int + ((delta as int * SINE8_U8_OFFSETS[i % 8]) / 127 + (h * COSINE8_U8_OFFSETS[i % 8]) / 127))
  {
    hide Wrap, SINE8_U8_OFFSETS, COSINE8_U8_OFFSETS;
  }

  lemma Scaled(x: int)
    ensures (x * 127) / 127 == x && (x * -127) / 127 == -x && (x * 0) / 127 == 0
    ensures (x * 90) / 127 == 90 * x / 127 && (x * -90) / 127 == (-90 * x) / 127
  {
  }

  // ------------------------------------------------- residuals

  /** The offsets below n at which two strings differ. */
  function Differing(data: Bytes, generated: Bytes, n: nat): set<nat>
    requires n <= |data| == |generated|
  {
    set i: nat | i < n && data[i] != generated[i]
  }

  lemma DifferingStep(data: Bytes, generated: Bytes, n: nat)
    requires 0 < n <= |data| == |generated|
    ensures Differing(data, generated, n)
         == Differing(data, generated, n - 1) + if data[n - 1] != generated[n - 1] then {n - 1} else {}
    ensures n - 1 !in Differing(data, generated, n - 1)
  {
  }

  lemma PatchesStep(data: Bytes, generated: Bytes, n: nat)
    requires 0 < n <= |data| == |generated|
    ensures Patches(data, generated, n)
         == Patches(data, generated, n - 1) + if data[n - 1] != generated[n - 1] then [Patch(n - 1, data[n - 1])] else []
  {
  }

  lemma NothingDiffers(data: Bytes, generated: Bytes)
    requires |data| == |generated|
    ensures Patches(data, generated, 0) == [] && Differing(data, generated, 0) == {}
  {
  }

  /** The residuals of a chunk are its bytes at the offsets where the generated block differs, one for each. */
  lemma {:induction false} PatchesMean(data: Bytes, generated: Bytes, n: nat, p: Patch)
    requires n <= |data| == |generated|
    ensures p in Patches(data, generated, n) <==> p.offset in Differing(data, generated, n) && p.value == data[p.offset]
    ensures |Patches(data, generated, n)| == |Differing(data, generated, n)|
  {
    hide Differing, Patches;
    InRange(data, generated, n, p.offset);
    if n == 0 {
      NothingDiffers(data, generated);
    } else {
      PatchesMean(data, generated, n - 1, p);
      PatchesStep(data, generated, n);
      DifferingStep(data, generated, n);
      InRange(data, generated, n - 1, p.offset);
      var (before, more) := (Differing(data, generated, n - 1), Patches(data, generated, n - 1));
      if data[n - 1] != generated[n - 1] {
        assert |before + {n - 1}| == |before| + 1;
      } else {
        assert more + [] == more && before + {} == before;
      }
    }
  }

  lemma InRange(data: Bytes, generated: Bytes, n: nat, i: nat)
    requires n <= |data| == |generated|
    ensures i in Differing(data, generated, n) ==> i < n
  {
  }

  // ------------------------------------------------- the closing checks

  /** Which plans pass the closing checks, and what the first check that fails says, for residuals in order. */
  lemma ChecksMean(p: Plan, data: Bytes, sha: Sha)
    requires Placed(p.residuals, 0, p.length)
    ensures var (rebuilt, expected) := (sha(Transformed(p.basis, p.start, p.delta, p.length, p.residuals)), sha(data));
            var named := p.length == |data| && p.sha256 == expected;
            var counted := named && p.residualCount == |p.residuals|;
            var f := PlanFault(p, data, sha);
            && (f == None <==> counted && rebuilt == expected && (p.reconstructedHash.Some? ==> p.reconstructedHash.value == rebuilt))
            && (f == Some(PlanLengthMismatch) <==> p.length != |data|)
            && (f == Some(TargetHashMismatch) <==> p.length == |data| && p.sha256 != expected)
            && (f == Some(ResidualCountMismatch) <==> named && p.residualCount != |p.residuals|)
            && (f == Some(InexactReconstruction) <==> counted && rebuilt != expected)
  {
    hide Placed, Transformed;
  }

  /** Residual k is not above the one before it, while those before it are in order and in range. */
  predicate OutOfOrder(residuals: seq<Patch>, next: nat, length: nat, k: nat) {
    k < |residuals| && Placed(residuals[..k], next, length)
    && residuals[k].offset < if k == 0 then next else residuals[k - 1].offset + 1
  }

  lemma OutOfOrderFirst(residuals: seq<Patch>, next: nat, length: nat)
    requires residuals != []
    ensures OutOfOrder(residuals, next, length, 0) <==> residuals[0].offset < next
  {
    assert residuals[..0] == [];
  }

  lemma OutOfOrderCons(residuals: seq<Patch>, next: nat, length: nat, k: nat)
    requires residuals != []
    ensures OutOfOrder(residuals, next, length, k + 1)
       <==> next <= residuals[0].offset < length && OutOfOrder(residuals[1..], residuals[0].offset + 1, length, k)
  {
    if k + 1 < |residuals| {
      assert residuals[..k + 1][0] == residuals[0] && residuals[..k + 1][1..] == residuals[1..][..k];
    }
  }

  /** Residuals are refused as out of order at the first that is not above the one before it. */
  lemma {:induction false} FaultMeans(residuals: seq<Patch>, next: nat, length: nat)
    ensures Fault(residuals, next, length) == Some(OffsetsNotIncreasing) <==> exists k :: OutOfOrder(residuals, next, length, k)
  {
    hide OutOfOrder;
    if residuals == [] {
      NoneOutOfOrder(next, length);
    } else {
      var (rest, after) := (residuals[1..], residuals[0].offset + 1);
      OutOfOrderFirst(residuals, next, length);
      if k: nat :| OutOfOrder(residuals, next, length, k) {
        if k > 0 {
          OutOfOrderCons(residuals, next, length, k - 1);
        }
      }
      if next <= residuals[0].offset < length {
        FaultMeans(rest, after, length);
        if k: nat :| OutOfOrder(rest, after, length, k) {
          OutOfOrderCons(residuals, next, length, k);
        }
      }
    }
  }

  lemma NoneOutOfOrder(next: nat, length: nat)
    ensures forall k :: !OutOfOrder([], next, length, k)
  {
  }

  // ------------------------------------------------- the chosen plan

  /** The key of a candidate is at most that of any basis, start and step: by residuals, basis, start, step in turn. */
  predicate AtMost(c: Candidate, count: nat, index: nat, start: byte, delta: byte) {
    || c.residualCount < count
    || (c.residualCount == count
        && (|| BasisIndex(c.basis) < index
            || (BasisIndex(c.basis) == index && (c.start < start || (c.start == start && c.delta <= delta)))))
  }

  lemma LowestStart(data: Bytes, delta: byte, start: byte)
    ensures var best := BestStart(data, delta);
            ResidualCount(data, DeltaU8, best, delta) < ResidualCount(data, DeltaU8, start, delta)
            || (ResidualCount(data, DeltaU8, best, delta) == ResidualCount(data, DeltaU8, start, delta) && best <= start)
  {
    hide ResidualCount;
    RampCost(data, delta, start);
    RampCost(data, delta, BestStart(data, delta));
    var counts := Histogram(data, delta, |data|);
    assert counts[start] == StartCount(data, delta, start, |data|);
    assert counts[ArgMax(counts)] == StartCount(data, delta, ArgMax(counts), |data|);
  }

  /** Some candidate of the search is no worse than the basis asked for, ties included. */
  lemma CoverKey(data: Bytes, basis: Basis, start: byte, delta: byte) returns (c: Candidate)
    requires basis.Fourier8U8? ==> delta == 0
    ensures c in AllCandidates(data) && AtMost(c, ResidualCount(data, basis, start, delta), BasisIndex(basis), start, delta)
  {
    hide ResidualCount, BestStart, AllCandidates;
    if basis.DeltaU8? {
      LowestStart(data, delta, start);
      CandidateListed(|BASIS_ORDER|, data, DeltaU8, delta);
      c := ToCandidate(DeltaU8, data, (BestStart(data, delta), delta));
      AllAre(data);
    } else if basis.DictionaryU8? || basis.RleU8? || basis.RampU8? || basis.Fourier8U8? {
      c := Cover(data, basis, start, delta);
    } else {
      SameBytes(data, start, delta);
      SameBytes(data, start, 0);
      var i := if basis.ZeroBlock? then 0 else start;
      CandidateListed(|BASIS_ORDER|, data, basis, i);
      c := ToCandidate(basis, data, CoefficientTuples(basis, data)[i]);
      AllAre(data);
    }
  }

  lemma AllAre(data: Bytes)
    ensures AllCandidates(data) == CandidatesUpTo(|BASIS_ORDER|, data)
  {
  }

  /**
   The chosen plan is the least of all bases at all starts and steps, but for the fourier basis with a step: fewest
   residuals first, then the earlier basis, then the lower start, then the lower step.
   */
  lemma BestIsLeast(data: Bytes, basis: Basis, start: byte, delta: byte)
    requires basis.Fourier8U8? ==> delta == 0
    ensures AtMost(Best(data), ResidualCount(data, basis, start, delta), BasisIndex(basis), start, delta)
  {
    hide ResidualCount, AllCandidates;
    var c := CoverKey(data, basis, start, delta);
    assert !Better(c, Best(data));
  }

  // ------------------------------------------------- costs

  /** What a plan is charged: sixteen for each byte of its container form, and its decoding. */
  lemma TotalMeans(t: Transform, p: Plan)
    requires Placed(p.residuals, 0, p.length)
    ensures var n := |p.residuals|;
            var (gaps, mask) := (|EncodeGaps(p.residuals, 0, p.length)|, (p.length + 7) / 8 + n);
            var size := 3 + (if t == Bwt || t == BwtMtf then 1 else 0) + |EncodeVaruint(n)| + (if n > 0 && mask < gaps then mask else gaps);
            var transform := match t case Identity => 0 case Mtf => 8 case Bwt => 16 case BwtMtf => 8 + 16 case _ => 1;
            var basis := match p.basis
              case ZeroBlock => 0 case RepeatByte => 1 case DeltaU8 => 2 case RampU8 => 2 case DictionaryU8 => 3 case RleU8 => 3
              case TriangleU8 => 4 case Sine8U8 => 5 case Fourier8U8 => 6;
            && ContainerSize(t, p.residuals, p.length) == size && DecodeCost(t, p) == p.length + n + transform + basis
            && TotalCost(t, p) == 16 * size + 2 * n + 2 * transform + p.length + basis
  {
    hide EncodeGaps, EncodeVaruint, Placed;
  }

  /** The first key is at most the second, number by number. */
  predicate KeyAtMost(x: seq<nat>, y: seq<nat>)
    requires |x| == |y|
  {
    x == [] || x[0] < y[0] || (x[0] == y[0] && KeyAtMost(x[1..], y[1..]))
  }

  /** The five costs of an entrant and its place. */
  function KeyOf(e: Entrant): (key: seq<nat>)
    ensures |key| == 6
  {
    [e.totalCost, e.containerSize, |e.plan.residuals|, e.decodeCost, TransformCost(e.transform), e.index]
  }

  lemma KeyStep(x: seq<nat>, y: seq<nat>)
    requires |x| == |y| > 0
    ensures KeyAtMost(x, y) <==> x[0] < y[0] || (x[0] == y[0] && KeyAtMost(x[1..], y[1..]))
  {
  }

  lemma {:induction false} NotBeatenWins(a: Entrant, b: Entrant)
    requires !Beats(b, a)
    ensures KeyAtMost(KeyOf(a), KeyOf(b))
  {
    hide KeyAtMost, TransformCost;
    var (x, y) := (KeyOf(a), KeyOf(b));
    EmptyKeys();
    KeyStep(x[5..], y[5..]);
    assert x[5..][1..] == [] && y[5..][1..] == [];
    KeyFrom(x, y, 4);
    KeyFrom(x, y, 3);
    KeyFrom(x, y, 2);
    KeyFrom(x, y, 1);
    KeyFrom(x, y, 0);
    assert x[0..] == x && y[0..] == y;
  }

  lemma EmptyKeys()
    ensures KeyAtMost([], [])
  {
  }

  lemma KeyFrom(x: seq<nat>, y: seq<nat>, k: nat)
    requires |x| == |y| && k < |x|
    ensures KeyAtMost(x[k..], y[k..]) <==> x[k] < y[k] || (x[k] == y[k] && KeyAtMost(x[k + 1..], y[k + 1..]))
  {
    assert x[k..][1..] == x[k + 1..] && y[k..][1..] == y[k + 1..];
  }

  /** The winner's key is at most that of every transform: total cost, size, residuals, decoding, transform, place. */
  lemma WinnerIsLeast(data: Bytes, i: nat, sha: Sha)
    requires i < |TRANSFORM_ORDER|
    ensures KeyAtMost(KeyOf(Winner(data, |TRANSFORM_ORDER|, sha)), KeyOf(EntrantOf(data, i, sha)))
  {
    hide EntrantOf, Winner, Beats, KeyAtMost, KeyOf;
    WinnerUnbeaten(data, |TRANSFORM_ORDER|, sha, i);
    NotBeatenWins(Winner(data, |TRANSFORM_ORDER|, sha), EntrantOf(data, i, sha));
  }

  // ------------------------------------------------- the chosen chunk size

  /** The container is at most the other: by residuals, then chunks, then chunk size. */
  predicate NoLarger(a: Container, b: Container) {
    || a.totalResiduals < b.totalResiduals
    || (a.totalResiduals == b.totalResiduals
        && (a.chunkCount < b.chunkCount || (a.chunkCount == b.chunkCount && a.chunkSize <= b.chunkSize)))
  }

  /** The selected size is the least of the four, by residuals, then chunks, then size. */
  lemma {:induction false} AdaptiveIsLeast(data: Bytes, n: nat, i: nat, tournament: bool, sha: Sha)
    requires i < n <= |CANDIDATE_CHUNK_SIZES|
    ensures NoLarger(Build(data, AdaptiveSize(data, n, tournament, sha), tournament, sha),
                     Build(data, CANDIDATE_CHUNK_SIZES[i], tournament, sha))
  {
    hide Build;
    if n > 1 {
      AdaptiveIsLeast(data, n - 1, if i < n - 1 then i else 0, tournament, sha);
    }
  }
}
