/**
 The two encodings of a chunk's residuals (bogvm/container.py): gaps between offsets, and a bitmask of
 offsets followed by the bytes.
 */
module ResidualCodec {
  import opened Wrappers
  import opened Powers
  import opened ByteStrings
  import opened Optimizer
  import opened Reader

  /** Offsets strictly increase from `next` on and stay below `length`. */
  predicate Placed(residuals: seq<Patch>, next: nat, length: nat) {
    residuals == []
    || (next <= residuals[0].offset < length && Placed(residuals[1..], residuals[0].offset + 1, length))
  }

  lemma {:induction false} PlacedBounds(residuals: seq<Patch>, next: nat, length: nat)
    requires Placed(residuals, next, length)
    ensures forall k :: 0 <= k < |residuals| ==> next <= residuals[k].offset < length
    ensures WellPlaced(residuals, length)
  {
    if residuals != [] {
      PlacedBounds(residuals[1..], residuals[0].offset + 1, length);
      assert residuals == [residuals[0]] + residuals[1..];
    }
  }

  lemma {:induction false} WellPlacedIsPlaced(residuals: seq<Patch>, next: nat, length: nat)
    requires WellPlaced(residuals, length)
    requires residuals != [] ==> next <= residuals[0].offset
    ensures Placed(residuals, next, length)
  {
    if residuals != [] {
      WellPlacedIsPlaced(residuals[1..], residuals[0].offset + 1, length);
    }
  }

  /** There is room for at most one patch an offset. */
  lemma {:induction false} PlacedCount(residuals: seq<Patch>, next: nat, length: nat)
    requires Placed(residuals, next, length)
    ensures residuals != [] ==> |residuals| <= length - next
  {
    if residuals != [] {
      PlacedCount(residuals[1..], residuals[0].offset + 1, length);
    }
  }

  // ------------------------------------------------- gaps

  /** `next` is one more than the previous offset, and 0 at the start. */
  function EncodeGaps(residuals: seq<Patch>, next: nat, length: nat): Bytes
    requires Placed(residuals, next, length)
  {
    if residuals == [] then []
    else
      EncodeVaruint(residuals[0].offset - next) + [residuals[0].value]
      + EncodeGaps(residuals[1..], residuals[0].offset + 1, length)
  }

  function ParsePatch(s: Bytes, next: nat, length: nat): (r: Parsed<Patch>)
    ensures r.Ok? ==> next <= r.value.0.offset < length
  {
    var (gap, afterGap) :- ParseVaruint(s);
    if next + gap >= length then Err(ResidualOffsetRange)
    else
      var (value, rest) :- ParseByte(afterGap);
      Ok((Patch(next + gap, value), rest))
  }

  function ParseGaps(s: Bytes, count: nat, next: nat, length: nat): (r: Parsed<seq<Patch>>)
    ensures r.Ok? ==> |r.value.0| == count && Placed(r.value.0, next, length)
    decreases count
  {
    if count == 0 then Ok(([], s))
    else
      var (patch, afterPatch) :- ParsePatch(s, next, length);
      var (others, rest) :- ParseGaps(afterPatch, count - 1, patch.offset + 1, length);
      Ok(([patch] + others, rest))
  }

  /** The reader of one patch accepts exactly the encodings of patches in range. */
  lemma PatchExact(s: Bytes, next: nat, length: nat, patch: Patch, rest: Bytes)
    requires length <= VARUINT_LIMIT
    ensures ParsePatch(s, next, length) == Ok((patch, rest))
       <==> next <= patch.offset < length && s == EncodeVaruint(patch.offset - next) + ([patch.value] + rest)
  {
    hide ParseVaruint, EncodeVaruint;
    if ParsePatch(s, next, length) == Ok((patch, rest)) {
      var (gap, afterGap) := ParseVaruint(s).value;
      VaruintExact(s, gap, afterGap);
      assert afterGap == [patch.value] + rest;
    }
    if next <= patch.offset < length && s == EncodeVaruint(patch.offset - next) + ([patch.value] + rest) {
      VaruintExact(s, patch.offset - next, [patch.value] + rest);
      assert ([patch.value] + rest)[1..] == rest;
    }
  }

  /** The gap reader accepts exactly the encodings of residual lists. */
  lemma {:induction false} GapsExact(s: Bytes, count: nat, next: nat, length: nat, residuals: seq<Patch>, rest: Bytes)
    requires length <= VARUINT_LIMIT
    ensures ParseGaps(s, count, next, length) == Ok((residuals, rest))
       <==> |residuals| == count && Placed(residuals, next, length) && s == EncodeGaps(residuals, next, length) + rest
    decreases count
  {
    hide ParsePatch, EncodeVaruint;
    if count == 0 || |residuals| != count {
      assert [] + rest == rest;
    } else {
      var patch := residuals[0];
      assert residuals == [patch] + residuals[1..];
      if ParseGaps(s, count, next, length) == Ok((residuals, rest)) {
        var s1 := ParsePatch(s, next, length).value.1;
        PatchExact(s, next, length, patch, s1);
        GapsExact(s1, count - 1, patch.offset + 1, length, residuals[1..], rest);
        GapsConcat(residuals, next, length, rest);
      }
      if Placed(residuals, next, length) && s == EncodeGaps(residuals, next, length) + rest {
        var s1 := EncodeGaps(residuals[1..], patch.offset + 1, length) + rest;
        GapsConcat(residuals, next, length, rest);
        PatchExact(s, next, length, patch, s1);
        GapsExact(s1, count - 1, patch.offset + 1, length, residuals[1..], rest);
      }
    }
  }

  lemma GapsConcat(residuals: seq<Patch>, next: nat, length: nat, rest: Bytes)
    requires residuals != [] && Placed(residuals, next, length)
    ensures var patch := residuals[0];
            EncodeGaps(residuals, next, length) + rest
            == EncodeVaruint(patch.offset - next)
               + ([patch.value] + (EncodeGaps(residuals[1..], patch.offset + 1, length) + rest))
  {
    hide EncodeVaruint;
  }

  method AppendGaps(output: Bytes, residuals: seq<Patch>, length: nat) returns (out: Bytes)
    requires Placed(residuals, 0, length)
    ensures out == output + EncodeGaps(residuals, 0, length)
  {
    hide EncodeVaruint;
    out := output;
    var previous: int := -1;
    for i := 0 to |residuals|
      invariant previous >= -1
      invariant Placed(residuals[i..], previous + 1, length)
      invariant out + EncodeGaps(residuals[i..], previous + 1, length) == output + EncodeGaps(residuals, 0, length)
    {
      var patch := residuals[i];
      assert residuals[i..][0] == patch && residuals[i..][1..] == residuals[i + 1..];
      var gap := WriteVaruint(if previous < 0 then patch.offset else patch.offset - previous - 1);
      out := out + gap;
      out := out + [patch.value];
      previous := patch.offset;
    }
  }

  // ------------------------------------------------- bitmask

  /** Whether bit k of a number is set (`m & (1 << k)`). */
  predicate Bit(m: nat, k: nat) {
    if k == 0 then m % 2 == 1 else Bit(m / 2, k - 1)
  }

  /** `m | (1 << k)`. */
  function SetBit(m: nat, k: nat): nat {
    if k == 0 then m - m % 2 + 1 else 2 * SetBit(m / 2, k - 1) + m % 2
  }

  /** `m >> k`. */
  function ShiftRight(m: nat, k: nat): nat {
    if k == 0 then m else ShiftRight(m / 2, k - 1)
  }

  predicate HasOffset(residuals: seq<Patch>, offset: nat) {
    exists k :: 0 <= k < |residuals| && residuals[k].offset == offset
  }

  /** The number whose bit k says whether offset `base + k` is patched. */
  function MaskBits(residuals: seq<Patch>, base: nat, width: nat): (r: nat)
    ensures r < Pow(2, width)
    decreases width
  {
    if width == 0 then 0
    else (if HasOffset(residuals, base) then 1 else 0) + 2 * MaskBits(residuals, base + 1, width - 1)
  }

  function MaskSize(length: nat): nat {
    (length + 7) / 8
  }

  function Mask(residuals: seq<Patch>, length: nat): (r: Bytes)
    ensures |r| == MaskSize(length)
  {
    assert Pow(2, 8) == 256;
    seq(MaskSize(length), j requires 0 <= j < MaskSize(length) => MaskBits(residuals, 8 * j, 8))
  }

  function Values(residuals: seq<Patch>): (r: Bytes)
    ensures |r| == |residuals|
  {
    seq(|residuals|, i requires 0 <= i < |residuals| => residuals[i].value)
  }

  function EncodeBitmask(residuals: seq<Patch>, length: nat): Bytes {
    Mask(residuals, length) + Values(residuals)
  }

  /** The offsets below n whose bit is set, in increasing order. */
  function MaskOffsets(mask: Bytes, n: nat): (r: seq<nat>)
    requires MaskSize(n) <= |mask|
    ensures |r| <= n
    ensures forall k :: 0 <= k < |r| ==> r[k] < n
    ensures forall j, k :: 0 <= j < k < |r| ==> r[j] < r[k]
  {
    if n == 0 then []
    else MaskOffsets(mask, n - 1) + if Bit(mask[(n - 1) / 8], (n - 1) % 8) then [n - 1] else []
  }

  /** Bits of the last mask byte that belong to no offset. */
  predicate UnusedBitsSet(mask: Bytes, length: nat)
    requires |mask| == MaskSize(length)
  {
    length % 8 != 0 && mask != [] && ShiftRight(mask[|mask| - 1], length % 8) != 0
  }

  function ZipPatches(offsets: seq<nat>, values: Bytes): (r: seq<Patch>)
    requires |offsets| == |values|
    ensures |r| == |offsets|
  {
    seq(|offsets|, i requires 0 <= i < |offsets| => Patch(offsets[i], values[i]))
  }

  function ParseBitmask(s: Bytes, count: nat, length: nat): (r: Parsed<seq<Patch>>)
    ensures r.Ok? ==> |r.value.0| == count && Placed(r.value.0, 0, length)
  {
    var (mask, afterMask) :- ParseBytes(s, MaskSize(length));
    if UnusedBitsSet(mask, length) then Err(BitmaskOutsideChunk)
    else
      var offsets := MaskOffsets(mask, length);
      if |offsets| != count then Err(BitmaskCountMismatch)
      else
        var (values, rest) :- ParseBytes(afterMask, count);
        WellPlacedIsPlaced(ZipPatches(offsets, values), 0, length);
        Ok((ZipPatches(offsets, values), rest))
  }

  lemma {:induction false} BitOfMask(residuals: seq<Patch>, base: nat, width: nat, k: nat)
    requires k < width
    ensures Bit(MaskBits(residuals, base, width), k) <==> HasOffset(residuals, base + k)
    decreases width
  {
    if k > 0 {
      BitOfMask(residuals, base + 1, width - 1, k - 1);
      assert MaskBits(residuals, base, width) / 2 == MaskBits(residuals, base + 1, width - 1);
    }
  }

  /** The mask has no bits past the last patched offset. */
  lemma {:induction false} MaskTopClear(residuals: seq<Patch>, base: nat, width: nat, k: nat)
    requires forall offset :: base + k <= offset ==> !HasOffset(residuals, offset)
    ensures ShiftRight(MaskBits(residuals, base, width), k) == 0
    decreases width + k
  {
    hide HasOffset;
    if k > 0 {
      if width > 0 {
        MaskTopClear(residuals, base + 1, width - 1, k - 1);
        assert MaskBits(residuals, base, width) / 2 == MaskBits(residuals, base + 1, width - 1);
      } else {
        MaskTopClear(residuals, base + 1, 0, k - 1);
      }
    } else if width > 0 {
      MaskTopClear(residuals, base + 1, width - 1, 0);
    }
  }

  function Offsets(residuals: seq<Patch>): (r: seq<nat>)
    ensures |r| == |residuals|
  {
    seq(|residuals|, i requires 0 <= i < |residuals| => residuals[i].offset)
  }

  lemma MaskBitIsOffset(residuals: seq<Patch>, length: nat, offset: nat)
    requires offset < length
    ensures offset / 8 < MaskSize(length)
    ensures Bit(Mask(residuals, length)[offset / 8], offset % 8) <==> HasOffset(residuals, offset)
  {
    BitOfMask(residuals, 8 * (offset / 8), 8, offset % 8);
  }

  /** Scanning the mask finds the patched offsets again: below n, those of the first k patches. */
  lemma {:induction false} ScanFindsOffsets(residuals: seq<Patch>, length: nat, n: nat, k: nat)
    requires WellPlaced(residuals, length)
    requires n <= length && k <= |residuals|
    requires forall i :: 0 <= i < k ==> residuals[i].offset < n
    requires forall i :: k <= i < |residuals| ==> residuals[i].offset >= n
    ensures MaskOffsets(Mask(residuals, length), n) == Offsets(residuals[..k])
    decreases n
  {
    hide Mask, Bit;
    if n > 0 {
      MaskBitIsOffset(residuals, length, n - 1);
      if HasOffset(residuals, n - 1) {
        assert k > 0 && residuals[k - 1].offset == n - 1;
        ScanFindsOffsets(residuals, length, n - 1, k - 1);
        assert Offsets(residuals[..k]) == Offsets(residuals[..k - 1]) + [n - 1];
      } else {
        ScanFindsOffsets(residuals, length, n - 1, k);
      }
    }
  }

  lemma EncodedMaskIsClean(residuals: seq<Patch>, length: nat)
    requires WellPlaced(residuals, length)
    ensures !UnusedBitsSet(Mask(residuals, length), length)
  {
    if length % 8 != 0 {
      var last := MaskSize(length) - 1;
      assert 8 * last + length % 8 == length;
      forall offset | 8 * last + length % 8 <= offset
        ensures !HasOffset(residuals, offset)
      {
      }
      MaskTopClear(residuals, 8 * last, 8, length % 8);
    }
  }

  lemma ParsesBitmask(residuals: seq<Patch>, length: nat, rest: Bytes)
    requires Placed(residuals, 0, length)
    ensures ParseBitmask(EncodeBitmask(residuals, length) + rest, |residuals|, length) == Ok((residuals, rest))
  {
    hide Mask, UnusedBitsSet, Placed;
    PlacedBounds(residuals, 0, length);
    EncodedMaskIsClean(residuals, length);
    ScanFindsOffsets(residuals, length, length, |residuals|);
    assert residuals[..|residuals|] == residuals;
    var mask, values := Mask(residuals, length), Values(residuals);
    assert EncodeBitmask(residuals, length) + rest == mask + (values + rest);
    assert (mask + (values + rest))[..|mask|] == mask && (mask + (values + rest))[|mask|..] == values + rest;
    assert (values + rest)[..|values|] == values && (values + rest)[|values|..] == rest;
    assert ZipPatches(Offsets(residuals), values) == residuals;
  }

  // ------------------------------------------------- the choice between them

  datatype ResidualEncoding = GapList | Bitmask

  function BestEncoding(residuals: seq<Patch>, length: nat): ResidualEncoding
    requires Placed(residuals, 0, length)
  {
    if residuals == [] then GapList
    else if MaskSize(length) + |residuals| < |EncodeGaps(residuals, 0, length)| then Bitmask
    else GapList
  }

  function EncodeResiduals(residuals: seq<Patch>, length: nat): Bytes
    requires Placed(residuals, 0, length)
  {
    match BestEncoding(residuals, length)
    case GapList => EncodeGaps(residuals, 0, length)
    case Bitmask => EncodeBitmask(residuals, length)
  }

  function ParseResiduals(s: Bytes, encoding: ResidualEncoding, count: nat, length: nat): (r: Parsed<seq<Patch>>)
    ensures r.Ok? ==> |r.value.0| == count && Placed(r.value.0, 0, length)
  {
    if count > length then Err(ResidualCountTooLarge)
    else match encoding
      case GapList => ParseGaps(s, count, 0, length)
      case Bitmask => ParseBitmask(s, count, length)
  }

  /** Whichever encoding is chosen, reading it returns the residuals. */
  lemma ResidualsRoundTrip(residuals: seq<Patch>, length: nat, rest: Bytes)
    requires Placed(residuals, 0, length)
    requires length <= VARUINT_LIMIT
    ensures ParseResiduals(EncodeResiduals(residuals, length) + rest, BestEncoding(residuals, length),
                           |residuals|, length) == Ok((residuals, rest))
  {
    hide Placed, ParseGaps, ParseBitmask, EncodeGaps, EncodeBitmask;
    PlacedCount(residuals, 0, length);
    GapsExact(EncodeGaps(residuals, 0, length) + rest, |residuals|, 0, length, residuals, rest);
    ParsesBitmask(residuals, length, rest);
  }

  // ------------------------------------------------- the loops of the program

  lemma HasOffsetAdd(residuals: seq<Patch>, p: Patch, offset: nat)
    ensures HasOffset(residuals + [p], offset) <==> HasOffset(residuals, offset) || p.offset == offset
  {
    if HasOffset(residuals, offset) {
      var k :| 0 <= k < |residuals| && residuals[k].offset == offset;
      assert (residuals + [p])[k].offset == offset;
    }
    if p.offset == offset {
      assert (residuals + [p])[|residuals|].offset == offset;
    }
  }

  /** One more patch sets one more bit. */
  lemma {:induction false} MaskBitsAdd(residuals: seq<Patch>, p: Patch, base: nat, width: nat)
    ensures MaskBits(residuals + [p], base, width)
         == if base <= p.offset < base + width then SetBit(MaskBits(residuals, base, width), p.offset - base)
            else MaskBits(residuals, base, width)
    decreases width
  {
    hide HasOffset;
    if width > 0 {
      HasOffsetAdd(residuals, p, base);
      MaskBitsAdd(residuals, p, base + 1, width - 1);
    }
  }

  lemma MaskAdd(residuals: seq<Patch>, p: Patch, length: nat)
    requires p.offset < length
    ensures p.offset / 8 < MaskSize(length)
    ensures 0 <= SetBit(Mask(residuals, length)[p.offset / 8], p.offset % 8) < 256
    ensures Mask(residuals + [p], length)
         == Mask(residuals, length)[p.offset / 8 := SetBit(Mask(residuals, length)[p.offset / 8], p.offset % 8)]
  {
    hide MaskBits, SetBit;
    forall j | 0 <= j < MaskSize(length)
      ensures MaskBits(residuals + [p], 8 * j, 8)
           == if j == p.offset / 8 then SetBit(MaskBits(residuals, 8 * j, 8), p.offset % 8)
              else MaskBits(residuals, 8 * j, 8)
    {
      MaskBitsAdd(residuals, p, 8 * j, 8);
    }
    assert Mask(residuals + [p], length)[p.offset / 8] < 256;
  }

  lemma EmptyMask(base: nat, width: nat)
    ensures MaskBits([], base, width) == 0
    decreases width
  {
  }

  method AppendBitmask(output: Bytes, length: nat, residuals: seq<Patch>) returns (out: Bytes)
    requires Placed(residuals, 0, length)
    ensures out == output + EncodeBitmask(residuals, length)
  {
    PlacedBounds(residuals, 0, length);
    var mask := new byte[MaskSize(length)](_ => 0);
    forall j | 0 <= j < mask.Length
      ensures MaskBits([], 8 * j, 8) == 0
    {
      EmptyMask(8 * j, 8);
    }
    assert mask[..] == Mask([], length);
    for i := 0 to |residuals|
      invariant mask[..] == Mask(residuals[..i], length)
    {
      var offset := residuals[i].offset;
      MaskAdd(residuals[..i], residuals[i], length);
      assert residuals[..i + 1] == residuals[..i] + [residuals[i]];
      mask[offset / 8] := SetBit(mask[offset / 8], offset % 8);
    }
    assert residuals[..|residuals|] == residuals;
    out := output + mask[..];
    for i := 0 to |residuals|
      invariant out == output + Mask(residuals, length) + Values(residuals[..i])
    {
      out := out + [residuals[i].value];
    }
  }

  method ReadPatch(reader: ByteReader, next: nat, length: nat) returns (r: Result<Patch, ContainerError>)
    requires reader.Valid()
    modifies reader`offset
    ensures reader.Valid()
    ensures Follows(ParsePatch(old(reader.Rest()), next, length), r, reader.Rest())
  {
    hide ParseVaruint;
    var gap :- reader.ReadVaruint();
    if next + gap >= length {
      return Err(ResidualOffsetRange);
    }
    var value :- reader.ReadByte();
    r := Ok(Patch(next + gap, value));
  }

  /** One turn of the gap reader's loop. */
  lemma GapsStep(soFar: seq<Patch>, s: Bytes, count: nat, next: nat, length: nat)
    requires count > 0
    ensures var all := Prepended(soFar, ParseGaps(s, count, next, length));
            match ParsePatch(s, next, length)
            case Err(e) => all == Err(e)
            case Ok((patch, s1)) =>
              all == Prepended(soFar + [patch], ParseGaps(s1, count - 1, patch.offset + 1, length))
  {
    hide ParsePatch, Placed;
    if ParsePatch(s, next, length).Ok? {
      var (patch, s1) := ParsePatch(s, next, length).value;
      PrependTwice(soFar, [patch], ParseGaps(s1, count - 1, patch.offset + 1, length));
    }
  }

  lemma NoGaps(soFar: seq<Patch>, s: Bytes, next: nat, length: nat)
    ensures Prepended(soFar, ParseGaps(s, 0, next, length)) == Ok((soFar, s))
  {
    assert soFar + [] == soFar;
  }

  method ReadGaps(reader: ByteReader, count: nat, length: nat) returns (r: Result<seq<Patch>, ContainerError>)
    requires reader.Valid()
    modifies reader`offset
    ensures reader.Valid()
    ensures Follows(ParseResiduals(old(reader.Rest()), GapList, count, length), r, reader.Rest())
  {
    hide ParsePatch, ParseGaps, Prepended, Placed;
    if count > length {
      return Err(ResidualCountTooLarge);
    }
    ghost var parsed := ParseGaps(reader.Rest(), count, 0, length);
    PrependNothing(parsed);
    var residuals: seq<Patch> := [];
    var previous: int := -1;
    for i := 0 to count
      invariant reader.Valid() && previous >= -1
      invariant Prepended(residuals, ParseGaps(reader.Rest(), count - i, previous + 1, length)) == parsed
    {
      GapsStep(residuals, reader.Rest(), count - i, previous + 1, length);
      var patch :- ReadPatch(reader, previous + 1, length);
      residuals := residuals + [patch];
      previous := patch.offset;
    }
    NoGaps(residuals, reader.Rest(), previous + 1, length);
    r := Ok(residuals);
  }

  method ReadValues(reader: ByteReader, offsets: seq<nat>) returns (r: Result<seq<Patch>, ContainerError>)
    requires reader.Valid()
    modifies reader`offset
    ensures reader.Valid()
    ensures match ParseBytes(old(reader.Rest()), |offsets|)
            case Ok((values, rest)) => r == Ok(ZipPatches(offsets, values)) && reader.Rest() == rest
            case Err(e) => r == Err(e)
  {
    ghost var s := reader.Rest();
    var residuals: seq<Patch> := [];
    for i := 0 to |offsets|
      invariant reader.Valid()
      invariant i <= |s| && reader.Rest() == s[i..]
      invariant residuals == ZipPatches(offsets[..i], s[..i])
    {
      var value :- reader.ReadByte();
      residuals := residuals + [Patch(offsets[i], value)];
    }
    assert offsets[..|offsets|] == offsets;
    r := Ok(residuals);
  }

  method ReadBitmask(reader: ByteReader, count: nat, length: nat) returns (r: Result<seq<Patch>, ContainerError>)
    requires reader.Valid()
    modifies reader`offset
    ensures reader.Valid()
    ensures Follows(ParseResiduals(old(reader.Rest()), Bitmask, count, length), r, reader.Rest())
  {
    hide MaskOffsets, UnusedBitsSet, MaskSize, Placed;
    if count > length {
      return Err(ResidualCountTooLarge);
    }
    var mask :- reader.ReadBytes(MaskSize(length));
    if UnusedBitsSet(mask, length) {
      return Err(BitmaskOutsideChunk);
    }
    var offsets := MaskOffsets(mask, length);
    if |offsets| != count {
      return Err(BitmaskCountMismatch);
    }
    r := ReadValues(reader, offsets);
  }
}
