/**
 The language of the BOGPK decoder (bogvm/container.py): exactly which byte strings decode, and to what. A string
 decodes to a container if and only if it is the header of that container, items that name its chunks one by one or in
 runs, and the residuals of every chunk in the form its item names, with nothing left over.
 */
module FormatLanguage {
  import opened Wrappers
  import opened Powers
  import opened ByteStrings
  import opened Transforms
  import opened Bases
  import opened Optimizer
  import opened Reader
  import opened ResidualCodec
  import opened Containers
  import opened Bogpk
  import opened BogpkProofs

  // ------------------------------------------------- bitmasks

  lemma {:induction false} SameBits(a: nat, b: nat, width: nat)
    requires a < Pow(2, width) && b < Pow(2, width) && forall k: nat :: k < width ==> (Bit(a, k) <==> Bit(b, k))
    ensures a == b
  {
    if width > 0 {
      forall k: nat | k < width - 1
        ensures Bit(a / 2, k) <==> Bit(b / 2, k)
      {
        assert Bit(a, k + 1) <==> Bit(b, k + 1);
      }
      SameBits(a / 2, b / 2, width - 1);
      assert Bit(a, 0) <==> Bit(b, 0);
    }
  }

  lemma {:induction false} ShiftedClear(m: nat, k: nat, j: nat)
    requires ShiftRight(m, k) == 0 && k <= j
    ensures !Bit(m, j)
  {
    if k > 0 {
      ShiftedClear(m / 2, k - 1, j - 1);
    } else {
      ZeroBits(j);
    }
  }

  lemma {:induction false} ZeroBits(j: nat)
    ensures !Bit(0, j)
  {
    if j > 0 {
      ZeroBits(j - 1);
    }
  }

  lemma {:induction false} ScanMeans(mask: Bytes, n: nat, offset: nat)
    requires MaskSize(n) <= |mask|
    ensures offset in MaskOffsets(mask, n) <==> offset < n && Bit(mask[offset / 8], offset % 8)
  {
    hide Bit;
    if n > 0 {
      ScanMeans(mask, n - 1, offset);
    }
  }

  lemma ZippedOffsets(offsets: seq<nat>, values: Bytes, offset: nat)
    requires |offsets| == |values|
    ensures HasOffset(ZipPatches(offsets, values), offset) <==> offset in offsets
  {
    if offset in offsets {
      var k :| 0 <= k < |offsets| && offsets[k] == offset;
      assert ZipPatches(offsets, values)[k].offset == offset;
    }
  }

  /** A mask without bits past the length is the mask of the offsets it sets. */
  lemma MaskIsOf(mask: Bytes, length: nat, values: Bytes)
    requires |mask| == MaskSize(length) && !UnusedBitsSet(mask, length) && |MaskOffsets(mask, length)| == |values|
    ensures mask == Mask(ZipPatches(MaskOffsets(mask, length), values), length)
  {
    hide MaskOffsets, ZipPatches, HasOffset, MaskBits, UnusedBitsSet;
    var residuals := ZipPatches(MaskOffsets(mask, length), values);
    assert Pow(2, 8) == 256;
    forall j | 0 <= j < |mask|
      ensures mask[j] == MaskBits(residuals, 8 * j, 8)
    {
      forall k: nat | k < 8
        ensures Bit(mask[j], k) <==> Bit(MaskBits(residuals, 8 * j, 8), k)
      {
        BitOfMask(residuals, 8 * j, 8, k);
        ScanMeans(mask, length, 8 * j + k);
        ZippedOffsets(MaskOffsets(mask, length), values, 8 * j + k);
        assert (8 * j + k) / 8 == j && (8 * j + k) % 8 == k;
        if 8 * j + k >= length {
          UnusedClear(mask, length, j, k);
        }
      }
      SameBits(mask[j], MaskBits(residuals, 8 * j, 8), 8);
    }
  }

  lemma UnusedClear(mask: Bytes, length: nat, j: nat, k: nat)
    requires |mask| == MaskSize(length) && !UnusedBitsSet(mask, length) && j < |mask| && k < 8 && 8 * j + k >= length
    ensures !Bit(mask[j], k)
  {
    hide Bit, ShiftRight;
    assert j == |mask| - 1 && length % 8 != 0 && length % 8 <= k;
    ShiftedClear(mask[j], length % 8, k);
  }

  lemma ZippedValues(offsets: seq<nat>, values: Bytes)
    requires |offsets| == |values|
    ensures Values(ZipPatches(offsets, values)) == values
  {
  }

  /** The bitmask reader accepts exactly the masks of residual lists, with their values. */
  lemma BitmaskExact(s: Bytes, count: nat, length: nat, residuals: seq<Patch>, rest: Bytes)
    ensures ParseBitmask(s, count, length) == Ok((residuals, rest))
       <==> |residuals| == count && Placed(residuals, 0, length) && s == EncodeBitmask(residuals, length) + rest
  {
    hide MaskOffsets, ZipPatches, UnusedBitsSet, Placed, Mask, Values, MaskSize;
    if ParseBitmask(s, count, length) == Ok((residuals, rest)) {
      var (mask, afterMask) := ParseBytes(s, MaskSize(length)).value;
      var offsets := MaskOffsets(mask, length);
      var (values, _) := ParseBytes(afterMask, count).value;
      MaskIsOf(mask, length, values);
      ZippedValues(offsets, values);
      assert s == mask + (values + rest) == (mask + values) + rest;
    }
    if |residuals| == count && Placed(residuals, 0, length) && s == EncodeBitmask(residuals, length) + rest {
      ParsesBitmask(residuals, length, rest);
    }
  }

  /** The residuals of a chunk in a given form. */
  function EncodedAs(encoding: ResidualEncoding, residuals: seq<Patch>, length: nat): Bytes
    requires Placed(residuals, 0, length)
  {
    match encoding
    case GapList => EncodeGaps(residuals, 0, length)
    case Bitmask => EncodeBitmask(residuals, length)
  }

  lemma ResidualsExact(s: Bytes, encoding: ResidualEncoding, count: nat, length: nat, residuals: seq<Patch>, rest: Bytes)
    requires length <= VARUINT_LIMIT
    ensures ParseResiduals(s, encoding, count, length) == Ok((residuals, rest))
       <==> |residuals| == count && Placed(residuals, 0, length) && s == EncodedAs(encoding, residuals, length) + rest
  {
    hide ParseGaps, ParseBitmask, EncodeGaps, EncodeBitmask, Placed;
    if Placed(residuals, 0, length) {
      PlacedCount(residuals, 0, length);
    }
    GapsExact(s, count, 0, length, residuals, rest);
    BitmaskExact(s, count, length, residuals, rest);
  }

  // ------------------------------------------------- items

  /** One descriptor with its count, or a run of one without residuals. */
  datatype Item = Single(d: Descriptor) | Run(d: Descriptor, n: nat)

  function Fixed(d: Descriptor): Bytes {
    [DescriptorByte(d.transform, d.basis, d.encoding), d.start, d.delta]
  }

  function ItemBytes(item: Item): Bytes {
    match item
    case Single(d) => Fixed(d) + (EncodeParam(d.transform, d.param) + EncodeVaruint(d.residualCount))
    case Run(d, n) => [SENTINEL] + (EncodeVaruint(n) + (Fixed(d) + EncodeParam(d.transform, d.param)))
  }

  function ItemsBytes(items: seq<Item>): Bytes {
    if items == [] then [] else ItemBytes(items[0]) + ItemsBytes(items[1..])
  }

  function Expand(item: Item): (r: seq<Descriptor>) {
    match item
    case Single(d) => [d]
    case Run(d, n) => Repeat(d, n)
  }

  /** The descriptors of the chunks, runs spelled out. */
  function Expanded(items: seq<Item>): seq<Descriptor> {
    if items == [] then [] else Expand(items[0]) + Expanded(items[1..])
  }

  predicate ItemOk(item: Item, runs: bool) {
    && item.d.param < VARUINT_LIMIT && (!UsesBwt(item.d.transform) ==> item.d.param == 0)
    && match item
       case Single(d) => d.residualCount < VARUINT_LIMIT
       case Run(d, n) => runs && 2 <= n < VARUINT_LIMIT && d.residualCount == 0
  }

  predicate ItemsOk(items: seq<Item>, runs: bool) {
    forall i :: 0 <= i < |items| ==> ItemOk(items[i], runs)
  }

  lemma SingleParses(d: Descriptor, runs: bool, tail: Bytes, left: nat)
    requires ItemOk(Single(d), runs) && left >= 1 && ParseDescriptors(tail, runs, left - 1).Ok?
    ensures var (others, rest) := ParseDescriptors(tail, runs, left - 1).value;
            ParseDescriptors(ItemBytes(Single(d)) + tail, runs, left) == Ok(([d] + others, rest))
  {
    hide DecodeDescriptor, EncodeParam, EncodeVaruint, ParseVaruint, ParseParam, ParseDescriptor;
    var value := DescriptorByte(d.transform, d.basis, d.encoding);
    var afterParam := EncodeVaruint(d.residualCount) + tail;
    var afterFixed := EncodeParam(d.transform, d.param) + afterParam;
    var s := ItemBytes(Single(d)) + tail;
    assert s == [value, d.start, d.delta] + afterFixed;
    ParsesThree(value, d.start, d.delta, afterFixed);
    ParsesParam(d.transform, d.param, d.basis, d.encoding, afterParam);
    VaruintExact(afterParam, d.residualCount, tail);
    ParsesDescriptor(d.transform, d.basis, d.encoding, d.start, d.delta, d.param, d.residualCount);
  }

  lemma RunParses(d: Descriptor, n: nat, tail: Bytes, left: nat)
    requires ItemOk(Run(d, n), true) && n <= left && ParseDescriptors(tail, true, left - n).Ok?
    ensures var (others, rest) := ParseDescriptors(tail, true, left - n).value;
            ParseDescriptors(ItemBytes(Run(d, n)) + tail, true, left) == Ok((Repeat(d, n) + others, rest))
  {
    hide DescriptorByte, DecodeDescriptor, EncodeParam, EncodeVaruint, ParseVaruint, ParseParam, ParseDescriptor;
    var value := DescriptorByte(d.transform, d.basis, d.encoding);
    var afterParam := EncodeParam(d.transform, d.param) + tail;
    var afterRun := [value, d.start, d.delta] + afterParam;
    var s := ItemBytes(Run(d, n)) + tail;
    assert s[1..] == EncodeVaruint(n) + afterRun;
    VaruintExact(s[1..], n, afterRun);
    ParsesThree(value, d.start, d.delta, afterParam);
    ParsesParam(d.transform, d.param, d.basis, d.encoding, tail);
    ParsesDescriptor(d.transform, d.basis, d.encoding, d.start, d.delta, d.param, 0);
  }

  lemma ItemParses(item: Item, runs: bool, tail: Bytes, left: nat)
    requires ItemOk(item, runs) && |Expand(item)| <= left && ParseDescriptors(tail, runs, left - |Expand(item)|).Ok?
    ensures var (others, rest) := ParseDescriptors(tail, runs, left - |Expand(item)|).value;
            ParseDescriptors(ItemBytes(item) + tail, runs, left) == Ok((Expand(item) + others, rest))
  {
    hide ParseDescriptors, ItemBytes;
    match item
    case Single(d) => SingleParses(d, runs, tail, left);
    case Run(d, n) => RunParses(d, n, tail, left);
  }

  lemma {:induction false} ItemsParse(items: seq<Item>, runs: bool, rest: Bytes)
    requires ItemsOk(items, runs)
    ensures ParseDescriptors(ItemsBytes(items) + rest, runs, |Expanded(items)|) == Ok((Expanded(items), rest))
  {
    hide ParseDescriptors, ItemBytes, ItemOk, Expand;
    if items == [] {
      NothingToParse(rest, runs);
      assert [] + rest == rest;
    } else {
      ItemsParse(items[1..], runs, rest);
      ItemParses(items[0], runs, ItemsBytes(items[1..]) + rest, |Expanded(items)|);
      assert ItemsBytes(items) + rest == ItemBytes(items[0]) + (ItemsBytes(items[1..]) + rest);
    }
  }

  lemma DecodedByte(value: byte, start: byte, delta: byte, param: nat, count: nat)
    requires DecodeDescriptor(value, start, delta, param, count).Ok?
    ensures var d := DecodeDescriptor(value, start, delta, param, count).value;
            && value == DescriptorByte(d.transform, d.basis, d.encoding) && d.transform == TRANSFORM_ORDER[value / 32]
            && d.start == start && d.delta == delta && d.param == param && d.residualCount == count
  {
    var d := DecodeDescriptor(value, start, delta, param, count).value;
    OrdersDiffer(d.transform, value / 32, d.basis, value / 2 % 16);
    assert value == 32 * (value / 32) + 2 * (value / 2 % 16) + value % 2;
  }

  lemma OrdersDiffer(t: Transform, i: nat, basis: Basis, j: nat)
    requires i < 7 && j < 9 && TRANSFORM_ORDER[i] == t && BASIS_ORDER[j] == basis
    ensures TransformIndex(t) == i && BasisIndex(basis) == j
  {
  }

  lemma ParsedParam(s: Bytes, value: byte, d: Descriptor)
    requires ParseParam(s, value).Ok? && value / 32 < 7 && d.transform == TRANSFORM_ORDER[value / 32] && d.param == ParseParam(s, value).value.0
    ensures s == EncodeParam(d.transform, d.param) + ParseParam(s, value).value.1
    ensures d.param < VARUINT_LIMIT && (!UsesBwt(d.transform) ==> d.param == 0)
  {
    hide ParseVaruint, EncodeVaruint;
    var (param, rest) := ParseParam(s, value).value;
    if UsesBwt(d.transform) {
      VaruintExact(s, param, rest);
    } else {
      LimitIsLarge();
      assert [] + s == s;
    }
  }

  lemma LimitIsLarge()
    ensures VARUINT_LIMIT > 128
  {
    PowMonotone(128, 2, 10);
    assert Pow(128, 2) == 128 * Pow(128, 1) && Pow(128, 1) == 128 * Pow(128, 0);
  }

  lemma ParsedThree(s: Bytes)
    requires ParseDescriptor(s).Ok?
    ensures var (d, rest) := ParseDescriptor(s).value; s == [d.0, d.1, d.2] + rest
  {
  }

  lemma ParsedSingle(s: Bytes, runs: bool, left: nat)
    requires left > 0 && s != [] && s[0] != SENTINEL && ParseDescriptors(s, runs, left).Ok?
    ensures var (d, s2) := ParseDescriptor(s).value;
            && ParseDescriptor(s).Ok? && ParseParam(s2, s[0]).Ok? && d.0 == s[0]
            && (var (param, s3) := ParseParam(s2, s[0]).value;
                && ParseVaruint(s3).Ok?
                && (var (count, s4) := ParseVaruint(s3).value;
                    && DecodeDescriptor(s[0], d.1, d.2, param, count).Ok? && ParseDescriptors(s4, runs, left - 1).Ok?
                    && ParseDescriptors(s, runs, left)
                       == Ok(([DecodeDescriptor(s[0], d.1, d.2, param, count).value] + ParseDescriptors(s4, runs, left - 1).value.0,
                              ParseDescriptors(s4, runs, left - 1).value.1))))
  {
    hide ParseVaruint, ParseParam, DecodeDescriptor;
  }

  lemma ParsedRun(s: Bytes, runs: bool, left: nat)
    requires left > 0 && s != [] && s[0] == SENTINEL && ParseDescriptors(s, runs, left).Ok?
    ensures runs && ParseVaruint(s[1..]).Ok?
    ensures var (run, s2) := ParseVaruint(s[1..]).value;
            && 2 <= run <= left && ParseDescriptor(s2).Ok?
            && (var (d, s3) := ParseDescriptor(s2).value;
                && ParseParam(s3, d.0).Ok?
                && (var (param, s4) := ParseParam(s3, d.0).value;
                    && DecodeDescriptor(d.0, d.1, d.2, param, 0).Ok? && ParseDescriptors(s4, runs, left - run).Ok?
                    && ParseDescriptors(s, runs, left)
                       == Ok((Repeat(DecodeDescriptor(d.0, d.1, d.2, param, 0).value, run) + ParseDescriptors(s4, runs, left - run).value.0,
                              ParseDescriptors(s4, runs, left - run).value.1))))
  {
    hide ParseVaruint, ParseParam, DecodeDescriptor, ParseDescriptor;
  }

  lemma FirstRun(s: Bytes, runs: bool, left: nat) returns (item: Item, rest: Bytes)
    requires left > 0 && s != [] && s[0] == SENTINEL && ParseDescriptors(s, runs, left).Ok?
    ensures ItemOk(item, runs) && |Expand(item)| <= left && s == ItemBytes(item) + rest
    ensures ParseDescriptors(rest, runs, left - |Expand(item)|).Ok?
    ensures var (others, after) := ParseDescriptors(rest, runs, left - |Expand(item)|).value;
            ParseDescriptors(s, runs, left) == Ok((Expand(item) + others, after))
  {
    hide ParseVaruint, EncodeVaruint, ParseParam, EncodeParam, DecodeDescriptor, ParseDescriptor, DescriptorByte, ParseDescriptors, Repeat, ItemBytes;
    ParsedRun(s, runs, left);
    var (run, s2) := ParseVaruint(s[1..]).value;
    var (d, s3) := ParseDescriptor(s2).value;
    var (param, s4) := ParseParam(s3, d.0).value;
    var descriptor := DecodeDescriptor(d.0, d.1, d.2, param, 0).value;
    item, rest := Run(descriptor, run), s4;
    VaruintExact(s[1..], run, s2);
    ParsedThree(s2);
    DecodedByte(d.0, d.1, d.2, param, 0);
    DecodedIndex(d.0, d.1, d.2, param, 0);
    ParsedParam(s3, d.0, descriptor);
    RunBytes(s, descriptor, run, s2, s3, s4);
    RepeatCount(descriptor, run);
  }

  lemma FirstSingle(s: Bytes, runs: bool, left: nat) returns (item: Item, rest: Bytes)
    requires left > 0 && s != [] && s[0] != SENTINEL && ParseDescriptors(s, runs, left).Ok?
    ensures ItemOk(item, runs) && |Expand(item)| <= left && s == ItemBytes(item) + rest
    ensures ParseDescriptors(rest, runs, left - |Expand(item)|).Ok?
    ensures var (others, after) := ParseDescriptors(rest, runs, left - |Expand(item)|).value;
            ParseDescriptors(s, runs, left) == Ok((Expand(item) + others, after))
  {
    hide ParseVaruint, EncodeVaruint, ParseParam, EncodeParam, DecodeDescriptor, ParseDescriptor, DescriptorByte, ParseDescriptors, Repeat, ItemBytes;
    ParsedSingle(s, runs, left);
    var (d, s2) := ParseDescriptor(s).value;
    var (param, s3) := ParseParam(s2, s[0]).value;
    var (count, s4) := ParseVaruint(s3).value;
    var descriptor := DecodeDescriptor(s[0], d.1, d.2, param, count).value;
    item, rest := Single(descriptor), s4;
    VaruintExact(s3, count, s4);
    ParsedThree(s);
    DecodedByte(s[0], d.1, d.2, param, count);
    DecodedIndex(s[0], d.1, d.2, param, count);
    ParsedParam(s2, s[0], descriptor);
    SingleBytes(s, descriptor, s2, s3, s4);
  }

  lemma ExpandsToSome(item: Item, runs: bool)
    requires ItemOk(item, runs)
    ensures |Expand(item)| > 0
  {
  }

  /** Whatever the descriptor loop accepts is a list of items. */
  lemma {:induction false} ParsedItems(s: Bytes, runs: bool, left: nat) returns (items: seq<Item>)
    requires ParseDescriptors(s, runs, left).Ok?
    ensures ItemsOk(items, runs) && Expanded(items) == ParseDescriptors(s, runs, left).value.0
    ensures |Expanded(items)| == left && s == ItemsBytes(items) + ParseDescriptors(s, runs, left).value.1
    decreases left
  {
    hide ParseDescriptors, ItemBytes, Expand, ItemOk;
    if left == 0 {
      items := [];
      NothingToParse(s, runs);
      assert [] + s == s;
    } else {
      SomethingThere(s, runs, left);
      var item, rest;
      if s[0] == SENTINEL {
        item, rest := FirstRun(s, runs, left);
      } else {
        item, rest := FirstSingle(s, runs, left);
      }
      ExpandsToSome(item, runs);
      var others := ParsedItems(rest, runs, left - |Expand(item)|);
      items := [item] + others;
      ConsItems(item, others, runs);
      assert s == ItemBytes(item) + (ItemsBytes(others) + ParseDescriptors(rest, runs, left - |Expand(item)|).value.1);
    }
  }

  lemma SomethingThere(s: Bytes, runs: bool, left: nat)
    requires left > 0 && ParseDescriptors(s, runs, left).Ok?
    ensures s != []
  {
  }

  lemma DecodedIndex(value: byte, start: byte, delta: byte, param: nat, count: nat)
    requires DecodeDescriptor(value, start, delta, param, count).Ok?
    ensures value / 32 < 7
  {
  }

  lemma RepeatCount(d: Descriptor, n: nat)
    ensures |Repeat(d, n)| == n
  {
  }

  lemma RunBytes(s: Bytes, d: Descriptor, n: nat, s2: Bytes, s3: Bytes, s4: Bytes)
    requires s != [] && s[0] == SENTINEL && s[1..] == EncodeVaruint(n) + s2 && s2 == Fixed(d) + s3 && s3 == EncodeParam(d.transform, d.param) + s4
    ensures s == ItemBytes(Run(d, n)) + s4
  {
    hide EncodeVaruint, EncodeParam, Fixed;
    assert s == [SENTINEL] + s[1..];
    assert s2 == (Fixed(d) + EncodeParam(d.transform, d.param)) + s4;
    assert s[1..] == (EncodeVaruint(n) + (Fixed(d) + EncodeParam(d.transform, d.param))) + s4;
  }

  lemma SingleBytes(s: Bytes, d: Descriptor, s2: Bytes, s3: Bytes, s4: Bytes)
    requires s == Fixed(d) + s2 && s2 == EncodeParam(d.transform, d.param) + s3 && s3 == EncodeVaruint(d.residualCount) + s4
    ensures s == ItemBytes(Single(d)) + s4
  {
    hide EncodeVaruint, EncodeParam, Fixed;
    assert s2 == (EncodeParam(d.transform, d.param) + EncodeVaruint(d.residualCount)) + s4;
  }

  lemma ConsItems(item: Item, others: seq<Item>, runs: bool)
    ensures ItemsOk([item] + others, runs) <==> ItemOk(item, runs) && ItemsOk(others, runs)
    ensures Expanded([item] + others) == Expand(item) + Expanded(others)
    ensures ItemsBytes([item] + others) == ItemBytes(item) + ItemsBytes(others)
  {
    hide ItemOk, Expand, ItemBytes;
    var all := [item] + others;
    assert all[1..] == others;
    if ItemsOk(all, runs) {
      assert ItemOk(all[0], runs);
      forall i | 0 <= i < |others|
        ensures ItemOk(others[i], runs)
      {
        assert ItemOk(all[i + 1], runs);
      }
    }
  }

  // ------------------------------------------------- the header

  lemma {:induction false} UnhexHex(data: Bytes)
    ensures FromHex(ToHex(data)) == data
  {
    if data != [] {
      var (high, low) := (HexDigit(data[0] / 16), HexDigit(data[0] % 16));
      assert ToHex(data)[..2] == [high, low] && ToHex(data)[2..] == ToHex(data[1..]);
      DigitReads(data[0] / 16);
      DigitReads(data[0] % 16);
      UnhexHex(data[1..]);
      assert data == [data[0]] + data[1..];
    }
  }

  lemma DigitReads(value: nat)
    requires value < 16
    ensures HexValue(HexDigit(value)) == value
  {
  }

  lemma ParsedFlags(s: Bytes)
    requires ParseFlags(s).Ok?
    ensures var ((runs, size), rest) := ParseFlags(s).value;
            s == BOGPK_MAGIC + ([BOGPK_VERSION, if runs then FLAG_ZERO_RUNS else 0, SizeCode(size)] + rest)
  {
    var ((runs, size), rest) := ParseFlags(s).value;
    var (magic, s1) := ParseBytes(s, |BOGPK_MAGIC|).value;
    assert s1 == [s1[0], s1[1], s1[2]] + rest;
    assert s1[2] == SizeCode(size);
    assert s1[1] == if runs then FLAG_ZERO_RUNS else 0;
  }

  /** Whatever the header reader accepts is the header of what it returns. */
  lemma HeaderExact(s: Bytes)
    requires ParseHeader(s).Ok?
    ensures var (h, rest) := ParseHeader(s).value;
            && h.chunkSize in CANDIDATE_CHUNK_SIZES && IsSha256(h.wholeSha)
            && s == EncodeHeader(h.runs, h.chunkSize, h.originalLength, h.chunkCount, h.totalResiduals, h.wholeSha) + rest
  {
    hide ParseFlags, ParseVaruint, EncodeVaruint, FromHex, ToHex, SizeCode, AllHex;
    var ((runs, size), s1) := ParseFlags(s).value;
    var (length, s2) := ParseVaruint(s1).value;
    var (count, s3) := ParseVaruint(s2).value;
    var (total, s4) := ParseVaruint(s3).value;
    var (digest, rest) := ParseBytes(s4, 32).value;
    ParsedFlags(s);
    VaruintExact(s1, length, s2);
    VaruintExact(s2, count, s3);
    VaruintExact(s3, total, s4);
    UnhexHex(digest);
    assert s4 == digest + rest;
    Reassociate(BOGPK_MAGIC, [BOGPK_VERSION, if runs then FLAG_ZERO_RUNS else 0, SizeCode(size)],
                EncodeVaruint(length), EncodeVaruint(count), EncodeVaruint(total), digest, rest);
  }

  // ------------------------------------------------- chunks

  /** The descriptor of a chunk, with either form of its residuals. */
  predicate Describes(d: Descriptor, chunk: Chunk) {
    && d.transform == chunk.transform && d.basis == chunk.basis && d.start == chunk.start && d.delta == chunk.delta
    && d.param == chunk.param && d.residualCount == |chunk.residuals|
  }

  predicate AllDescribe(ds: seq<Descriptor>, chunks: seq<Chunk>) {
    |ds| == |chunks| && forall k :: 0 <= k < |ds| ==> Describes(ds[k], chunks[k])
  }

  /** The residuals of the chunks one after the other, each in the form its descriptor names. */
  function SectionAs(ds: seq<Descriptor>, chunks: seq<Chunk>): Bytes
    requires |ds| == |chunks| && AllPlaced(chunks)
  {
    if chunks == [] then []
    else EncodedAs(ds[0].encoding, chunks[0].residuals, chunks[0].length) + SectionAs(ds[1..], chunks[1..])
  }

  lemma PlacedCons(chunks: seq<Chunk>)
    requires chunks != []
    ensures AllPlaced(chunks) <==> Placed(chunks[0].residuals, 0, chunks[0].length) && AllPlaced(chunks[1..])
  {
    hide Placed;
    assert chunks == [chunks[0]] + chunks[1..];
  }

  lemma DescribeCons(ds: seq<Descriptor>, chunks: seq<Chunk>)
    requires |ds| == |chunks| > 0
    ensures AllDescribe(ds, chunks) <==> Describes(ds[0], chunks[0]) && AllDescribe(ds[1..], chunks[1..])
  {
    hide Describes;
    assert chunks == [chunks[0]] + chunks[1..] && ds == [ds[0]] + ds[1..];
  }

  lemma ChunkParses(chunk: Chunk, d: Descriptor, index: nat, h: Header, rest: Bytes, sha: Sha)
    requires Encodable(chunk) && Faithful(chunk, sha) && Describes(d, chunk)
    requires chunk.index == index && chunk.offset == index * h.chunkSize && DecodedChunkLength(index, h) == Ok(chunk.length)
    ensures ParseChunk(EncodedAs(d.encoding, chunk.residuals, chunk.length) + rest, d, index, h, sha) == Ok(((chunk, Original(chunk)), rest))
  {
    hide Placed, EncodedAs, ParseResiduals, Invert, Transformed, DecodedChunkLength;
    ResidualsExact(EncodedAs(d.encoding, chunk.residuals, chunk.length) + rest, d.encoding, d.residualCount, chunk.length, chunk.residuals, rest);
  }

  lemma {:induction false} ChunksParse(chunks: seq<Chunk>, ds: seq<Descriptor>, index: nat, h: Header, rest: Bytes, sha: Sha)
    requires CanonicalChunks(chunks, index, h.chunkSize, sha) && AllEncodable(chunks) && AllDescribe(ds, chunks)
    requires index + |chunks| == h.chunkCount && (chunks != [] ==> index * h.chunkSize + TotalLength(chunks) == h.originalLength)
    ensures AllPlaced(chunks)
    ensures ParseChunks(SectionAs(ds, chunks) + rest, ds, index, h, sha) == Ok(((chunks, Originals(chunks, index, h.chunkSize, sha)), rest))
    decreases |chunks|
  {
    hide Placed, EncodedAs, ParseChunk, Original, AllEncodable, AllPlaced, DecodedChunkLength, AllDescribe, Describes;
    if chunks == [] {
      NothingLeft(rest);
      SameCount(ds, chunks);
      assert SectionAs(ds, chunks) + rest == rest;
    } else {
      var head := chunks[0];
      AllEncodableCons(chunks);
      SameCount(ds, chunks);
      DescribeCons(ds, chunks);
      OneMore(index, h.chunkSize);
      ChunksParse(chunks[1..], ds[1..], index + 1, h, rest, sha);
      LengthOfHead(chunks, index, h, sha);
      ChunkParses(head, ds[0], index, h, SectionAs(ds[1..], chunks[1..]) + rest, sha);
      assert SectionAs(ds, chunks) + rest
          == EncodedAs(ds[0].encoding, head.residuals, head.length) + (SectionAs(ds[1..], chunks[1..]) + rest);
      assert chunks == [head] + chunks[1..];
    }
  }

  lemma SameCount(ds: seq<Descriptor>, chunks: seq<Chunk>)
    requires AllDescribe(ds, chunks)
    ensures |ds| == |chunks|
  {
  }

  lemma ParsedChunkExact(s: Bytes, d: Descriptor, index: nat, h: Header, sha: Sha)
    requires h.chunkSize in CANDIDATE_CHUNK_SIZES && ParseChunk(s, d, index, h, sha).Ok?
    ensures var ((chunk, original), rest) := ParseChunk(s, d, index, h, sha).value;
            && Describes(d, chunk) && Placed(chunk.residuals, 0, chunk.length)
            && s == EncodedAs(d.encoding, chunk.residuals, chunk.length) + rest
  {
    hide Placed, EncodedAs, ParseResiduals, Invert, Transformed;
    var length := DecodedChunkLength(index, h).value;
    var (residuals, rest) := ParseResiduals(s, d.encoding, d.residualCount, length).value;
    LimitIsLarge();
    ResidualsExact(s, d.encoding, d.residualCount, length, residuals, rest);
  }

  lemma {:induction false} ParsedSection(s: Bytes, ds: seq<Descriptor>, index: nat, h: Header, sha: Sha)
    requires h.chunkSize in CANDIDATE_CHUNK_SIZES && ParseChunks(s, ds, index, h, sha).Ok?
    ensures var ((chunks, originals), rest) := ParseChunks(s, ds, index, h, sha).value;
            AllDescribe(ds, chunks) && AllPlaced(chunks) && |ds| == |chunks| && s == SectionAs(ds, chunks) + rest
    decreases |ds|
  {
    hide ParseChunk, Describes, EncodedAs, Placed, AllDescribe, AllPlaced;
    if ds == [] {
      NothingDescribed();
      assert [] + s == s;
    } else {
      var ((chunk, original), s1) := ParseChunk(s, ds[0], index, h, sha).value;
      var ((chunks, originals), rest) := ParseChunks(s1, ds[1..], index + 1, h, sha).value;
      ParsedChunkExact(s, ds[0], index, h, sha);
      ParsedSection(s1, ds[1..], index + 1, h, sha);
      assert ([chunk] + chunks)[1..] == chunks;
      PlacedCons([chunk] + chunks);
      DescribeCons(ds, [chunk] + chunks);
      assert s == EncodedAs(ds[0].encoding, chunk.residuals, chunk.length) + (SectionAs(ds[1..], chunks) + rest);
    }
  }

  lemma NothingDescribed()
    ensures AllDescribe([], []) && AllPlaced([])
  {
  }

  // ------------------------------------------------- the language

  /** The string is a writing of the container: its header, items that expand to its chunks, and their residuals. */
  ghost predicate Writes(s: Bytes, c: Container, runs: bool, items: seq<Item>) {
    && c.chunkSize in CANDIDATE_CHUNK_SIZES && IsSha256(c.wholeSha) && AllPlaced(c.chunks)
    && ItemsOk(items, runs) && AllDescribe(Expanded(items), c.chunks)
    && s == EncodeHeader(runs, c.chunkSize, TotalLength(c.chunks), c.chunkCount, c.totalResiduals, c.wholeSha)
            + (ItemsBytes(items) + SectionAs(Expanded(items), c.chunks))
  }

  lemma WritingDecodes(s: Bytes, c: Container, runs: bool, items: seq<Item>, sha: Sha)
    requires Canonical(c, sha) && Writes(s, c, runs, items)
    ensures Decode(s, sha) == Ok(c)
  {
    hide EncodeHeader, ParseHeader, ParseDescriptors, ParseChunks, CanonicalChunks, ChunksOk, AllPlaced, AllEncodable, ItemsOk, ItemsBytes,
         Expanded, SectionAs, AllDescribe, ExpectedChunkCount, IsSha256, TotalLength, TotalResiduals;
    CanonicalCount(c, sha);
    var ds := Expanded(items);
    var h := Header(runs, c.chunkSize, TotalLength(c.chunks), c.chunkCount, c.totalResiduals, c.wholeSha);
    SameCount(ds, c.chunks);
    NoLength(c, sha);
    ChunksParse(c.chunks, ds, 0, h, [], sha);
    var section := SectionAs(ds, c.chunks);
    assert section + [] == section;
    ItemsParse(items, runs, section);
    ParsesHeader(runs, h.chunkSize, h.originalLength, h.chunkCount, h.totalResiduals, h.wholeSha, ItemsBytes(items) + section);
  }

  lemma NoLength(c: Container, sha: Sha)
    requires Canonical(c, sha)
    ensures 0 * c.chunkSize + TotalLength(c.chunks) == TotalLength(c.chunks) && |c.chunks| == c.chunkCount
    ensures TotalResiduals(c.chunks) == c.totalResiduals
  {
    hide CanonicalChunks, ChunksOk;
  }

  lemma DecodedIsWriting(s: Bytes, sha: Sha) returns (runs: bool, items: seq<Item>)
    requires HexHash(sha) && Decode(s, sha).Ok?
    ensures Writes(s, Decode(s, sha).value, runs, items)
  {
    hide ParseHeader, ParseDescriptors, ParseChunks, EncodeHeader, ItemsOk, ItemsBytes, Expanded, SectionAs, AllDescribe, AllPlaced,
         IsSha256, HexHash, TotalLength, TotalResiduals, CanonicalChunks;
    var c := Decode(s, sha).value;
    var (h, s1) := ParseHeader(s).value;
    var (ds, s2) := ParseDescriptors(s1, h.runs, h.chunkCount).value;
    var ((chunks, originals), rest) := ParseChunks(s2, ds, 0, h, sha).value;
    HeaderExact(s);
    runs := h.runs;
    items := ParsedItems(s1, h.runs, h.chunkCount);
    ParsedSection(s2, ds, 0, h, sha);
    ParsedHeader(s);
    ParsedDescriptors(s1, h.runs, h.chunkCount);
    ParsedChunks(s2, ds, 0, h, sha);
    WholeLength(chunks, h, sha);
    assert rest == [] && SectionAs(ds, chunks) + [] == SectionAs(ds, chunks);
  }

  lemma WholeLength(chunks: seq<Chunk>, h: Header, sha: Sha)
    requires |chunks| == h.chunkCount && (h.originalLength == 0 <==> h.chunkCount == 0)
    requires chunks != [] ==> 0 * h.chunkSize + TotalLength(chunks) == h.originalLength
    ensures TotalLength(chunks) == h.originalLength
  {
  }

  /**
   What the decoder accepts: a string decodes to a container exactly when the container is canonical and the string
   writes it, as header, items and residuals, with or without runs, each list of residuals in either form.
   */
  lemma DecodesExactly(s: Bytes, c: Container, sha: Sha)
    requires HexHash(sha)
    ensures Decode(s, sha) == Ok(c) <==> Canonical(c, sha) && exists runs, items :: Writes(s, c, runs, items)
  {
    hide Decode, Canonical, Writes;
    if Decode(s, sha) == Ok(c) {
      DecodedIsCanonical(s, sha);
      var runs, items := DecodedIsWriting(s, sha);
    }
    if Canonical(c, sha) && exists runs, items :: Writes(s, c, runs, items) {
      var runs, items :| Writes(s, c, runs, items);
      WritingDecodes(s, c, runs, items, sha);
    }
  }
}
