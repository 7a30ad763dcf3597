/**
 The seven reversible chunk transforms (bogvm/transforms.py) and the proof that each is undone by
 `Invert`. The loops of the program are methods proved against the functions above them.
 */
module Transforms {
  import opened Wrappers
  import opened Powers
  import opened Sorting
  import opened ByteStrings

  datatype Transform =
    | Identity | XorPrevious | DeltaPrevious | NibbleSplit | Mtf | Bwt | BwtMtf

  const TRANSFORM_ORDER: seq<Transform> :=
    [Identity, XorPrevious, DeltaPrevious, NibbleSplit, Mtf, Bwt, BwtMtf]

  predicate UsesBwt(t: Transform) {
    t.Bwt? || t.BwtMtf?
  }

  datatype TransformError = BwtEmptyIndex | BwtIndexRange

  // ------------------------------------------------- xor with the previous byte

  /** Bitwise exclusive or of the `width` low bits, one bit at a time. */
  function XorBits(a: nat, b: nat, width: nat): (r: nat)
    ensures r < Pow(2, width)
  {
    if width == 0 then 0
    else (a % 2 + b % 2) % 2 + 2 * XorBits(a / 2, b / 2, width - 1)
  }

  lemma BitCancels(p: nat, q: nat)
    requires p < 2 && q < 2
    ensures ((p + q) % 2 + q) % 2 == p
  {
  }

  lemma {:induction false} XorCancels(a: nat, b: nat, width: nat)
    requires a < Pow(2, width)
    ensures XorBits(XorBits(a, b, width), b, width) == a
  {
    if width > 0 {
      var x := XorBits(a, b, width);
      XorCancels(a / 2, b / 2, width - 1);
      BitCancels(a % 2, b % 2);
      assert x % 2 == (a % 2 + b % 2) % 2;
      assert x / 2 == XorBits(a / 2, b / 2, width - 1);
      assert a == 2 * (a / 2) + a % 2;
    }
  }

  function Xor(a: byte, b: byte): byte {
    assert Pow(2, 8) == 256;
    XorBits(a, b, 8)
  }

  lemma XorUndoesXor(a: byte, b: byte)
    ensures Xor(Xor(a, b), b) == a
  {
    assert Pow(2, 8) == 256;
    XorCancels(a, b, 8);
  }

  function XorWithPrevious(data: Bytes): Bytes {
    seq(|data|, i requires 0 <= i < |data| => if i == 0 then data[0] else Xor(data[i], data[i - 1]))
  }

  /** Undoing needs the bytes already restored, so it goes from left to right. */
  function XorRestored(data: Bytes): (r: Bytes)
    ensures |r| == |data|
  {
    if data == [] then []
    else
      var k := |data| - 1;
      var r := XorRestored(data[..k]);
      r + [if k == 0 then data[0] else Xor(data[k], r[k - 1])]
  }

  lemma {:induction false} XorRoundTrip(data: Bytes)
    ensures XorRestored(XorWithPrevious(data)) == data
  {
    hide Xor;
    if data != [] {
      var k := |data| - 1;
      assert XorWithPrevious(data)[..k] == XorWithPrevious(data[..k]);
      XorRoundTrip(data[..k]);
      if k > 0 {
        XorUndoesXor(data[k], data[k - 1]);
      }
      assert data == data[..k] + [data[k]];
    }
  }

  method EncodeXorPrevious(data: Bytes) returns (out: Bytes)
    ensures out == XorWithPrevious(data)
  {
    if data == [] {
      return [];
    }
    out := [data[0]];
    for index := 1 to |data|
      invariant out == XorWithPrevious(data[..index])
    {
      out := out + [Xor(data[index], data[index - 1])];
    }
    assert data[..|data|] == data;
  }

  method DecodeXorPrevious(data: Bytes) returns (out: Bytes)
    ensures out == XorRestored(data)
  {
    if data == [] {
      return [];
    }
    out := [data[0]];
    for index := 1 to |data|
      invariant out == XorRestored(data[..index])
    {
      assert data[..index + 1][..index] == data[..index];
      out := out + [Xor(data[index], out[index - 1])];
    }
    assert data[..|data|] == data;
  }

  // ------------------------------------------------- difference from the previous byte

  function DeltaWithPrevious(data: Bytes): Bytes {
    seq(|data|, i requires 0 <= i < |data| => if i == 0 then data[0] else Minus(data[i], data[i - 1]))
  }

  function DeltaRestored(data: Bytes): (r: Bytes)
    ensures |r| == |data|
  {
    if data == [] then []
    else
      var k := |data| - 1;
      var r := DeltaRestored(data[..k]);
      r + [if k == 0 then data[0] else Plus(r[k - 1], data[k])]
  }

  lemma PlusUndoesMinus(a: byte, b: byte)
    ensures Plus(b, Minus(a, b)) == a
  {
    assert Minus(a, b) == if a >= b then a - b else a - b + 256;
  }

  lemma {:induction false} DeltaRoundTrip(data: Bytes)
    ensures DeltaRestored(DeltaWithPrevious(data)) == data
  {
    hide Plus, Minus;
    if data != [] {
      var k := |data| - 1;
      assert DeltaWithPrevious(data)[..k] == DeltaWithPrevious(data[..k]);
      DeltaRoundTrip(data[..k]);
      if k > 0 {
        PlusUndoesMinus(data[k], data[k - 1]);
      }
      assert data == data[..k] + [data[k]];
    }
  }

  method EncodeDeltaPrevious(data: Bytes) returns (out: Bytes)
    ensures out == DeltaWithPrevious(data)
  {
    if data == [] {
      return [];
    }
    out := [data[0]];
    for index := 1 to |data|
      invariant out == DeltaWithPrevious(data[..index])
    {
      out := out + [Minus(data[index], data[index - 1])];
    }
    assert data[..|data|] == data;
  }

  method DecodeDeltaPrevious(data: Bytes) returns (out: Bytes)
    ensures out == DeltaRestored(data)
  {
    if data == [] {
      return [];
    }
    out := [data[0]];
    for index := 1 to |data|
      invariant out == DeltaRestored(data[..index])
    {
      assert data[..index + 1][..index] == data[..index];
      out := out + [Plus(out[index - 1], data[index])];
    }
    assert data[..|data|] == data;
  }

  // ------------------------------------------------- nibble swap

  function SwapNibbles(value: byte): byte {
    (value % 16) * 16 + value / 16
  }

  lemma NibblesSwapBack(value: byte)
    ensures SwapNibbles(SwapNibbles(value)) == value
  {
    var high, low := value / 16, value % 16;
    assert SwapNibbles(value) == low * 16 + high;
    assert (low * 16 + high) % 16 == high && (low * 16 + high) / 16 == low;
  }

  function NibblesSwapped(data: Bytes): Bytes {
    seq(|data|, i requires 0 <= i < |data| => SwapNibbles(data[i]))
  }

  lemma NibblesRoundTrip(data: Bytes)
    ensures NibblesSwapped(NibblesSwapped(data)) == data
  {
    hide SwapNibbles;
    forall i | 0 <= i < |data|
      ensures NibblesSwapped(NibblesSwapped(data))[i] == data[i]
    {
      NibblesSwapBack(data[i]);
    }
  }

  // ------------------------------------------------- move to front

  function InitialAlphabet(): Bytes {
    seq(256, i requires 0 <= i < 256 => i)
  }

  /** The alphabet list is always a rearrangement of all 256 bytes. */
  ghost predicate IsAlphabet(alphabet: Bytes) {
    multiset(alphabet) == multiset(InitialAlphabet())
  }

  lemma InitialIsAlphabet()
    ensures IsAlphabet(InitialAlphabet())
  {
  }

  lemma {:induction false} CountInInitial(n: nat, b: byte)
    requires n <= 256
    ensures multiset(InitialAlphabet()[..n])[b] == if b < n then 1 else 0
  {
    if n > 0 {
      assert InitialAlphabet()[..n] == InitialAlphabet()[..n - 1] + [InitialAlphabet()[n - 1]];
      CountInInitial(n - 1, b);
    }
  }

  /** Every byte occurs in the alphabet list, and occurs once. */
  lemma AlphabetIsPermutation(alphabet: Bytes, b: byte)
    requires IsAlphabet(alphabet)
    ensures |alphabet| == 256
    ensures b in alphabet
    ensures forall i, j :: 0 <= i < j < 256 && alphabet[i] == b ==> alphabet[j] != b
  {
    CountInInitial(256, b);
    assert InitialAlphabet()[..256] == InitialAlphabet();
    assert |alphabet| == |multiset(alphabet)| == |multiset(InitialAlphabet())|;
    assert b in multiset(alphabet);
    forall i, j | 0 <= i < j < 256 && alphabet[i] == b
      ensures alphabet[j] != b
    {
      assert alphabet == alphabet[..j] + [alphabet[j]] + alphabet[j + 1..];
      assert alphabet[i] in alphabet[..j];
    }
  }

  /** `list.index`: the first position of a value. */
  function IndexOf(alphabet: Bytes, value: byte): (i: nat)
    requires value in alphabet
    ensures i < |alphabet| && alphabet[i] == value
    ensures value !in alphabet[..i]
  {
    if alphabet[0] == value then 0 else 1 + IndexOf(alphabet[1..], value)
  }

  /** `pop(index)` followed by `insert(0, value)`; index 0 leaves the list as it is. */
  function MoveToFront(alphabet: Bytes, index: nat): (r: Bytes)
    requires index < |alphabet|
    ensures |r| == |alphabet|
  {
    if index == 0 then alphabet
    else [alphabet[index]] + alphabet[..index] + alphabet[index + 1..]
  }

  lemma MoveToFrontKeepsAlphabet(alphabet: Bytes, index: nat)
    requires IsAlphabet(alphabet) && index < |alphabet|
    ensures IsAlphabet(MoveToFront(alphabet, index))
  {
    assert alphabet == alphabet[..index] + [alphabet[index]] + alphabet[index + 1..];
  }

  function MtfEncodeFrom(alphabet: Bytes, data: Bytes): (r: Bytes)
    requires IsAlphabet(alphabet)
    ensures |r| == |data|
    decreases |data|
  {
    if data == [] then []
    else
      AlphabetIsPermutation(alphabet, data[0]);
      var index := IndexOf(alphabet, data[0]);
      MoveToFrontKeepsAlphabet(alphabet, index);
      [index] + MtfEncodeFrom(MoveToFront(alphabet, index), data[1..])
  }

  function MtfDecodeFrom(alphabet: Bytes, data: Bytes): (r: Bytes)
    requires IsAlphabet(alphabet)
    ensures |r| == |data|
    decreases |data|
  {
    if data == [] then []
    else
      AlphabetIsPermutation(alphabet, 0);
      MoveToFrontKeepsAlphabet(alphabet, data[0]);
      [alphabet[data[0]]] + MtfDecodeFrom(MoveToFront(alphabet, data[0]), data[1..])
  }

  function MtfEncoded(data: Bytes): (r: Bytes)
    ensures |r| == |data|
  {
    MtfEncodeFrom(InitialAlphabet(), data)
  }

  function MtfDecoded(data: Bytes): (r: Bytes)
    ensures |r| == |data|
  {
    MtfDecodeFrom(InitialAlphabet(), data)
  }

  lemma {:induction false} MtfDecodesEncoded(alphabet: Bytes, data: Bytes)
    requires IsAlphabet(alphabet)
    ensures MtfDecodeFrom(alphabet, MtfEncodeFrom(alphabet, data)) == data
    decreases |data|
  {
    if data != [] {
      AlphabetIsPermutation(alphabet, data[0]);
      var index := IndexOf(alphabet, data[0]);
      MoveToFrontKeepsAlphabet(alphabet, index);
      MtfDecodesEncoded(MoveToFront(alphabet, index), data[1..]);
      assert MtfEncodeFrom(alphabet, data)[1..] == MtfEncodeFrom(MoveToFront(alphabet, index), data[1..]);
    }
  }

  lemma {:induction false} MtfEncodesDecoded(alphabet: Bytes, data: Bytes)
    requires IsAlphabet(alphabet)
    ensures MtfEncodeFrom(alphabet, MtfDecodeFrom(alphabet, data)) == data
    decreases |data|
  {
    if data != [] {
      AlphabetIsPermutation(alphabet, 0);
      var value := alphabet[data[0]];
      AlphabetIsPermutation(alphabet, value);
      assert IndexOf(alphabet, value) == data[0];
      MoveToFrontKeepsAlphabet(alphabet, data[0]);
      MtfEncodesDecoded(MoveToFront(alphabet, data[0]), data[1..]);
      assert MtfDecodeFrom(alphabet, data)[1..] == MtfDecodeFrom(MoveToFront(alphabet, data[0]), data[1..]);
    }
  }

  /** Move-to-front is a bijection on strings: each direction undoes the other. */
  lemma MtfRoundTrip(data: Bytes)
    ensures MtfDecoded(MtfEncoded(data)) == data
    ensures MtfEncoded(MtfDecoded(data)) == data
  {
    MtfDecodesEncoded(InitialAlphabet(), data);
    MtfEncodesDecoded(InitialAlphabet(), data);
  }

  method PopInsert(alphabet: Bytes, index: nat) returns (r: Bytes)
    requires index < |alphabet|
    ensures r == MoveToFront(alphabet, index)
  {
    r := alphabet;
    if index != 0 {
      var value := r[index];
      r := r[..index] + r[index + 1..];
      r := [value] + r;
    }
  }

  lemma MtfEncodeStep(soFar: Bytes, alphabet: Bytes, data: Bytes)
    requires IsAlphabet(alphabet) && data != []
    ensures |alphabet| == 256 && data[0] in alphabet
    ensures var index := IndexOf(alphabet, data[0]);
            && IsAlphabet(MoveToFront(alphabet, index))
            && soFar + MtfEncodeFrom(alphabet, data)
               == soFar + [index] + MtfEncodeFrom(MoveToFront(alphabet, index), data[1..])
  {
    hide IsAlphabet;
    AlphabetIsPermutation(alphabet, data[0]);
    MoveToFrontKeepsAlphabet(alphabet, IndexOf(alphabet, data[0]));
  }

  lemma MtfDecodeStep(soFar: Bytes, alphabet: Bytes, data: Bytes)
    requires IsAlphabet(alphabet) && data != []
    ensures |alphabet| == 256
    ensures && IsAlphabet(MoveToFront(alphabet, data[0]))
            && soFar + MtfDecodeFrom(alphabet, data)
               == soFar + [alphabet[data[0]]] + MtfDecodeFrom(MoveToFront(alphabet, data[0]), data[1..])
  {
    hide IsAlphabet;
    AlphabetIsPermutation(alphabet, 0);
    MoveToFrontKeepsAlphabet(alphabet, data[0]);
  }

  lemma MtfNothing(soFar: Bytes, alphabet: Bytes)
    requires IsAlphabet(alphabet)
    ensures soFar + MtfEncodeFrom(alphabet, []) == soFar
    ensures soFar + MtfDecodeFrom(alphabet, []) == soFar
  {
  }

  method EncodeMtf(data: Bytes) returns (encoded: Bytes)
    ensures encoded == MtfEncoded(data)
  {
    hide IsAlphabet, InitialAlphabet, MtfEncodeFrom, MoveToFront;
    var alphabet := InitialAlphabet();
    InitialIsAlphabet();
    encoded := [];
    assert data[0..] == data;
    for i := 0 to |data|
      invariant IsAlphabet(alphabet)
      invariant encoded + MtfEncodeFrom(alphabet, data[i..]) == MtfEncoded(data)
    {
      var value := data[i];
      MtfEncodeStep(encoded, alphabet, data[i..]);
      assert data[i..][0] == value && data[i..][1..] == data[i + 1..];
      var index := IndexOf(alphabet, value);
      encoded := encoded + [index];
      alphabet := PopInsert(alphabet, index);
    }
    MtfNothing(encoded, alphabet);
  }

  method DecodeMtf(data: Bytes) returns (decoded: Bytes)
    ensures decoded == MtfDecoded(data)
  {
    hide IsAlphabet, InitialAlphabet, MtfDecodeFrom, MoveToFront;
    var alphabet := InitialAlphabet();
    InitialIsAlphabet();
    decoded := [];
    assert data[0..] == data;
    for i := 0 to |data|
      invariant IsAlphabet(alphabet)
      invariant decoded + MtfDecodeFrom(alphabet, data[i..]) == MtfDecoded(data)
    {
      var index := data[i];
      MtfDecodeStep(decoded, alphabet, data[i..]);
      assert data[i..][0] == index && data[i..][1..] == data[i + 1..];
      var value := alphabet[index];
      decoded := decoded + [value];
      alphabet := PopInsert(alphabet, index);
    }
    MtfNothing(decoded, alphabet);
  }

  // ------------------------------------------------- Burrows-Wheeler transform

  type Row = (Bytes, nat)

  function Rotation(data: Bytes, i: nat): (r: Bytes)
    requires i <= |data|
    ensures |r| == |data|
  {
    data[i..] + data[..i]
  }

  function RotationRows(data: Bytes): seq<Row> {
    seq(|data|, i requires 0 <= i < |data| => (Rotation(data, i), i))
  }

  /** Python's order on (rotation, index) pairs. */
  predicate RowLe(a: Row, b: Row) {
    if a.0 == b.0 then a.1 <= b.1 else LexLe(a.0, b.0)
  }

  lemma RowLeIsTotalOrder()
    ensures TotalOrder(RowLe)
  {
    LexIsTotalOrder();
  }

  function SortedRows(data: Bytes): (rows: seq<Row>)
    ensures |rows| == |data|
    ensures multiset(rows) == multiset(RotationRows(data))
    ensures forall row :: row in rows ==> row.1 < |data| && row.0 == Rotation(data, row.1)
  {
    SameElements(Sort(RotationRows(data), RowLe), RotationRows(data));
    Sort(RotationRows(data), RowLe)
  }

  /** The rank of the unrotated string among the sorted rows. */
  function RankOfOrigin(rows: seq<Row>): (rank: nat)
    requires exists row :: row in rows && row.1 == 0
    ensures rank < |rows| && rows[rank].1 == 0
  {
    if rows[0].1 == 0 then 0 else 1 + RankOfOrigin(rows[1..])
  }

  function LastColumn(rows: seq<Row>): (r: Bytes)
    requires forall row :: row in rows ==> row.0 != []
    ensures |r| == |rows|
  {
    seq(|rows|, k requires 0 <= k < |rows| => rows[k].0[|rows[k].0| - 1])
  }

  lemma OriginIsARow(data: Bytes)
    requires data != []
    ensures (Rotation(data, 0), 0) in SortedRows(data)
  {
    assert RotationRows(data)[0] == (Rotation(data, 0), 0);
    SameElements(SortedRows(data), RotationRows(data));
  }

  function BwtEncoded(data: Bytes): (r: (Bytes, nat))
    ensures |r.0| == |data|
    ensures data != [] ==> r.1 < |data|
  {
    if data == [] then ([], 0)
    else
      OriginIsARow(data);
      (LastColumn(SortedRows(data)), RankOfOrigin(SortedRows(data)))
  }

  /** The decoder's table after k rounds of prepending the column and sorting. */
  function BwtTable(column: Bytes, k: nat): (table: seq<Bytes>)
    ensures |table| == |column|
    ensures forall row :: row in table ==> |row| == k
  {
    if k == 0 then seq(|column|, _ => [])
    else
      var extended := Extended(column, BwtTable(column, k - 1));
      SameElements(Sort(extended, LexLe), extended);
      Sort(extended, LexLe)
  }

  function Extended(column: Bytes, table: seq<Bytes>): (r: seq<Bytes>)
    requires |table| == |column|
    ensures |r| == |column|
    ensures forall i :: 0 <= i < |r| ==> r[i] == [column[i]] + table[i]
  {
    seq(|column|, i requires 0 <= i < |column| => [column[i]] + table[i])
  }

  function BwtDecoded(column: Bytes, primary: nat): (r: Result<Bytes, TransformError>)
    ensures r.Ok? ==> |r.value| == |column|
  {
    if column == [] then if primary != 0 then Err(BwtEmptyIndex) else Ok([])
    else if primary >= |column| then Err(BwtIndexRange)
    else Ok(BwtTable(column, |column|)[primary])
  }

  method DecodeBwt(column: Bytes, primary: nat) returns (r: Result<Bytes, TransformError>)
    ensures r == BwtDecoded(column, primary)
  {
    var length := |column|;
    if length == 0 {
      if primary != 0 {
        return Err(BwtEmptyIndex);
      }
      return Ok([]);
    }
    if primary >= length {
      return Err(BwtIndexRange);
    }
    var table: seq<Bytes> := seq(length, _ => []);
    for round := 0 to length
      invariant table == BwtTable(column, round)
    {
      table := Sort(Extended(column, table), LexLe);
    }
    return Ok(table[primary]);
  }

  /** The first k bytes of every sorted row, in row order. */
  function Prefixes(rows: seq<Row>, k: nat): (r: seq<Bytes>)
    requires forall row :: row in rows ==> k <= |row.0|
    ensures |r| == |rows|
  {
    seq(|rows|, i requires 0 <= i < |rows| => rows[i].0[..k])
  }

  /** The row one step back in the cycle of rotations: its last byte moved to the front. */
  function Turned(row: Row, n: nat): Row
    requires n > 0 && row.0 != []
  {
    var last := |row.0| - 1;
    ([row.0[last]] + row.0[..last], if row.1 == 0 then n - 1 else row.1 - 1)
  }

  function TurnAll(rows: seq<Row>, n: nat): (r: seq<Row>)
    requires n > 0 && forall row :: row in rows ==> row.0 != []
    ensures |r| == |rows|
    ensures forall i :: 0 <= i < |r| ==> r[i] == Turned(rows[i], n)
  {
    seq(|rows|, i requires 0 <= i < |rows| => Turned(rows[i], n))
  }

  lemma TurnedRotation(data: Bytes, i: nat)
    requires i < |data|
    ensures var j := if i == 0 then |data| - 1 else i - 1;
            Turned((Rotation(data, i), i), |data|) == (Rotation(data, j), j)
  {
    var j := if i == 0 then |data| - 1 else i - 1;
    assert Rotation(data, j) == [data[j]] + Rotation(data, i)[..|data| - 1];
  }

  lemma RowsAre(data: Bytes)
    ensures |RotationRows(data)| == |data|
    ensures forall i :: 0 <= i < |data| ==> RotationRows(data)[i] == (Rotation(data, i), i)
    ensures forall row :: row in RotationRows(data) ==> |row.0| == |data|
  {
  }

  lemma TurnedListIsShifted(data: Bytes)
    requires data != []
    ensures var all := RotationRows(data);
            TurnAll(all, |data|) == [all[|data| - 1]] + all[..|data| - 1]
  {
    hide Turned, Rotation, TurnAll, RotationRows;
    var n := |data|;
    var all := RotationRows(data);
    RowsAre(data);
    forall i | 0 <= i < n
      ensures TurnAll(all, n)[i] == ([all[n - 1]] + all[..n - 1])[i]
    {
      TurnedRotation(data, i);
    }
  }

  /** Turning permutes the rotations, in whatever order they are listed. */
  lemma TurnPermutes(data: Bytes, rows: seq<Row>)
    requires data != []
    requires multiset(rows) == multiset(RotationRows(data))
    requires forall row :: row in rows ==> row.0 != []
    ensures multiset(TurnAll(rows, |data|)) == multiset(rows)
  {
    hide Turned, Rotation;
    var n := |data|;
    var all := RotationRows(data);
    var f := (row: Row) => if row.0 == [] then row else Turned(row, n);
    MapPermutes(f, rows, all);
    assert Map(f, rows) == TurnAll(rows, n);
    assert Map(f, all) == TurnAll(all, n);
    TurnedListIsShifted(data);
    assert all == all[..n - 1] + [all[n - 1]];
  }

  lemma PrefixesPermute(s: seq<Row>, t: seq<Row>, k: nat)
    requires multiset(s) == multiset(t)
    requires forall row :: row in s ==> k <= |row.0|
    requires forall row :: row in t ==> k <= |row.0|
    ensures multiset(Prefixes(s, k)) == multiset(Prefixes(t, k))
  {
    var f := (row: Row) => if k <= |row.0| then row.0[..k] else [];
    MapPermutes(f, s, t);
    assert Map(f, s) == Prefixes(s, k);
    assert Map(f, t) == Prefixes(t, k);
  }

  lemma PrefixesSorted(data: Bytes, k: nat)
    requires k <= |data|
    ensures Sorted(Prefixes(SortedRows(data), k), LexLe)
  {
    var rows := SortedRows(data);
    RowLeIsTotalOrder();
    SortSorted(RotationRows(data), RowLe);
    LexIsTotalOrder();
    forall i, j | 0 <= i < j < |rows|
      ensures LexLe(rows[i].0[..k], rows[j].0[..k])
    {
      assert rows[i] in rows && rows[j] in rows && RowLe(rows[i], rows[j]);
      LexPrefix(rows[i].0, rows[j].0, k);
    }
  }

  lemma ExtendedIsTurned(rows: seq<Row>, n: nat, k: nat)
    requires k < n
    requires forall row :: row in rows ==> |row.0| == n
    requires forall row :: row in TurnAll(rows, n) ==> |row.0| == n
    ensures Extended(LastColumn(rows), Prefixes(rows, k)) == Prefixes(TurnAll(rows, n), k + 1)
  {
    forall i | 0 <= i < |rows|
      ensures Extended(LastColumn(rows), Prefixes(rows, k))[i] == Prefixes(TurnAll(rows, n), k + 1)[i]
    {
      assert rows[i] in rows;
    }
  }

  /** One round on the prefixes of the sorted rows: prepend the last column, sort, and get prefixes again. */
  lemma RoundExtendsPrefixes(data: Bytes, rows: seq<Row>, k: nat)
    requires data != [] && k < |data|
    requires multiset(rows) == multiset(RotationRows(data))
    requires forall row :: row in rows ==> |row.0| == |data|
    requires Sorted(Prefixes(rows, k + 1), LexLe)
    ensures Sort(Extended(LastColumn(rows), Prefixes(rows, k)), LexLe) == Prefixes(rows, k + 1)
  {
    hide *;
    var turned := TurnAll(rows, |data|);
    TurnPermutes(data, rows);
    SameElements(turned, rows);
    ExtendedIsTurned(rows, |data|, k);
    PrefixesPermute(turned, rows, k + 1);
    LexIsTotalOrder();
    SortIsSortedRearrangement(Prefixes(turned, k + 1), Prefixes(rows, k + 1), LexLe);
  }

  /** After k rounds the decoder's table holds the k-byte prefixes of the sorted rotations. */
  lemma {:induction false} TableHoldsPrefixes(data: Bytes, k: nat)
    requires data != [] && k <= |data|
    ensures BwtTable(BwtEncoded(data).0, k) == Prefixes(SortedRows(data), k)
  {
    if k > 0 {
      TableHoldsPrefixes(data, k - 1);
      PrefixesSorted(data, k);
      RoundExtendsPrefixes(data, SortedRows(data), k - 1);
    }
  }

  /** The Burrows-Wheeler transform is undone by its decoder on every string, periodic ones included. */
  lemma BwtRoundTrip(data: Bytes)
    ensures BwtDecoded(BwtEncoded(data).0, BwtEncoded(data).1) == Ok(data)
  {
    if data != [] {
      var rows := SortedRows(data);
      var (column, primary) := BwtEncoded(data);
      TableHoldsPrefixes(data, |data|);
      assert rows[primary] in rows;
      assert Prefixes(rows, |data|)[primary] == Rotation(data, 0) == data;
    }
  }

  // ------------------------------------------------- the seven transforms together

  function Apply(t: Transform, data: Bytes): (r: (Bytes, nat))
    ensures |r.0| == |data|
    ensures if UsesBwt(t) && data != [] then r.1 < |data| else r.1 == 0
  {
    match t
    case Identity => (data, 0)
    case XorPrevious => (XorWithPrevious(data), 0)
    case DeltaPrevious => (DeltaWithPrevious(data), 0)
    case NibbleSplit => (NibblesSwapped(data), 0)
    case Mtf => (MtfEncoded(data), 0)
    case Bwt => BwtEncoded(data)
    case BwtMtf => (MtfEncoded(BwtEncoded(data).0), BwtEncoded(data).1)
  }

  /** No inversion changes the length of a chunk. */
  function Invert(t: Transform, data: Bytes, param: nat): (r: Result<Bytes, TransformError>)
    ensures r.Ok? ==> |r.value| == |data|
    ensures r.Ok? <==> (UsesBwt(t) ==> param < |data| || (data == [] && param == 0))
  {
    match t
    case Identity => Ok(data)
    case XorPrevious => Ok(XorRestored(data))
    case DeltaPrevious => Ok(DeltaRestored(data))
    case NibbleSplit => Ok(NibblesSwapped(data))
    case Mtf => Ok(MtfDecoded(data))
    case Bwt => BwtDecoded(data, param)
    case BwtMtf => BwtDecoded(MtfDecoded(data), param)
  }

  /** Every transform is undone on every string. */
  lemma TransformRoundTrip(t: Transform, data: Bytes)
    ensures Invert(t, Apply(t, data).0, Apply(t, data).1) == Ok(data)
  {
    match t
    case Identity =>
    case XorPrevious => XorRoundTrip(data);
    case DeltaPrevious => DeltaRoundTrip(data);
    case NibbleSplit => NibblesRoundTrip(data);
    case Mtf => MtfRoundTrip(data);
    case Bwt => BwtRoundTrip(data);
    case BwtMtf =>
      MtfRoundTrip(BwtEncoded(data).0);
      BwtRoundTrip(data);
  }

  method ApplyTransform(t: Transform, data: Bytes) returns (out: Bytes, param: nat)
    ensures (out, param) == Apply(t, data)
  {
    out, param := data, 0;
    match t {
      case Identity =>
      case XorPrevious => out := EncodeXorPrevious(data);
      case DeltaPrevious => out := EncodeDeltaPrevious(data);
      case NibbleSplit => out := NibblesSwapped(data);
      case Mtf => out := EncodeMtf(data);
      case Bwt => out, param := BwtEncoded(data).0, BwtEncoded(data).1;
      case BwtMtf =>
        var bwt := BwtEncoded(data);
        param := bwt.1;
        out := EncodeMtf(bwt.0);
    }
  }

  method InvertTransform(t: Transform, data: Bytes, param: nat) returns (r: Result<Bytes, TransformError>)
    ensures r == Invert(t, data, param)
  {
    match t {
      case Identity => r := Ok(data);
      case XorPrevious =>
        var out := DecodeXorPrevious(data);
        r := Ok(out);
      case DeltaPrevious =>
        var out := DecodeDeltaPrevious(data);
        r := Ok(out);
      case NibbleSplit => r := Ok(NibblesSwapped(data));
      case Mtf =>
        var out := DecodeMtf(data);
        r := Ok(out);
      case Bwt => r := DecodeBwt(data, param);
      case BwtMtf =>
        var column := DecodeMtf(data);
        r := DecodeBwt(column, param);
    }
  }
}
