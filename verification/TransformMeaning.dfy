/**
 What the transforms compute (bogvm/transforms.py), said without the functions that define them: bits, sums and
 halves of bytes, how recently a byte was used, and which rotations come before which.
 */
module TransformMeaning {
  import opened Sorting
  import opened ByteStrings
  import opened Transforms
  import opened ResidualCodec

  // ------------------------------------------------- bytes

  lemma {:induction false} XorBitsMean(a: nat, b: nat, width: nat, k: nat)
    requires k < width
    ensures Bit(XorBits(a, b, width), k) <==> (Bit(a, k) != Bit(b, k))
  {
    var x := XorBits(a, b, width);
    assert x % 2 == (a % 2 + b % 2) % 2 && x / 2 == XorBits(a / 2, b / 2, width - 1);
    if k > 0 {
      XorBitsMean(a / 2, b / 2, width - 1, k - 1);
    }
  }

  /** Exclusive or: a bit is set exactly where the two bytes differ. */
  lemma XorMeans(a: byte, b: byte, k: nat)
    requires k < 8
    ensures Bit(Xor(a, b), k) <==> (Bit(a, k) != Bit(b, k))
  {
    XorBitsMean(a, b, 8, k);
  }

  /** Byte i of a string whose bytes are taken relative to the one before. */
  lemma PreviousMeans(data: Bytes, i: nat)
    requires 0 < i < |data|
    ensures XorWithPrevious(data)[0] == data[0] == DeltaWithPrevious(data)[0]
    ensures forall k: nat :: k < 8 ==> (Bit(XorWithPrevious(data)[i], k) <==> (Bit(data[i], k) != Bit(data[i - 1], k)))
    ensures (data[i - 1] as int + DeltaWithPrevious(data)[i]) % 256 == data[i]
  {
    hide Xor;
    forall k: nat | k < 8
      ensures Bit(XorWithPrevious(data)[i], k) <==> (Bit(data[i], k) != Bit(data[i - 1], k))
    {
      XorMeans(data[i], data[i - 1], k);
    }
  }

  /** The halves of every byte change places. */
  lemma NibblesMean(data: Bytes, i: nat)
    requires i < |data|
    ensures NibblesSwapped(data)[i] / 16 == data[i] % 16 && NibblesSwapped(data)[i] % 16 == data[i] / 16
  {
    var high, low := data[i] / 16, data[i] % 16;
    assert (low * 16 + high) % 16 == high && (low * 16 + high) / 16 == low;
  }

  /** The restoring loops are onto: encoding what they return gives their input, whatever it was. */
  lemma {:induction false} XorRestoredEncodes(data: Bytes)
    ensures XorWithPrevious(XorRestored(data)) == data
  {
    hide Xor;
    if data != [] {
      var k := |data| - 1;
      var x := XorRestored(data[..k]);
      XorRestoredEncodes(data[..k]);
      assert XorWithPrevious(XorRestored(data))[..k] == XorWithPrevious(x);
      if k > 0 {
        XorUndoesXor(data[k], x[k - 1]);
      }
      assert data == data[..k] + [data[k]];
    }
  }

  lemma {:induction false} DeltaRestoredEncodes(data: Bytes)
    ensures DeltaWithPrevious(DeltaRestored(data)) == data
  {
    hide Plus, Minus;
    if data != [] {
      var k := |data| - 1;
      var d := DeltaRestored(data[..k]);
      DeltaRestoredEncodes(data[..k]);
      assert DeltaWithPrevious(DeltaRestored(data))[..k] == DeltaWithPrevious(d);
      if k > 0 {
        MinusUndoesPlus(d[k - 1], data[k]);
      }
      assert data == data[..k] + [data[k]];
    }
  }

  lemma MinusUndoesPlus(a: byte, b: byte)
    ensures Minus(Plus(a, b), a) == b
  {
    assert Plus(a, b) == if a + b < 256 then a + b else a + b - 256;
  }

  // ------------------------------------------------- move to front

  /** Where a byte was last used; -1 if it was not. */
  function LastUse(used: Bytes, b: byte): (i: int)
    ensures -1 <= i < |used|
    ensures i >= 0 ==> used[i] == b
    ensures forall j :: i < j < |used| ==> used[j] != b
  {
    if used == [] then -1
    else if used[|used| - 1] == b then |used| - 1
    else LastUse(used[..|used| - 1], b)
  }

  /** v was used more recently than b, or neither was used and v is the smaller. */
  predicate Fresher(used: Bytes, v: byte, b: byte) {
    LastUse(used, v) > LastUse(used, b) || (LastUse(used, v) == -1 == LastUse(used, b) && v < b)
  }

  /** The alphabet list runs from the freshest byte to the stalest. */
  ghost predicate InOrder(alphabet: Bytes, used: Bytes) {
    forall i, j :: 0 <= i < j < |alphabet| ==> Fresher(used, alphabet[i], alphabet[j])
  }

  lemma FresherAfter(used: Bytes, b: byte, v: byte, w: byte)
    ensures v != b && w != b ==> (Fresher(used + [b], v, w) <==> Fresher(used, v, w))
    ensures w != b ==> Fresher(used + [b], b, w)
  {
    assert (used + [b])[..|used|] == used;
  }

  /** Moving the byte just used to the front keeps the order. */
  lemma OrderKept(alphabet: Bytes, used: Bytes, index: nat)
    requires IsAlphabet(alphabet) && InOrder(alphabet, used) && index < |alphabet|
    ensures InOrder(MoveToFront(alphabet, index), used + [alphabet[index]])
  {
    hide Fresher, IsAlphabet;
    var (b, moved) := (alphabet[index], MoveToFront(alphabet, index));
    AlphabetIsPermutation(alphabet, b);
    forall i, j | 0 <= i < j < |moved|
      ensures Fresher(used + [b], moved[i], moved[j])
    {
      var p, q := if i == 0 then index else if i <= index then i - 1 else i, if j <= index then j - 1 else j;
      assert moved[i] == alphabet[p] && moved[j] == alphabet[q];
      AlphabetIsPermutation(alphabet, alphabet[q]);
      if p < index {
        AlphabetIsPermutation(alphabet, alphabet[p]);
      }
      FresherAfter(used, b, moved[i], moved[j]);
      if p != index {
        assert p < q;
        assert Fresher(used, alphabet[p], alphabet[q]);
      }
    }
  }

  lemma FresherOrder(used: Bytes, v: byte, w: byte)
    ensures !(Fresher(used, v, w) && Fresher(used, w, v)) && !Fresher(used, v, v)
  {
  }

  /** How many bytes are fresher than this one. */
  ghost function Fresh(used: Bytes, b: byte): nat {
    |set v: byte | 0 <= v < 256 && Fresher(used, v, b)|
  }

  lemma {:induction false} DistinctCount(s: Bytes, n: nat)
    requires n <= |s| && forall i, j :: 0 <= i < j < n ==> s[i] != s[j]
    ensures |set i | 0 <= i < n :: s[i]| == n
  {
    var all := set i | 0 <= i < n :: s[i];
    if n > 0 {
      DistinctCount(s, n - 1);
      assert all == (set i | 0 <= i < n - 1 :: s[i]) + {s[n - 1]};
    }
  }

  /** The position of a byte in an ordered alphabet is the number of fresher bytes. */
  lemma IndexIsFresh(alphabet: Bytes, used: Bytes, b: byte)
    requires IsAlphabet(alphabet) && InOrder(alphabet, used) && b in alphabet
    ensures IndexOf(alphabet, b) == Fresh(used, b)
  {
    hide Fresher, IsAlphabet, IndexOf;
    var index := IndexOf(alphabet, b);
    AlphabetIsPermutation(alphabet, b);
    forall i, j | 0 <= i < j < index
      ensures alphabet[i] != alphabet[j]
    {
      AlphabetIsPermutation(alphabet, alphabet[i]);
    }
    DistinctCount(alphabet, index);
    forall v: byte
      ensures Fresher(used, v, b) <==> v in (set i | 0 <= i < index :: alphabet[i])
    {
      AlphabetIsPermutation(alphabet, v);
      var k :| 0 <= k < |alphabet| && alphabet[k] == v;
      FresherOrder(used, v, b);
      if k < index {
        assert Fresher(used, alphabet[k], alphabet[index]);
      } else if k > index {
        assert Fresher(used, alphabet[index], alphabet[k]);
      }
    }
    assert (set v: byte | 0 <= v < 256 && Fresher(used, v, b)) == set i | 0 <= i < index :: alphabet[i];
  }

  lemma {:induction false} MtfRank(alphabet: Bytes, used: Bytes, data: Bytes, i: nat)
    requires IsAlphabet(alphabet) && InOrder(alphabet, used) && i < |data|
    ensures MtfEncodeFrom(alphabet, data)[i] == Fresh(used + data[..i], data[i])
    decreases |data|
  {
    hide IsAlphabet, InOrder, MoveToFront, IndexOf, Fresh;
    AlphabetIsPermutation(alphabet, data[0]);
    var index := IndexOf(alphabet, data[0]);
    MoveToFrontKeepsAlphabet(alphabet, index);
    if i == 0 {
      IndexIsFresh(alphabet, used, data[0]);
      assert used + data[..0] == used;
    } else {
      OrderKept(alphabet, used, index);
      MtfRank(MoveToFront(alphabet, index), used + [data[0]], data[1..], i - 1);
      assert used + [data[0]] + data[1..][..i - 1] == used + data[..i];
    }
  }

  /** Move-to-front writes, for each byte, how many bytes were used more recently, unused ones counting by value. */
  lemma MtfMeans(data: Bytes, i: nat)
    requires i < |data|
    ensures MtfEncoded(data)[i] == Fresh(data[..i], data[i])
  {
    hide MtfEncodeFrom, Fresh, IsAlphabet;
    InitialIsAlphabet();
    assert InOrder(InitialAlphabet(), []);
    MtfRank(InitialAlphabet(), [], data, i);
    assert [] + data[..i] == data[..i];
  }

  // ------------------------------------------------- Burrows-Wheeler

  /** The string turned left by i bytes. */
  function Turn(data: Bytes, i: nat): Bytes
    requires i <= |data|
  {
    data[i..] + data[..i]
  }

  /** The turns of a string in order: by the strings they give, and by number where these are the same. */
  ghost predicate TurnsInOrder(data: Bytes, order: seq<nat>) {
    && |order| == |data|
    && (forall i :: 0 <= i < |order| ==> order[i] < |data|)
    && (forall j: nat :: j < |data| ==> j in order)
    && (forall i, j :: 0 <= i < j < |order| ==>
          Before(Turn(data, order[i]), Turn(data, order[j])) || (Turn(data, order[i]) == Turn(data, order[j]) && order[i] < order[j]))
  }

  ghost function Numbers(rows: seq<Row>): (r: seq<nat>)
    ensures |r| == |rows|
  {
    seq(|rows|, i requires 0 <= i < |rows| => rows[i].1)
  }

  lemma RowsInOrder(data: Bytes)
    requires data != []
    ensures TurnsInOrder(data, Numbers(SortedRows(data)))
    ensures forall i :: 0 <= i < |data| ==> SortedRows(data)[i] == (Turn(data, Numbers(SortedRows(data))[i]), Numbers(SortedRows(data))[i])
  {
    hide LexLe, Before;
    var (rows, all) := (SortedRows(data), RotationRows(data));
    var order := Numbers(rows);
    RowLeIsTotalOrder();
    SortSorted(all, RowLe);
    SameElements(rows, all);
    assert NoRepeats(all);
    forall i | 0 <= i < |rows|
      ensures rows[i] == (Turn(data, order[i]), order[i])
    {
      assert rows[i] in rows;
    }
    forall j: nat | j < |data|
      ensures j in order
    {
      assert all[j] in rows;
      var i :| 0 <= i < |rows| && rows[i] == all[j];
      assert order[i] == j;
    }
    forall i, j | 0 <= i < j < |rows|
      ensures Before(rows[i].0, rows[j].0) || (rows[i].0 == rows[j].0 && rows[i].1 < rows[j].1)
    {
      assert RowLe(rows[i], rows[j]);
      RowsDiffer(rows, all, i, j);
      BeforeMeans(rows[i].0, rows[j].0);
    }
  }

  lemma RowsDiffer(rows: seq<Row>, all: seq<Row>, i: nat, j: nat)
    requires multiset(rows) == multiset(all) && NoRepeats(all) && i < j < |rows|
    ensures rows[i] != rows[j]
  {
    OnceEach(all, rows[i]);
    assert rows == rows[..j] + [rows[j]] + rows[j + 1..];
  }

  lemma {:induction false} OriginIsFirst(rows: seq<Row>)
    requires exists row :: row in rows && row.1 == 0
    ensures var rank := RankOfOrigin(rows); forall i :: 0 <= i < rank ==> rows[i].1 != 0
  {
    if rows[0].1 != 0 {
      OriginIsFirst(rows[1..]);
    }
  }

  lemma {:induction false} FirstCount(order: seq<nat>, n: nat)
    requires n <= |order| && forall i, j :: 0 <= i < j < n ==> order[i] != order[j]
    ensures |set i | 0 <= i < n :: order[i]| == n
  {
    var all := set i | 0 <= i < n :: order[i];
    if n > 0 {
      FirstCount(order, n - 1);
      assert all == (set i | 0 <= i < n - 1 :: order[i]) + {order[n - 1]};
    }
  }

  /** The turns that come before the string itself. */
  ghost function Earlier(data: Bytes): set<nat> {
    set j: nat | j < |data| && Before(Turn(data, j), data)
  }

  lemma EarlierAreFirst(data: Bytes, order: seq<nat>, rank: nat)
    requires data != [] && TurnsInOrder(data, order) && rank < |order| && order[rank] == 0
    ensures Earlier(data) == set i | 0 <= i < rank :: order[i]
  {
    hide Before;
    assert Turn(data, 0) == data;
    forall j: nat | j < |data|
      ensures j in Earlier(data) <==> j in (set i | 0 <= i < rank :: order[i])
    {
      assert j in order;
      var k :| 0 <= k < |order| && order[k] == j;
      BeforeMeans(Turn(data, j), data);
      BeforeMeans(data, Turn(data, j));
      LexTotal(data, Turn(data, j));
      if j in (set i | 0 <= i < rank :: order[i]) {
        var i :| 0 <= i < rank && order[i] == j;
        assert Before(Turn(data, order[i]), Turn(data, order[rank])) || order[i] < order[rank];
      }
      if k > rank {
        assert Before(Turn(data, order[rank]), Turn(data, order[k])) || Turn(data, order[rank]) == Turn(data, order[k]);
      }
    }
  }

  /**
   The Burrows-Wheeler transform of a string lists the last bytes of its turns in order, and gives the number of
   turns that come before the string itself.
   */
  lemma BwtMeans(data: Bytes) returns (order: seq<nat>)
    requires data != []
    ensures TurnsInOrder(data, order)
    ensures forall i :: 0 <= i < |data| ==> BwtEncoded(data).0[i] == data[(order[i] + |data| - 1) % |data|]
    ensures BwtEncoded(data).1 == |Earlier(data)|
  {
    hide Before, SortedRows, Earlier;
    var rows := SortedRows(data);
    order := Numbers(rows);
    RowsInOrder(data);
    OriginIsARow(data);
    OriginIsFirst(rows);
    var rank := RankOfOrigin(rows);
    EarlierAreFirst(data, order, rank);
    OrderDistinct(data, order);
    FirstCount(order, rank);
    forall i | 0 <= i < |data|
      ensures BwtEncoded(data).0[i] == data[(order[i] + |data| - 1) % |data|]
    {
      LastByte(data, order[i]);
      assert rows[i] == (Turn(data, order[i]), order[i]) && rows[i] in rows;
    }
  }

  lemma OrderDistinct(data: Bytes, order: seq<nat>)
    requires TurnsInOrder(data, order)
    ensures forall i, j :: 0 <= i < j < |order| ==> order[i] != order[j]
  {
    hide Before;
    forall i, j | 0 <= i < j < |order|
      ensures order[i] != order[j]
    {
      BeforeMeans(Turn(data, order[i]), Turn(data, order[j]));
    }
  }

  lemma LastByte(data: Bytes, i: nat)
    requires i < |data|
    ensures |Turn(data, i)| == |data| && Turn(data, i)[|data| - 1] == data[(i + |data| - 1) % |data|]
  {
    if i > 0 {
      assert (i + |data| - 1) % |data| == i - 1;
    }
  }

  // ------------------------------------------------- the seven transforms

  ghost predicate IsXored(data: Bytes, out: Bytes) {
    && |out| == |data| && (data != [] ==> out[0] == data[0])
    && forall i, k: nat :: 0 < i < |data| && k < 8 ==> (Bit(out[i], k) <==> (Bit(data[i], k) != Bit(data[i - 1], k)))
  }

  ghost predicate IsDifferences(data: Bytes, out: Bytes) {
    && |out| == |data| && (data != [] ==> out[0] == data[0])
    && forall i :: 0 < i < |data| ==> (data[i - 1] as int + out[i]) % 256 == data[i]
  }

  ghost predicate IsSwapped(data: Bytes, out: Bytes) {
    |out| == |data| && forall i :: 0 <= i < |data| ==> out[i] / 16 == data[i] % 16 && out[i] % 16 == data[i] / 16
  }

  ghost predicate IsRanks(data: Bytes, out: Bytes) {
    |out| == |data| && forall i :: 0 <= i < |data| ==> out[i] == Fresh(data[..i], data[i])
  }

  ghost predicate IsLastBytes(data: Bytes, column: Bytes, order: seq<nat>) {
    |column| == |data| == |order| && forall i :: 0 <= i < |data| ==> column[i] == data[(order[i] + |data| - 1) % |data|]
  }

  ghost predicate IsBwt(data: Bytes, column: Bytes, primary: nat) {
    if data == [] then column == [] && primary == 0
    else primary == |Earlier(data)| && exists order :: TurnsInOrder(data, order) && IsLastBytes(data, column, order)
  }

  /** What each transform returns, with its parameter. */
  lemma ApplyMeans(t: Transform, data: Bytes)
    ensures var (out, param) := Apply(t, data);
            && (!t.Bwt? && !t.BwtMtf? ==> param == 0)
            && match t
               case Identity => out == data
               case XorPrevious => IsXored(data, out)
               case DeltaPrevious => IsDifferences(data, out)
               case NibbleSplit => IsSwapped(data, out)
               case Mtf => IsRanks(data, out)
               case Bwt => IsBwt(data, out, param)
               case BwtMtf => exists column :: IsBwt(data, column, param) && IsRanks(column, out)
  {
    hide XorWithPrevious, DeltaWithPrevious, NibblesSwapped, MtfEncoded, BwtEncoded, IsBwt, IsRanks, IsXored, IsDifferences, IsSwapped;
    match t
    case Identity =>
    case XorPrevious => XorIsXored(data);
    case DeltaPrevious => DeltaIsDifferences(data);
    case NibbleSplit => NibblesAreSwapped(data);
    case Mtf => MtfIsRanks(data);
    case Bwt => BwtIsBwt(data);
    case BwtMtf =>
      var column := BwtEncoded(data).0;
      BwtIsBwt(data);
      MtfIsRanks(column);
      assert IsBwt(data, column, Apply(t, data).1) && IsRanks(column, Apply(t, data).0);
  }

  lemma FirstKept(data: Bytes)
    ensures |XorWithPrevious(data)| == |data| == |DeltaWithPrevious(data)|
    ensures data != [] ==> XorWithPrevious(data)[0] == data[0] == DeltaWithPrevious(data)[0]
  {
  }

  lemma XorIsXored(data: Bytes)
    ensures IsXored(data, XorWithPrevious(data))
  {
    hide Xor, XorWithPrevious;
    FirstKept(data);
    forall i: nat | 0 < i < |data|
      ensures forall k: nat :: k < 8 ==> (Bit(XorWithPrevious(data)[i], k) <==> (Bit(data[i], k) != Bit(data[i - 1], k)))
    {
      PreviousMeans(data, i);
    }
  }

  lemma DeltaIsDifferences(data: Bytes)
    ensures IsDifferences(data, DeltaWithPrevious(data))
  {
    hide Minus, DeltaWithPrevious;
    FirstKept(data);
    forall i: nat | 0 < i < |data|
      ensures (data[i - 1] as int + DeltaWithPrevious(data)[i]) % 256 == data[i]
    {
      PreviousMeans(data, i);
    }
  }

  lemma NibblesAreSwapped(data: Bytes)
    ensures IsSwapped(data, NibblesSwapped(data))
  {
    hide SwapNibbles;
    forall i: nat | i < |data|
      ensures NibblesSwapped(data)[i] / 16 == data[i] % 16 && NibblesSwapped(data)[i] % 16 == data[i] / 16
    {
      NibblesMean(data, i);
    }
  }

  lemma MtfIsRanks(data: Bytes)
    ensures IsRanks(data, MtfEncoded(data))
  {
    hide MtfEncoded, Fresh;
    forall i: nat | i < |data|
      ensures MtfEncoded(data)[i] == Fresh(data[..i], data[i])
    {
      MtfMeans(data, i);
    }
  }

  lemma BwtIsBwt(data: Bytes)
    ensures IsBwt(data, BwtEncoded(data).0, BwtEncoded(data).1)
  {
    if data != [] {
      hide BwtEncoded, TurnsInOrder, Earlier;
      var order := BwtMeans(data);
      TurnsCount(data, order);
      assert IsLastBytes(data, BwtEncoded(data).0, order);
    }
  }

  lemma TurnsCount(data: Bytes, order: seq<nat>)
    requires TurnsInOrder(data, order)
    ensures |order| == |data|
  {
  }
}
