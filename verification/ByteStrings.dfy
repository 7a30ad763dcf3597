/** Bytes, byte strings and their lexicographic order (Python's order on `bytes`). */
module ByteStrings {
  import opened Sorting

  type byte = x: int | 0 <= x < 256

  type Bytes = seq<byte>

  /** `value % 256`, which is never negative in Python either. */
  function Wrap(value: int): byte {
    value % 256
  }

  function Plus(a: int, b: int): byte {
    Wrap(a + b)
  }

  function Minus(a: int, b: int): byte {
    Wrap(a - b)
  }

  predicate LexLe(a: Bytes, b: Bytes) {
    if a == [] then true
    else if b == [] then false
    else if a[0] != b[0] then a[0] < b[0]
    else LexLe(a[1..], b[1..])
  }

  /** The bytes of an ASCII text. */
  function Ascii(text: string): (r: Bytes)
    requires forall i :: 0 <= i < |text| ==> text[i] < '\U{80}'
    ensures |r| == |text|
  {
    seq(|text|, i requires 0 <= i < |text| => text[i] as int)
  }

  /** The concatenation of a list of strings. */
  function Join(parts: seq<Bytes>): Bytes {
    if parts == [] then [] else parts[0] + Join(parts[1..])
  }

  /** The strings agree on their first k bytes, and then a's byte is the smaller. */
  predicate FirstDiffers(a: Bytes, b: Bytes, k: nat) {
    k < |a| && k < |b| && a[..k] == b[..k] && a[k] < b[k]
  }

  /** The order of Python's `bytes`: a comes before b if it is a proper beginning of b, or smaller where they first differ. */
  ghost predicate Before(a: Bytes, b: Bytes) {
    (a < b) || exists k :: FirstDiffers(a, b, k)
  }

  lemma {:induction false} LexMeans(a: Bytes, b: Bytes)
    ensures LexLe(a, b) <==> a <= b || exists k :: FirstDiffers(a, b, k)
  {
    if a != [] && b != [] && a[0] == b[0] {
      LexMeans(a[1..], b[1..]);
      assert a == [a[0]] + a[1..] && b == [b[0]] + b[1..];
      assert a <= b <==> a[1..] <= b[1..];
      if k: nat :| FirstDiffers(a[1..], b[1..], k) {
        assert a[..k + 1] == [a[0]] + a[1..][..k] && b[..k + 1] == [b[0]] + b[1..][..k];
        assert FirstDiffers(a, b, k + 1);
      }
      if k: nat :| FirstDiffers(a, b, k) {
        assert k > 0;
        assert a[1..][..k - 1] == a[..k][1..] && b[1..][..k - 1] == b[..k][1..];
        assert FirstDiffers(a[1..], b[1..], k - 1);
      }
    } else if a != [] && b != [] {
      if a[0] < b[0] {
        assert FirstDiffers(a, b, 0);
      }
      if k: nat :| FirstDiffers(a, b, k) {
        assert k > 0 ==> a[..k][0] == b[..k][0];
      }
    }
  }

  /** One of two strings comes before the other, or they are the same. */
  lemma BeforeMeans(a: Bytes, b: Bytes)
    ensures Before(a, b) <==> LexLe(a, b) && a != b
    ensures Before(a, b) <==> !LexLe(b, a)
  {
    LexMeans(a, b);
    LexTotal(a, b);
    if k: nat :| FirstDiffers(a, b, k) {
      assert a[k] != b[k];
    }
  }

  lemma {:induction false} LexTotal(a: Bytes, b: Bytes)
    ensures LexLe(a, b) || LexLe(b, a)
    ensures LexLe(a, b) && LexLe(b, a) ==> a == b
  {
    if a != [] && b != [] && a[0] == b[0] {
      LexTotal(a[1..], b[1..]);
      assert a == [a[0]] + a[1..] && b == [b[0]] + b[1..];
    }
  }

  lemma {:induction false} LexTransitive(a: Bytes, b: Bytes, c: Bytes)
    requires LexLe(a, b) && LexLe(b, c)
    ensures LexLe(a, c)
  {
    if a != [] && b != [] && c != [] && a[0] == b[0] == c[0] {
      LexTransitive(a[1..], b[1..], c[1..]);
    }
  }

  lemma LexIsTotalOrder()
    ensures TotalOrder(LexLe)
  {
    forall a: Bytes, b: Bytes
      ensures LexLe(a, b) || LexLe(b, a)
      ensures LexLe(a, b) && LexLe(b, a) ==> a == b
    {
      LexTotal(a, b);
    }
    forall a: Bytes, b: Bytes, c: Bytes | LexLe(a, b) && LexLe(b, c)
      ensures LexLe(a, c)
    {
      LexTransitive(a, b, c);
    }
  }

  /** Cutting two strings of one length to their first k bytes keeps their order. */
  lemma {:induction false} LexPrefix(a: Bytes, b: Bytes, k: nat)
    requires |a| == |b| && k <= |a|
    requires LexLe(a, b)
    ensures LexLe(a[..k], b[..k])
  {
    if k > 0 && a[0] == b[0] {
      LexPrefix(a[1..], b[1..], k - 1);
      assert a[..k][1..] == a[1..][..k - 1] && b[..k][1..] == b[1..][..k - 1];
    }
  }
}
