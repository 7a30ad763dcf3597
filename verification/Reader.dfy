/**
 The byte cursor of the BOGPK decoder and its variable-length integers (bogvm/container.py).
 Each read is specified by a function on the bytes not read yet: what it returns and what is left.
 */
module Reader {
  import opened Wrappers
  import opened Powers
  import opened ByteStrings

  datatype ContainerError =
    | UnexpectedEnd | NonMinimalVaruint | VaruintTooLarge
    | InvalidMagic | UnsupportedVersion | UnsupportedFlags | HashStreamsNotImplemented | InvalidChunkSizeCode
    | ChunksWithoutLength | LengthWithoutChunks | ChunkCountMismatch | ResidualTotalTooLarge
    | SentinelWithoutFlag | RunTooShort | RunTooLong | ReservedTransform | ReservedBasis
    | FinalLengthInvalid | ResidualCountTooLarge | ResidualOffsetRange
    | BitmaskOutsideChunk | BitmaskCountMismatch | TransformFailed
    | ResidualTotalMismatch | TrailingBytes | LengthMismatch | WholeHashMismatch
    | ChunkHashMismatch | TransformedHashMismatch | OriginalHashMismatch
    | InvalidContainer | ChunkSizeNotEncodable

  /** A value read from the front of a string, and the rest of the string. */
  type Parsed<T> = Result<(T, Bytes), ContainerError>

  function ParseByte(s: Bytes): Parsed<byte> {
    if s == [] then Err(UnexpectedEnd) else Ok((s[0], s[1..]))
  }

  function ParseBytes(s: Bytes, length: nat): Parsed<Bytes> {
    if length > |s| then Err(UnexpectedEnd) else Ok((s[..length], s[length..]))
  }

  /** A read returned what the parse of the unread bytes says, and left what it leaves. */
  ghost predicate Follows<T>(parsed: Parsed<T>, r: Result<T, ContainerError>, unread: Bytes) {
    match parsed
    case Ok((value, rest)) => r == Ok(value) && unread == rest
    case Err(e) => r == Err(e)
  }

  /** The result of a parse when some items have been read already. */
  ghost function Prepended<T>(front: seq<T>, parsed: Parsed<seq<T>>): Parsed<seq<T>> {
    match parsed
    case Ok((others, rest)) => Ok((front + others, rest))
    case Err(e) => Err(e)
  }

  lemma PrependNothing<T>(parsed: Parsed<seq<T>>)
    ensures Prepended([], parsed) == parsed
  {
    if parsed.Ok? {
      assert [] + parsed.value.0 == parsed.value.0;
    }
  }

  lemma PrependTwice<T>(a: seq<T>, b: seq<T>, parsed: Parsed<seq<T>>)
    ensures Prepended(a, Prepended(b, parsed)) == Prepended(a + b, parsed)
  {
    if parsed.Ok? {
      assert a + (b + parsed.value.0) == a + b + parsed.value.0;
    }
  }

  // ------------------------------------------------- variable-length integers

  /** Seven bits a byte, lowest first; all bytes but the last carry the continuation bit. */
  function EncodeVaruint(value: nat): (r: Bytes)
    ensures r != []
  {
    if value < 128 then [value] else [value % 128 + 128] + EncodeVaruint(value / 128)
  }

  method WriteVaruint(value: nat) returns (out: Bytes)
    ensures out == EncodeVaruint(value)
  {
    out := [];
    var rest := value;
    while true
      invariant out + EncodeVaruint(rest) == EncodeVaruint(value)
      decreases rest
    {
      var low := rest % 128;
      if rest / 128 == 0 {
        return out + [low];
      }
      out := out + [low + 128];
      rest := rest / 128;
    }
  }

  /** The size estimate of the planner (`_varuint_size`). */
  method VaruintSize(value: nat) returns (size: nat)
    ensures size == |EncodeVaruint(value)|
  {
    size := 1;
    var rest: nat := value / 128;
    while rest != 0
      invariant size + (if rest == 0 then 0 else |EncodeVaruint(rest)|) == |EncodeVaruint(value)|
      decreases rest
    {
      size := size + 1;
      rest := rest / 128;
    }
  }

  /** `value |= (next & 0x7F) << shift`, for a value below 2^shift. */
  function Collect(value: nat, next: byte, i: nat): nat {
    value + (next % 128) * Pow(128, i)
  }

  /** Reads on from byte i, having collected `value` from the bytes before it. */
  function ParseVaruintFrom(s: Bytes, i: nat, value: nat): Parsed<nat>
    decreases |s| - i
  {
    if i >= |s| then Err(UnexpectedEnd)
    else
      var collected := Collect(value, s[i], i);
      if s[i] < 128 then
        if EncodeVaruint(collected) == s[..i + 1] then Ok((collected, s[i + 1..])) else Err(NonMinimalVaruint)
      else if 7 * (i + 1) > 63 then Err(VaruintTooLarge)
      else ParseVaruintFrom(s, i + 1, collected)
  }

  function ParseVaruint(s: Bytes): Parsed<nat> {
    ParseVaruintFrom(s, 0, 0)
  }

  /** The first number that does not fit the ten bytes the reader accepts. */
  const VARUINT_LIMIT: nat := Pow(128, 10)

  lemma CollectBound(value: nat, next: byte, i: nat)
    requires value < Pow(128, i)
    ensures Collect(value, next, i) < Pow(128, i + 1)
  {
    MulMonotone(next % 128, 127, Pow(128, i));
  }

  lemma CollectStep(low: nat, high: nat, next: byte, i: nat)
    requires next % 128 == high % 128
    ensures Collect(low, next, i) + (high / 128) * Pow(128, i + 1) == low + high * Pow(128, i)
  {
    var p, q, r := Pow(128, i), high / 128, high % 128;
    assert high == 128 * q + r;
    assert (128 * q + r) * p == q * (128 * p) + r * p;
  }

  lemma CollectLast(low: nat, high: nat, i: nat)
    requires high < 128
    ensures Collect(low, high, i) == low + high * Pow(128, i)
  {
  }

  /** A number with several bytes left to read fits one byte less once divided by 128. */
  lemma ShiftedFits(high: nat, k: nat)
    requires 128 <= high < Pow(128, k)
    ensures k >= 2 && high / 128 < Pow(128, k - 1)
  {
    assert Pow(128, 0) == 1;
    assert Pow(128, 1) == 128;
  }

  lemma {:induction false} ParsesEncoded(value: nat, rest: Bytes, i: nat, low: nat, high: nat)
    requires i <= |EncodeVaruint(value)| && EncodeVaruint(value)[i..] == EncodeVaruint(high)
    requires low + high * Pow(128, i) == value
    requires i <= 9 && high < Pow(128, 10 - i)
    ensures ParseVaruintFrom(EncodeVaruint(value) + rest, i, low) == Ok((value, rest))
    decreases high
  {
    hide Collect, Pow;
    var encoded := EncodeVaruint(value);
    var s := encoded + rest;
    assert s[i] == encoded[i..][0] == EncodeVaruint(high)[0];
    if high < 128 {
      CollectLast(low, high, i);
      assert |encoded| == i + 1;
      assert s[..i + 1] == encoded && s[i + 1..] == rest;
    } else {
      ShiftedFits(high, 10 - i);
      CollectStep(low, high, s[i], i);
      assert encoded[i + 1..] == encoded[i..][1..] == EncodeVaruint(high / 128);
      ParsesEncoded(value, rest, i + 1, Collect(low, s[i], i), high / 128);
    }
  }

  lemma {:induction false} ParsedIsEncoded(s: Bytes, i: nat, value: nat)
    requires i <= |s| && i <= 9 && value < Pow(128, i)
    requires ParseVaruintFrom(s, i, value).Ok?
    ensures var (v, rest) := ParseVaruintFrom(s, i, value).value;
            s == EncodeVaruint(v) + rest && v < VARUINT_LIMIT
    decreases |s| - i
  {
    hide Collect, Pow, EncodeVaruint;
    CollectBound(value, s[i], i);
    if s[i] < 128 {
      PowMonotone(128, i + 1, 10);
      assert s == s[..i + 1] + s[i + 1..];
    } else {
      ParsedIsEncoded(s, i + 1, Collect(value, s[i], i));
    }
  }

  /** The reader accepts exactly the minimal encodings of at most ten bytes. */
  lemma VaruintExact(s: Bytes, value: nat, rest: Bytes)
    ensures ParseVaruint(s) == Ok((value, rest)) <==> s == EncodeVaruint(value) + rest && value < VARUINT_LIMIT
  {
    if ParseVaruint(s) == Ok((value, rest)) {
      ParsedIsEncoded(s, 0, 0);
    }
    if s == EncodeVaruint(value) + rest && value < VARUINT_LIMIT {
      assert EncodeVaruint(value)[0..] == EncodeVaruint(value);
      assert Pow(128, 0) == 1;
      ParsesEncoded(value, rest, 0, 0, value);
    }
  }

  lemma {:induction false} VaruintLength(value: nat, k: nat)
    requires k > 0
    ensures |EncodeVaruint(value)| <= k <==> value < Pow(128, k)
    decreases k
  {
    if k == 1 {
      assert Pow(128, 1) == 128;
    } else if value >= 128 {
      VaruintLength(value / 128, k - 1);
    } else {
      PowMonotone(128, 1, k);
      assert Pow(128, 1) == 128;
    }
  }

  // ------------------------------------------------- the cursor

  class ByteReader {
    const data: Bytes
    var offset: nat

    ghost predicate Valid()
      reads this
    {
      offset <= |data|
    }

    /** The bytes not read yet. */
    ghost function Rest(): Bytes
      reads this
      requires Valid()
    {
      data[offset..]
    }

    constructor (data: Bytes)
      ensures Valid() && Rest() == data && this.data == data
    {
      this.data := data;
      offset := 0;
    }

    method ReadByte() returns (r: Result<byte, ContainerError>)
      requires Valid()
      modifies this`offset
      ensures Valid()
      ensures Follows(ParseByte(old(Rest())), r, Rest())
    {
      if offset >= |data| {
        return Err(UnexpectedEnd);
      }
      r := Ok(data[offset]);
      offset := offset + 1;
    }

    method ReadBytes(length: nat) returns (r: Result<Bytes, ContainerError>)
      requires Valid()
      modifies this`offset
      ensures Valid()
      ensures Follows(ParseBytes(old(Rest()), length), r, Rest())
    {
      if offset + length > |data| {
        return Err(UnexpectedEnd);
      }
      assert data[offset..offset + length] == Rest()[..length];
      assert data[offset + length..] == Rest()[length..];
      r := Ok(data[offset..offset + length]);
      offset := offset + length;
    }

    method ReadVaruint() returns (r: Result<nat, ContainerError>)
      requires Valid()
      modifies this`offset
      ensures Valid()
      ensures Follows(ParseVaruint(old(Rest())), r, Rest())
    {
      ghost var s := Rest();
      var value: nat, shift: nat, raw: Bytes := 0, 0, [];
      while true
        invariant Valid()
        invariant shift == 7 * |raw|
        invariant |raw| <= |s| && raw == s[..|raw|] && Rest() == s[|raw|..]
        invariant ParseVaruintFrom(s, |raw|, value) == ParseVaruint(s)
        decreases |Rest()|
      {
        var next :- ReadByte();
        raw := raw + [next];
        assert raw == s[..|raw|];
        value := Collect(value, next, |raw| - 1);
        if next < 128 {
          var encoded := WriteVaruint(value);
          if encoded != raw {
            return Err(NonMinimalVaruint);
          }
          return Ok(value);
        }
        shift := shift + 7;
        if shift > 63 {
          return Err(VaruintTooLarge);
        }
      }
    }

    method Remaining() returns (n: nat)
      requires Valid()
      ensures n == |Rest()|
    {
      n := |data| - offset;
    }
  }
}
