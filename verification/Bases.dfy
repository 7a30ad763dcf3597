/** The nine deterministic byte generators (bogvm/bases.py). */
module Bases {
  import opened ByteStrings

  datatype Basis =
    | ZeroBlock | RepeatByte | DeltaU8 | DictionaryU8 | RleU8 | RampU8 | TriangleU8 | Sine8U8 | Fourier8U8

  const BASIS_ORDER: seq<Basis> :=
    [ZeroBlock, RepeatByte, DeltaU8, DictionaryU8, RleU8, RampU8, TriangleU8, Sine8U8, Fourier8U8]

  /** The position of a basis in BASIS_ORDER. */
  function BasisIndex(basis: Basis): (i: nat)
    ensures i < |BASIS_ORDER| && BASIS_ORDER[i] == basis
  {
    match basis
    case ZeroBlock => 0
    case RepeatByte => 1
    case DeltaU8 => 2
    case DictionaryU8 => 3
    case RleU8 => 4
    case RampU8 => 5
    case TriangleU8 => 6
    case Sine8U8 => 7
    case Fourier8U8 => 8
  }

  const TRIANGLE_U8_OFFSETS: seq<int> := [0, 32, 64, 96, 128, 96, 64, 32]
  const SINE8_U8_OFFSETS: seq<int> := [0, 90, 127, 90, 0, -90, -127, -90]
  const COSINE8_U8_OFFSETS: seq<int> := [127, 90, 0, -90, -127, -90, 0, 90]

  /** Byte i of a generated block. The divisions round towards minus infinity, as `//` does. */
  function BasisByte(basis: Basis, start: byte, delta: byte, i: nat): byte {
    match basis
    case ZeroBlock => 0
    case RepeatByte => start
    case DeltaU8 => Wrap(start + i * delta)
    case DictionaryU8 => start
    case RleU8 => start
    case RampU8 => Wrap(start + i)
    case TriangleU8 => Wrap(start + TRIANGLE_U8_OFFSETS[i % 8])
    case Sine8U8 => Wrap(start + SINE8_U8_OFFSETS[i % 8])
    case Fourier8U8 =>
      var cosineDelta: int := delta / 2;
      Wrap(start + (delta as int * SINE8_U8_OFFSETS[i % 8]) / 127 + (cosineDelta * COSINE8_U8_OFFSETS[i % 8]) / 127)
  }

  function SynthesizeBasis(basis: Basis, start: byte, length: nat, delta: byte): (r: Bytes)
    ensures |r| == length
  {
    seq(length, i requires 0 <= i < length => BasisByte(basis, start, delta, i))
  }
}
