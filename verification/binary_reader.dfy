/**
  The part of .NET's `System.IO.BinaryReader` that the string field decoder uses,
  over an immutable byte sequence and a cursor instead of a stream.

  - `ReadInt16` reads two bytes as a little-endian two's-complement 16-bit value and
    fails with end-of-stream when fewer than two bytes remain.
  - `ReadBytes(count)` rejects a negative count, and otherwise returns up to `count`
    bytes: at the end of the stream it returns FEWER bytes rather than failing.
  - `ReadByte` fails with end-of-stream when no byte remains.

  A cursor may lie beyond the end of the data (a stream position may be set past its
  length); no bytes are then available.
*/
module BinaryReader {
  import opened Wrappers

  newtype uint8 = x: int | 0 <= x < 0x100
  newtype int16 = x: int | -0x8000 <= x < 0x8000

  /** A byte source and the position of the next byte to read. */
  datatype Reader = Reader(data: seq<uint8>, pos: nat)

  /** The exceptions the reader raises. */
  datatype ReadError =
    | EndOfStream         // System.IO.EndOfStreamException
    | ArgumentOutOfRange  // System.ArgumentOutOfRangeException

  /** A value read together with the reader positioned after it. */
  datatype Read<+T> = Read(value: T, rest: Reader)

  /** The number of bytes between the cursor and the end of the data. */
  function Available(r: Reader): nat {
    if r.pos <= |r.data| then |r.data| - r.pos else 0
  }

  function Min(a: int, b: int): int {
    if a <= b then a else b
  }

  /** The signed value of a little-endian two's-complement 16-bit pair. */
  function Int16FromLe(lo: uint8, hi: uint8): (v: int16)
    ensures 0 <= v as int ==> v as int == lo as int + 0x100 * hi as int
    ensures v < 0 ==> v as int + 0x1_0000 == lo as int + 0x100 * hi as int
    ensures v < 0 <==> hi >= 0x80
  {
    var u := lo as int + 0x100 * hi as int;
    if u < 0x8000 then u as int16 else (u - 0x1_0000) as int16
  }

  /** The little-endian two's-complement bytes of a 16-bit value; the inverse of `Int16FromLe`. */
  function Int16ToLe(v: int16): (b: seq<uint8>)
    ensures |b| == 2
    ensures Int16FromLe(b[0], b[1]) == v
  {
    var u := if v < 0 then v as int + 0x1_0000 else v as int;
    [(u % 0x100) as uint8, (u / 0x100) as uint8]
  }

  /** Encoding after decoding gives back the two bytes: no two pairs decode to the same value. */
  lemma Int16LeInjective(lo: uint8, hi: uint8)
    ensures Int16ToLe(Int16FromLe(lo, hi)) == [lo, hi]
  {
  }

  function ReadByte(r: Reader): (res: Result<Read<uint8>, ReadError>)
    ensures res.Failure? <==> Available(r) == 0
    ensures res.Failure? ==> res.error == EndOfStream
    ensures res.Success? ==> res.value.value == r.data[r.pos]
    ensures res.Success? ==> res.value.rest == r.(pos := r.pos + 1)
  {
    if Available(r) >= 1 then Success(Read(r.data[r.pos], r.(pos := r.pos + 1)))
    else Failure(EndOfStream)
  }

  function ReadInt16(r: Reader): (res: Result<Read<int16>, ReadError>)
    ensures res.Failure? <==> Available(r) < 2
    ensures res.Failure? ==> res.error == EndOfStream
    ensures res.Success? ==> Int16ToLe(res.value.value) == r.data[r.pos..r.pos + 2]
    ensures res.Success? ==> res.value.rest == r.(pos := r.pos + 2)
  {
    if Available(r) >= 2 then
      Success(Read(Int16FromLe(r.data[r.pos], r.data[r.pos + 1]), r.(pos := r.pos + 2)))
    else
      Failure(EndOfStream)
  }

  function ReadBytes(r: Reader, count: int): (res: Result<Read<seq<uint8>>, ReadError>)
    ensures res.Failure? <==> count < 0
    ensures res.Failure? ==> res.error == ArgumentOutOfRange
    ensures res.Success? ==> |res.value.value| == Min(count, Available(r))
    ensures res.Success? && res.value.value != [] ==>
              r.pos + |res.value.value| <= |r.data| &&
              res.value.value == r.data[r.pos..r.pos + |res.value.value|]
    ensures res.Success? ==> res.value.rest == r.(pos := r.pos + |res.value.value|)
  {
    if count < 0 then
      Failure(ArgumentOutOfRange)
    else
      var n := Min(count, Available(r));
      Success(Read(if n == 0 then [] else r.data[r.pos..r.pos + n], r.(pos := r.pos + n)))
  }
}
