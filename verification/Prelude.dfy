/** Bytes, options and results shared by every module. */
module Prelude {

  type Byte = b: int | 0 <= b < 256

  type Bytes = seq<Byte>

  datatype Option<+T> = None | Some(value: T)

  datatype Result<+T, +E> = Ok(value: T) | Err(error: E)

  /** The concatenation of a sequence of chunks. */
  function Flatten(chunks: seq<Bytes>): Bytes {
    if chunks == [] then [] else chunks[0] + Flatten(chunks[1..])
  }

  /** The two bytes of a uint16, low byte first; larger numbers are truncated as a Go conversion truncates them. */
  function LittleEndian16(n: nat): Bytes {
    [n % 256, n / 256 % 256]
  }

  /** The two bytes of a uint16, high byte first. */
  function BigEndian16(n: int): Bytes {
    [n / 256 % 256, n % 256]
  }

  /** The uint16 whose low byte is `low` and whose high byte is `high`. */
  function Uint16(low: Byte, high: Byte): (n: nat)
    ensures n < 65536
  {
    var l: int, h: int := low, high;
    l + 256 * h
  }

  lemma BytesOfUint16(low: Byte, high: Byte)
    ensures LittleEndian16(Uint16(low, high)) == [low, high]
  {
    var l: int, h: int := low, high;
    assert (l + 256 * h) % 256 == l && (l + 256 * h) / 256 == h;
  }

  lemma Uint16OfBytes(n: int)
    ensures Uint16(BigEndian16(n)[1], BigEndian16(n)[0]) == n % 65536
    ensures n >= 0 ==> Uint16(LittleEndian16(n)[0], LittleEndian16(n)[1]) == n % 65536
  {
  }
}
