/**
 * The reading side of a connection: bytes arrive in chunks whose sizes the network chooses.
 * `ReadFull` and `ReadFullInto` are the full reads every parser of the program is built on.
 */
module Streams {
  import opened Prelude

  /** Nothing could be read, or the stream ended in the middle of a full read. */
  datatype ReadError = EOF | UnexpectedEOF

  function ShortRead(available: nat): ReadError {
    if available == 0 then EOF else UnexpectedEOF
  }

  /** A full read of `n` bytes on a flat byte string: the bytes and what is left after them. */
  function TakeFull(s: Bytes, n: nat): Result<(Bytes, Bytes), ReadError> {
    if |s| >= n then Ok((s[..n], s[n..])) else Err(ShortRead(|s|))
  }

  lemma TakeFullOf(a: Bytes, b: Bytes)
    ensures TakeFull(a + b, |a|) == Ok((a, b))
  {
  }

  lemma TakeFullSplits(s: Bytes, n: nat)
    ensures match TakeFull(s, n)
            case Err(_) => |s| < n
            case Ok((a, b)) => |a| == n && s == a + b
  {
  }

  /** A buffered reader; each element of `chunks` is what one arrival from the network delivered. */
  class ChunkReader {
    var chunks: seq<Bytes>

    ghost predicate Valid()
      reads this
    {
      forall i :: 0 <= i < |chunks| ==> chunks[i] != []
    }

    function Remaining(): Bytes
      reads this
    {
      Flatten(chunks)
    }

    constructor (arrivals: seq<Bytes>)
      requires forall i :: 0 <= i < |arrivals| ==> arrivals[i] != []
      ensures Valid() && Remaining() == Flatten(arrivals)
    {
      chunks := arrivals;
    }

    /** One `Read` call with room for `n` bytes: at least one byte, at most what has arrived. */
    method Read(n: nat) returns (r: Result<Bytes, ReadError>)
      requires Valid() && n > 0
      modifies this
      ensures Valid()
      ensures old(Remaining()) == [] ==> r == Err(EOF) && Remaining() == []
      ensures old(Remaining()) != [] ==> r.Ok? && 0 < |r.value| <= n && r.value + Remaining() == old(Remaining())
    {
      if chunks == [] {
        return Err(EOF);
      }
      var first := chunks[0];
      if |first| <= n {
        chunks := chunks[1..];
        return Ok(first);
      }
      chunks := [first[n..]] + chunks[1..];
      assert chunks[1..] == old(chunks)[1..];
      assert first == first[..n] + first[n..];
      return Ok(first[..n]);
    }

    /** Repeated reads into the first `n` bytes of `buf`. */
    method ReadFullInto(buf: array<Byte>, n: nat) returns (r: Result<(), ReadError>)
      requires Valid() && n <= buf.Length
      modifies this, buf
      ensures Valid()
      ensures r.Ok? <==> |old(Remaining())| >= n
      ensures r.Ok? ==> buf[..n] == old(Remaining())[..n] && Remaining() == old(Remaining())[n..]
      ensures r.Err? ==> r.error == ShortRead(|old(Remaining())|) && Remaining() == []
      ensures buf[n..] == old(buf[n..])
    {
      var got := 0;
      ghost var all := Remaining();
      while got < n
        invariant Valid() && 0 <= got <= n
        invariant buf[..got] + Remaining() == all
        invariant buf[n..] == old(buf[n..])
      {
        var part := Read(n - got);
        if part.Err? {
          return Err(if got == 0 then EOF else UnexpectedEOF);
        }
        forall i | 0 <= i < |part.value| {
          buf[got + i] := part.value[i];
        }
        assert buf[..got + |part.value|] == buf[..got] + part.value;
        got := got + |part.value|;
      }
      return Ok(());
    }

    /** A full read of `n` bytes, independent of how the bytes were split into chunks. */
    method ReadFull(n: nat) returns (r: Result<Bytes, ReadError>)
      requires Valid()
      modifies this
      ensures Valid()
      ensures match TakeFull(old(Remaining()), n)
              case Ok((taken, rest)) => r == Ok(taken) && Remaining() == rest
              case Err(e) => r == Err(e) && Remaining() == []
    {
      var buf := new Byte[n](_ => 0);
      var filled := ReadFullInto(buf, n);
      assert buf[..] == buf[..n];
      match filled {
        case Ok(_) => return Ok(buf[..]);
        case Err(e) => return Err(e);
      }
    }

    /** A read into a one-byte buffer. */
    method ReadByte() returns (r: Result<Byte, ReadError>)
      requires Valid()
      modifies this
      ensures Valid()
      ensures match TakeFull(old(Remaining()), 1)
              case Ok((taken, rest)) => r == Ok(taken[0]) && Remaining() == rest
              case Err(e) => r == Err(e) && Remaining() == []
    {
      var one := Read(1);
      match one {
        case Err(e) => return Err(e);
        case Ok(b) => return Ok(b[0]);
      }
    }
  }
}
