/**
 * The framed read and write that `ClientConn` and `ServerConn` have in common, statement for statement,
 * with the buffers they reuse from one frame to the next.
 */
module FramePort {
  import opened Prelude
  import opened Streams
  import opened Frames

  const READ_BUFFER_SIZE := 65536

  /** The sending side of the QUIC stream: what has gone out, and whether it is still open. */
  class OutStream {
    var wire: Bytes
    var open: bool

    constructor ()
      ensures wire == [] && open
    {
      wire, open := [], true;
    }

    /** Writes `data`; the stream takes only the first `accepted` bytes before it fails, and none once closed. */
    method Write(data: Bytes, accepted: nat) returns (ok: bool)
      modifies this`wire
      ensures ok <==> open && accepted >= |data|
      ensures wire == old(wire) + if !open then [] else if ok then data else data[..accepted]
    {
      ok := open && accepted >= |data|;
      if ok {
        wire := wire + data;
      } else if open {
        wire := wire + data[..accepted];
      }
    }
  }

  /** What one `read` gives its caller. `NilCipherPanic` is the nil dereference of a keyless peer on a sealed frame. */
  datatype Received = Data(data: Bytes) | Failed(error: ReadError) | KeyNotMatching | NilCipherPanic

  function Outcome(r: ReadOutcome): Received {
    match r
    case Message(m, _) => Data(m)
    case Short(e) => Failed(e)
    case CipherMismatch => KeyNotMatching
    case NilCipher => NilCipherPanic
  }

  class Port {
    const out: OutStream
    const readBuf: array<Byte>
    var writeBuf: Bytes
    var aesgcm: Option<Cipher>

    ghost predicate Valid() {
      readBuf.Length == READ_BUFFER_SIZE
    }

    constructor ()
      ensures Valid() && fresh(out) && fresh(readBuf) && out.open && out.wire == [] && aesgcm == None
      ensures readBuf.Length == 65536
    {
      out := new OutStream();
      readBuf := new Byte[READ_BUFFER_SIZE](_ => 0);
      writeBuf := [];
      aesgcm := None;
    }

    /** Frames `data` in the reused write buffer and hands the buffer to the stream. */
    method WriteFrame(data: Bytes, nonce: Nonce, accepted: nat) returns (ok: bool)
      modifies this`writeBuf, out`wire
      ensures writeBuf == EncodeFrame(aesgcm, nonce, data)
      ensures ok <==> out.open && accepted >= |writeBuf|
      ensures out.wire == old(out.wire) + if !out.open then [] else if ok then writeBuf else writeBuf[..accepted]
    {
      writeBuf := [];
      match aesgcm {
        case None =>
          writeBuf := writeBuf + [0];
          writeBuf := writeBuf + LittleEndian16(|data|);
          writeBuf := writeBuf + data;
        case Some(cipher) =>
          writeBuf := writeBuf + [1];
          var data2 := cipher.seal(nonce, data);
          writeBuf := writeBuf + LittleEndian16(|data2|);
          writeBuf := writeBuf + data2;
          writeBuf := writeBuf + nonce;
      }
      ok := out.Write(writeBuf, accepted);
    }

    /**
     * Reads one frame with full reads into the reused read buffer. Whatever chunks the bytes arrive in,
     * the outcome is that of the flat decoder, and a delivered message leaves exactly what follows its frame.
     */
    method ReadFrame(reader: ChunkReader) returns (r: Received)
      requires Valid() && reader.Valid()
      modifies reader, readBuf
      ensures reader.Valid()
      ensures var expected := DecodeFrame(aesgcm, old(reader.Remaining()));
              r == Outcome(expected) && (expected.Message? ==> reader.Remaining() == expected.rest)
      ensures match DecodeFrame(aesgcm, old(reader.Remaining()))
              case Message(m, _) => r == Data(m)
              case Short(e) => r == Failed(e)
              case CipherMismatch => r == KeyNotMatching
              case NilCipher => r == NilCipherPanic
    {
      hide Uint16;
      ghost var s := reader.Remaining();
      var flag := reader.ReadFull(1);
      if flag.Err? {
        return Failed(flag.error);
      }
      var length := reader.ReadFull(2);
      if length.Err? {
        return Failed(length.error);
      }
      var dataLen := Uint16(length.value[0], length.value[1]);
      assert reader.Remaining() == s[3..] && dataLen == Uint16(s[1], s[2]);
      var filled := reader.ReadFullInto(readBuf, dataLen);
      if filled.Err? {
        return Failed(filled.error);
      }
      var body := readBuf[..dataLen];
      assert body == s[3..3 + dataLen] && reader.Remaining() == s[3 + dataLen..];
      if flag.value[0] == 0 {
        return Data(body);
      }
      if aesgcm.None? {
        return NilCipherPanic;
      }
      var nonce := reader.ReadFull(NONCE_SIZE);
      if nonce.Err? {
        return Failed(nonce.error);
      }
      assert nonce.value == s[3 + dataLen..3 + dataLen + NONCE_SIZE];
      var plain := aesgcm.value.open(nonce.value, body);
      match plain {
        case None => return KeyNotMatching;
        case Some(p) => return Data(p);
      }
    }

    /** The read loop: everything `ReadFrame` delivers until it fails. */
    method ReadLoop(reader: ChunkReader) returns (delivered: seq<Bytes>, end: Received)
      requires Valid() && reader.Valid()
      modifies reader, readBuf
      ensures var (messages, failure) := DecodeAll(aesgcm, old(reader.Remaining()));
              delivered == messages && end == Outcome(failure)
    {
      hide DecodeFrame;
      delivered := [];
      ghost var all := DecodeAll(aesgcm, reader.Remaining());
      while true
        invariant reader.Valid()
        invariant all.0 == delivered + DecodeAll(aesgcm, reader.Remaining()).0
        invariant all.1 == DecodeAll(aesgcm, reader.Remaining()).1
        decreases |reader.Remaining()|
      {
        end := ReadFrame(reader);
        if !end.Data? {
          return;
        }
        ghost var later := DecodeAll(aesgcm, reader.Remaining()).0;
        assert delivered + ([end.data] + later) == delivered + [end.data] + later;
        delivered := delivered + [end.data];
      }
    }
  }
}
