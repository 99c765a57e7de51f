/**
 * The tunnel's frame format: a flag byte, a little-endian uint16 body length, the body, and a
 * 12-byte nonce when the body is sealed. Both peers share this format.
 */
module Frames {
  import opened Prelude
  import opened Streams

  const NONCE_SIZE := 12
  const TAG_SIZE := 16

  type Nonce = n: Bytes | |n| == NONCE_SIZE witness seq(NONCE_SIZE, _ => 0)

  /** A cipher under one key: sealing adds a tag, and `open` undoes `seal`. What `open` does otherwise is left open. */
  datatype Aead = Aead(seal: (Nonce, Bytes) -> Bytes, open: (Nonce, Bytes) -> Option<Bytes>) {
    ghost predicate Lawful() {
      forall nonce: Nonce, plain: Bytes ::
        |seal(nonce, plain)| == |plain| + TAG_SIZE && open(nonce, seal(nonce, plain)) == Some(plain)
    }
  }

  type Cipher = c: Aead | c.Lawful()
    witness Aead((n, p) => p + seq(TAG_SIZE, _ => 0),
                 (n, s) => if |s| < TAG_SIZE then None else Some(s[..|s| - TAG_SIZE]))

  /** What travels as the body of a frame: the message itself, or its sealed form. */
  function Body(cipher: Option<Cipher>, nonce: Nonce, message: Bytes): Bytes {
    match cipher
    case None => message
    case Some(c) => c.seal(nonce, message)
  }

  function EncodeFrame(cipher: Option<Cipher>, nonce: Nonce, message: Bytes): Bytes {
    var body := Body(cipher, nonce, message);
    [if cipher.None? then 0 else 1] + LittleEndian16(|body|) + body + if cipher.None? then [] else nonce
  }

  /** Every outcome of one `read`: a message, a short stream, a failed `Open`, or the nil-cipher panic. */
  datatype ReadOutcome =
    | Message(message: Bytes, rest: Bytes)
    | Short(error: ReadError)
    | CipherMismatch
    | NilCipher

  function DecodeFrame(cipher: Option<Cipher>, s: Bytes): (r: ReadOutcome)
    ensures r.Message? ==> |r.rest| < |s| && r.rest == s[|s| - |r.rest|..]
  {
    if |s| < 3 then
      Short(if |s| == 2 then UnexpectedEOF else EOF)
    else
      var len := Uint16(s[1], s[2]);
      if |s| < 3 + len then
        Short(ShortRead(|s| - 3))
      else if s[0] == 0 then
        Message(s[3..3 + len], s[3 + len..])
      else if cipher.None? then
        NilCipher
      else if |s| < 3 + len + NONCE_SIZE then
        Short(ShortRead(|s| - 3 - len))
      else
        match cipher.value.open(s[3 + len..3 + len + NONCE_SIZE], s[3..3 + len])
        case None => CipherMismatch
        case Some(plain) => Message(plain, s[3 + len + NONCE_SIZE..])
  }

  /** The body length survives the uint16 conversion. */
  predicate Fits(cipher: Option<Cipher>, message: Bytes) {
    |message| + (if cipher.None? then 0 else TAG_SIZE) < 65536
  }

  /** The layout of a frame whose length is not truncated: flag, length low byte first, body, the nonce if sealed. */
  lemma FrameLayout(cipher: Option<Cipher>, nonce: Nonce, message: Bytes)
    requires Fits(cipher, message)
    ensures var frame, body := EncodeFrame(cipher, nonce, message), Body(cipher, nonce, message);
            && |frame| >= 3 + |body| && frame[0] == (if cipher.Some? then 1 else 0)
            && Uint16(frame[1], frame[2]) == |body| && frame[3..3 + |body|] == body
            && frame[3 + |body|..] == (if cipher.Some? then nonce else [])
            && |frame| == 3 + |message| + if cipher.Some? then 16 + 12 else 0
  {
    var body := Body(cipher, nonce, message);
    Uint16OfBytes(|body|);
    var frame := EncodeFrame(cipher, nonce, message);
    assert frame[3..3 + |body|] == body;
  }

  /**
   * A reader takes exactly one message off the stream if and only if the body length fits in the uint16.
   * A plain frame is accepted by a reader with or without a key; a sealed one needs the matching key.
   */
  lemma FrameRoundTrip(reader: Option<Cipher>, writer: Option<Cipher>, nonce: Nonce, message: Bytes, rest: Bytes)
    requires writer.None? || reader == writer
    ensures DecodeFrame(reader, EncodeFrame(writer, nonce, message) + rest) == Message(message, rest)
            <==> Fits(writer, message)
  {
    var body := Body(writer, nonce, message);
    var len := |body| % 65536;
    var s := EncodeFrame(writer, nonce, message) + rest;
    Uint16OfBytes(|body|);
    assert Uint16(s[1], s[2]) == len;
    assert s[3..3 + |body|] == body;
    if Fits(writer, message) {
      assert s[3..3 + len] == body;
      if writer.Some? {
        assert s[3 + len..3 + len + NONCE_SIZE] == nonce;
        assert s[3 + len + NONCE_SIZE..] == rest;
      } else {
        assert s[3 + len..] == rest;
      }
    } else {
      var r := DecodeFrame(reader, s);
      assert r.Message? ==> |r.rest| > |rest|;
    }
  }

  /** A frame cut anywhere before its end is reported as a short read, never as a message or a key mismatch. */
  lemma CutFrameIsShort(reader: Option<Cipher>, writer: Option<Cipher>, nonce: Nonce, message: Bytes, k: nat)
    requires writer.None? || reader == writer
    requires Fits(writer, message) && k < |EncodeFrame(writer, nonce, message)|
    ensures DecodeFrame(reader, EncodeFrame(writer, nonce, message)[..k]).Short?
  {
    Uint16OfBytes(|Body(writer, nonce, message)|);
  }

  /** A plain frame with this message at the front of `s`, then `rest`. */
  ghost predicate PlainFrame(s: Bytes, message: Bytes, rest: Bytes) {
    |message| < 65536 && s == [0] + LittleEndian16(|message|) + message + rest
  }

  /** A sealed frame at the front of `s` with this nonce and body, then `rest`. */
  ghost predicate SealedFrame(s: Bytes, flag: Byte, nonce: Nonce, body: Bytes, rest: Bytes) {
    flag != 0 && |body| < 65536 && s == [flag] + LittleEndian16(|body|) + body + (nonce + rest)
  }

  lemma SealedFrameDecodes(reader: Option<Cipher>, s: Bytes, flag: Byte, nonce: Nonce, body: Bytes, rest: Bytes)
    requires SealedFrame(s, flag, nonce, body, rest)
    ensures DecodeFrame(reader, s)
            == if reader.None? then NilCipher
               else match reader.value.open(nonce, body)
                    case None => CipherMismatch
                    case Some(plain) => Message(plain, rest)
  {
    var len := |body|;
    Uint16OfBytes(len);
    assert Uint16(s[1], s[2]) == len;
    assert s[3..3 + len] == body && s[3 + len..3 + len + NONCE_SIZE] == nonce && s[3 + len + NONCE_SIZE..] == rest;
  }

  lemma PlainFrameDecodes(reader: Option<Cipher>, s: Bytes, message: Bytes, rest: Bytes)
    requires PlainFrame(s, message, rest)
    ensures DecodeFrame(reader, s) == Message(message, rest)
  {
    Uint16OfBytes(|message|);
    assert Uint16(s[1], s[2]) == |message|;
    assert s[3..3 + |message|] == message && s[3 + |message|..] == rest;
  }

  lemma DeliveredIsFrame(reader: Option<Cipher>, s: Bytes, message: Bytes, rest: Bytes)
    requires DecodeFrame(reader, s) == Message(message, rest)
    ensures PlainFrame(s, message, rest) ||
            exists flag, nonce, body ::
              SealedFrame(s, flag, nonce, body, rest) && reader.Some? && reader.value.open(nonce, body) == Some(message)
  {
    var len := Uint16(s[1], s[2]);
    var body := s[3..3 + len];
    BytesOfUint16(s[1], s[2]);
    assert s == [s[0]] + LittleEndian16(len) + body + s[3 + len..];
    if s[0] != 0 {
      var nonce: Nonce := s[3 + len..3 + len + NONCE_SIZE];
      assert s[3 + len..] == nonce + rest;
      assert SealedFrame(s, s[0], nonce, body, rest);
    }
  }

  /**
   * Whatever bytes arrive, a message is delivered if and only if they start with a plain frame that holds it, or with
   * a sealed one that the reader's cipher opens to it.
   */
  lemma DeliversExactly(reader: Option<Cipher>, s: Bytes, message: Bytes, rest: Bytes)
    ensures DecodeFrame(reader, s) == Message(message, rest) <==>
            || PlainFrame(s, message, rest)
            || exists flag, nonce, body ::
                 SealedFrame(s, flag, nonce, body, rest)
                 && reader.Some? && reader.value.open(nonce, body) == Some(message)
  {
    if PlainFrame(s, message, rest) {
      PlainFrameDecodes(reader, s, message, rest);
    }
    if flag, nonce, body :| SealedFrame(s, flag, nonce, body, rest) && reader.Some?
                            && reader.value.open(nonce, body) == Some(message) {
      SealedFrameDecodes(reader, s, flag, nonce, body, rest);
    }
    if DecodeFrame(reader, s) == Message(message, rest) {
      DeliveredIsFrame(reader, s, message, rest);
    }
    hide *;
  }

  /**
   * Which error a frame cut after `k` bytes gives: the end of the stream where one of the four reads would begin, and
   * a stream that ends too early inside one. A reader without a key panics once a sealed body has arrived.
   */
  lemma CutFrameError(reader: Option<Cipher>, writer: Option<Cipher>, nonce: Nonce, message: Bytes, k: nat)
    requires Fits(writer, message) && k < |EncodeFrame(writer, nonce, message)|
    ensures var body := |Body(writer, nonce, message)|;
            DecodeFrame(reader, EncodeFrame(writer, nonce, message)[..k])
            == if k >= 3 + body && reader.None? then NilCipher
               else Short(if k == 0 || k == 1 || k == 3 || k == 3 + body then EOF else UnexpectedEOF)
  {
    Uint16OfBytes(|Body(writer, nonce, message)|);
    var s := EncodeFrame(writer, nonce, message)[..k];
    assert k >= 3 ==> Uint16(s[1], s[2]) == |Body(writer, nonce, message)|;
  }

  /** One message and the nonce drawn for it. */
  datatype Outgoing = Outgoing(message: Bytes, nonce: Nonce)

  function Messages(sent: seq<Outgoing>): (r: seq<Bytes>)
    ensures |r| == |sent|
  {
    seq(|sent|, i requires 0 <= i < |sent| => sent[i].message)
  }

  lemma MessagesAppend(a: seq<Outgoing>, b: seq<Outgoing>)
    ensures Messages(a + b) == Messages(a) + Messages(b)
  {
  }

  function EncodeAll(cipher: Option<Cipher>, sent: seq<Outgoing>): Bytes {
    if sent == [] then []
    else EncodeFrame(cipher, sent[0].nonce, sent[0].message) + EncodeAll(cipher, sent[1..])
  }

  /** The read loop: messages up to the first failed `read`, and that failure. */
  function DecodeAll(cipher: Option<Cipher>, s: Bytes): (r: (seq<Bytes>, ReadOutcome))
    ensures !r.1.Message?
    decreases |s|
  {
    match DecodeFrame(cipher, s)
    case Message(message, rest) =>
      var (more, end) := DecodeAll(cipher, rest);
      ([message] + more, end)
    case failure => ([], failure)
  }

  ghost predicate AllFit(cipher: Option<Cipher>, sent: seq<Outgoing>) {
    forall i :: 0 <= i < |sent| ==> Fits(cipher, sent[i].message)
  }

  /** How many frames lie wholly within the first `k` bytes of the stream. */
  function WholeFrames(cipher: Option<Cipher>, sent: seq<Outgoing>, k: nat): (m: nat)
    ensures m <= |sent|
  {
    if sent == [] then 0
    else
      var first := |EncodeFrame(cipher, sent[0].nonce, sent[0].message)|;
      if k < first then 0 else 1 + WholeFrames(cipher, sent[1..], k - first)
  }

  lemma EncodeTake(cipher: Option<Cipher>, sent: seq<Outgoing>, m: nat)
    requires m < |sent|
    ensures EncodeAll(cipher, sent[..m + 1])
            == EncodeFrame(cipher, sent[0].nonce, sent[0].message) + EncodeAll(cipher, sent[1..][..m])
  {
    hide EncodeFrame;
    assert sent[..m + 1][1..] == sent[1..][..m];
  }

  /** `WholeFrames` is the one number of leading messages whose frames end by `k` while the next frame ends after it. */
  lemma {:induction false} WholeFramesBounds(cipher: Option<Cipher>, sent: seq<Outgoing>, k: nat)
    ensures var m := WholeFrames(cipher, sent, k);
            |EncodeAll(cipher, sent[..m])| <= k && (m < |sent| ==> k < |EncodeAll(cipher, sent[..m + 1])|)
  {
    hide EncodeFrame;
    if sent != [] {
      var first := |EncodeFrame(cipher, sent[0].nonce, sent[0].message)|;
      if k < first {
        EncodeTake(cipher, sent, 0);
        hide EncodeAll;
      } else {
        WholeFramesBounds(cipher, sent[1..], k - first);
        var m := WholeFrames(cipher, sent[1..], k - first);
        EncodeTake(cipher, sent, m);
        if m + 1 < |sent| {
          EncodeTake(cipher, sent, m + 1);
        }
        hide EncodeAll;
        assert WholeFrames(cipher, sent, k) == m + 1;
      }
    }
  }

  lemma ReadNothing(reader: Option<Cipher>)
    ensures DecodeAll(reader, []) == ([], Short(EOF))
  {
  }

  lemma ReadFirst(reader: Option<Cipher>, writer: Option<Cipher>, first: Outgoing, later: Bytes)
    requires writer.None? || reader == writer
    requires Fits(writer, first.message)
    ensures var (got, end) := DecodeAll(reader, later);
            DecodeAll(reader, EncodeFrame(writer, first.nonce, first.message) + later) == ([first.message] + got, end)
  {
    FrameRoundTrip(reader, writer, first.nonce, first.message, later);
  }

  lemma ReadCut(reader: Option<Cipher>, writer: Option<Cipher>, first: Outgoing, later: Bytes, k: nat)
    requires writer.None? || reader == writer
    requires Fits(writer, first.message) && k < |EncodeFrame(writer, first.nonce, first.message)|
    ensures var (got, end) := DecodeAll(reader, (EncodeFrame(writer, first.nonce, first.message) + later)[..k]);
            got == [] && end.Short?
  {
    var frame := EncodeFrame(writer, first.nonce, first.message);
    assert (frame + later)[..k] == frame[..k];
    CutFrameIsShort(reader, writer, first.nonce, first.message, k);
  }

  /**
   * However much of the stream arrives, the read loop delivers exactly the messages whose frames arrived whole,
   * in order, and then stops with a short read.
   */
  lemma {:induction false} StreamCut(reader: Option<Cipher>, writer: Option<Cipher>, sent: seq<Outgoing>, k: nat)
    requires writer.None? || reader == writer
    requires AllFit(writer, sent) && k <= |EncodeAll(writer, sent)|
    ensures var (got, end) := DecodeAll(reader, EncodeAll(writer, sent)[..k]);
            end.Short? && got == Messages(sent)[..WholeFrames(writer, sent, k)]
  {
    hide DecodeFrame, EncodeFrame, DecodeAll;
    if sent == [] {
      assert EncodeAll(writer, sent)[..k] == [];
      ReadNothing(reader);
    } else if k < |EncodeFrame(writer, sent[0].nonce, sent[0].message)| {
      ReadCut(reader, writer, sent[0], EncodeAll(writer, sent[1..]), k);
    } else {
      var frame := EncodeFrame(writer, sent[0].nonce, sent[0].message);
      var later := EncodeAll(writer, sent[1..]);
      assert EncodeAll(writer, sent) == frame + later;
      StreamCut(reader, writer, sent[1..], k - |frame|);
      assert (frame + later)[..k] == frame + later[..k - |frame|];
      ReadFirst(reader, writer, sent[0], later[..k - |frame|]);
      var m := WholeFrames(writer, sent[1..], k - |frame|);
      assert WholeFrames(writer, sent, k) == m + 1;
      assert Messages(sent)[..m + 1] == [sent[0].message] + Messages(sent[1..])[..m];
    }
  }

  /** The whole stream gives back the whole list of messages, then a clean end of stream. */
  lemma {:induction false} StreamRoundTrip(reader: Option<Cipher>, writer: Option<Cipher>, sent: seq<Outgoing>)
    requires writer.None? || reader == writer
    requires AllFit(writer, sent)
    ensures DecodeAll(reader, EncodeAll(writer, sent)) == (Messages(sent), Short(EOF))
  {
    hide DecodeFrame, EncodeFrame, DecodeAll;
    if sent == [] {
      ReadNothing(reader);
    } else {
      ReadFirst(reader, writer, sent[0], EncodeAll(writer, sent[1..]));
      StreamRoundTrip(reader, writer, sent[1..]);
      assert Messages(sent) == [sent[0].message] + Messages(sent[1..]);
    }
  }

  lemma RejectedFirst(reader: Option<Cipher>, key: Cipher, foreign: Outgoing, later: Bytes)
    requires Fits(Some(key), foreign.message)
    requires reader.Some? ==> reader.value.open(foreign.nonce, key.seal(foreign.nonce, foreign.message)) == None
    ensures DecodeAll(reader, EncodeFrame(Some(key), foreign.nonce, foreign.message) + later)
            == ([], if reader.Some? then CipherMismatch else NilCipher)
  {
    var frame, body := EncodeFrame(Some(key), foreign.nonce, foreign.message), key.seal(foreign.nonce, foreign.message);
    assert frame + later == [1] + LittleEndian16(|body|) + body + (foreign.nonce + later);
    assert SealedFrame(frame + later, 1, foreign.nonce, body, later);
    SealedFrameDecodes(reader, frame + later, 1, foreign.nonce, body, later);
    hide DecodeFrame, EncodeFrame, SealedFrame;
  }

  /**
   * A frame sealed under another key, which the reader's cipher rejects, ends the loop: what came before it has been
   * delivered, and nothing of it or after it is. A reader without a key panics on it.
   */
  lemma {:induction false} RejectedFrameEnds(reader: Option<Cipher>, own: seq<Outgoing>, key: Cipher, foreign: Outgoing,
                                             later: Bytes)
    requires AllFit(reader, own) && Fits(Some(key), foreign.message)
    requires reader.Some? ==> reader.value.open(foreign.nonce, key.seal(foreign.nonce, foreign.message)) == None
    ensures DecodeAll(reader, EncodeAll(reader, own) + (EncodeFrame(Some(key), foreign.nonce, foreign.message) + later))
            == (Messages(own), if reader.Some? then CipherMismatch else NilCipher)
  {
    hide DecodeFrame, EncodeFrame, DecodeAll;
    var frame := EncodeFrame(Some(key), foreign.nonce, foreign.message);
    if own == [] {
      assert EncodeAll(reader, own) + (frame + later) == frame + later;
      RejectedFirst(reader, key, foreign, later);
    } else {
      var first, rest := EncodeFrame(reader, own[0].nonce, own[0].message), EncodeAll(reader, own[1..]);
      assert EncodeAll(reader, own) + (frame + later) == first + (rest + (frame + later));
      ReadFirst(reader, reader, own[0], rest + (frame + later));
      RejectedFrameEnds(reader, own[1..], key, foreign, later);
      assert Messages(own) == [own[0].message] + Messages(own[1..]);
    }
  }

  lemma {:induction false} EncodeAllAppend(cipher: Option<Cipher>, a: seq<Outgoing>, b: seq<Outgoing>)
    ensures EncodeAll(cipher, a + b) == EncodeAll(cipher, a) + EncodeAll(cipher, b)
  {
    hide EncodeFrame;
    if a == [] {
      assert a + b == b;
    } else {
      var frame := EncodeFrame(cipher, a[0].nonce, a[0].message);
      calc {
        EncodeAll(cipher, a + b);
        { assert (a + b)[1..] == a[1..] + b; }
        frame + EncodeAll(cipher, a[1..] + b);
        { EncodeAllAppend(cipher, a[1..], b); }
        frame + (EncodeAll(cipher, a[1..]) + EncodeAll(cipher, b));
        EncodeAll(cipher, a) + EncodeAll(cipher, b);
      }
    }
  }

  lemma EncodeAllSnoc(cipher: Option<Cipher>, a: seq<Outgoing>, last: Outgoing)
    ensures EncodeAll(cipher, a + [last]) == EncodeAll(cipher, a) + EncodeFrame(cipher, last.nonce, last.message)
  {
    hide EncodeFrame;
    EncodeAllAppend(cipher, a, [last]);
    assert EncodeAll(cipher, [last]) == EncodeFrame(cipher, last.nonce, last.message) + EncodeAll(cipher, []);
  }
}
