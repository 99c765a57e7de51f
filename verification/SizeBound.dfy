/** How large a packet may be before its frame's uint16 length is truncated, and what survives end to end. */
module SizeBound {
  import opened Prelude
  import opened Wire
  import opened Envelope
  import opened Frames

  /** The largest packet that still fits in a frame, with and without a key. */
  function LargestPacket(cipher: Option<Cipher>): nat {
    if cipher.Some? then 65511 else 65527
  }

  lemma PacketFits(cipher: Option<Cipher>, payload: Bytes)
    ensures Fits(cipher, Marshal(PacketType(payload))) <==> |payload| <= LargestPacket(cipher)
  {
    var n := |payload|;
    PacketLength(payload);
    if n <= 65536 {
      SizeVarintBounds(n);
      SizeVarintBounds(1 + SizeVarint(n) + n);
    }
  }

  lemma SizeVarintBounds(n: nat)
    requires n < 128 * 128 * 128
    ensures SizeVarint(n) == if n < 128 then 1 else if n < 128 * 128 then 2 else 3
  {
  }

  /** A packet crosses the tunnel unharmed, leaving the stream at the next frame, iff it respects the bound. */
  lemma PacketCrossesTunnel(cipher: Option<Cipher>, nonce: Nonce, payload: Bytes, rest: Bytes)
    ensures var data := Marshal(PacketType(payload));
            DecodeFrame(cipher, EncodeFrame(cipher, nonce, data) + rest) == Message(data, rest)
            <==> |payload| <= LargestPacket(cipher)
    ensures |payload| <= LargestPacket(cipher) ==>
              Unmarshal(Marshal(PacketType(payload))) == Some(PacketType(payload))
  {
    hide Marshal, Unmarshal, DecodeFrame, EncodeFrame;
    PacketFits(cipher, payload);
    FrameRoundTrip(cipher, cipher, nonce, Marshal(PacketType(payload)), rest);
    if |payload| <= LargestPacket(cipher) {
      EnvelopeRoundTrip(PacketType(payload));
    }
  }
}
