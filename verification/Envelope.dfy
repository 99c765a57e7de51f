/** The tunnel's envelope: a ping or a packet, with its marshaler, sizer and unmarshaler. */
module Envelope {
  import opened Prelude
  import opened Wire

  /** Strings are their UTF-8 bytes. */
  datatype Ping = Ping(timestamp: Int64, localAddr: Bytes, localPrivateAddr: Bytes, ip: Bytes, dc: Bytes)

  datatype Envelope = NoType | PingType(ping: Ping) | PacketType(payload: Bytes)

  const NO_PING := Ping(0, [], [], [], [])

  /** A proto3 scalar field is left out when it has its zero value. */
  function ScalarField(num: nat, i: Int64): Bytes {
    if i == 0 then [] else Varint(8 * num + VARINT) + Varint(ToUint64(i))
  }

  function TextField(num: nat, text: Bytes): Bytes {
    if text == [] then [] else LengthDelimited(num, text)
  }

  function PingBytes(p: Ping): Bytes {
    ScalarField(1, p.timestamp)
    + (TextField(2, p.localAddr)
    + (TextField(3, p.localPrivateAddr)
    + (TextField(4, p.ip)
    + TextField(5, p.dc))))
  }

  function PacketBytes(payload: Bytes): Bytes {
    TextField(1, payload)
  }

  function Marshal(e: Envelope): Bytes {
    match e
    case NoType => []
    case PingType(p) => LengthDelimited(1, PingBytes(p))
    case PacketType(payload) => LengthDelimited(2, PacketBytes(payload))
  }

  function TextSize(num: nat, text: Bytes): nat {
    if text == [] then 0 else SizeVarint(8 * num + BYTES) + SizeVarint(|text|) + |text|
  }

  function PingSize(p: Ping): nat {
    (if p.timestamp == 0 then 0 else SizeVarint(8 + VARINT) + SizeVarint(ToUint64(p.timestamp)))
    + TextSize(2, p.localAddr) + TextSize(3, p.localPrivateAddr) + TextSize(4, p.ip) + TextSize(5, p.dc)
  }

  lemma TextFieldLength(num: nat, text: Bytes)
    ensures |TextField(num, text)| == TextSize(num, text)
  {
    VarintLength(8 * num + BYTES);
    VarintLength(|text|);
  }

  lemma PingLength(p: Ping)
    ensures |PingBytes(p)| == PingSize(p)
  {
    hide TextField, TextSize, Varint, SizeVarint;
    VarintLength(8 + VARINT);
    VarintLength(ToUint64(p.timestamp));
    TextFieldLength(2, p.localAddr);
    TextFieldLength(3, p.localPrivateAddr);
    TextFieldLength(4, p.ip);
    TextFieldLength(5, p.dc);
  }

  /** The sizer accumulates its result without building the message. */
  method OneofSizer(e: Envelope) returns (n: nat)
    ensures n == |Marshal(e)|
  {
    n := 0;
    match e {
      case NoType =>
      case PingType(p) =>
        PingLength(p);
        var s := PingSize(p);
        n := n + 1;
        n := n + SizeVarint(s);
        n := n + s;
        VarintLength(s);
        VarintLength(10);
      case PacketType(payload) =>
        TextFieldLength(1, payload);
        var s := TextSize(1, payload);
        n := n + 1;
        n := n + SizeVarint(s);
        n := n + s;
        VarintLength(s);
        VarintLength(18);
    }
  }

  /** A field of the wrong wire type or of an unknown number leaves the message as it is. */
  function MergePing(p: Ping, f: Field): Ping {
    match f
    case VarintField(1, v) => p.(timestamp := FromUint64(v))
    case BytesField(2, s) => p.(localAddr := s)
    case BytesField(3, s) => p.(localPrivateAddr := s)
    case BytesField(4, s) => p.(ip := s)
    case BytesField(5, s) => p.(dc := s)
    case _ => p
  }

  function DecodePing(s: Bytes, p: Ping): Option<Ping>
    decreases |s|
  {
    if s == [] then Some(p)
    else
      match NextField(s)
      case None => None
      case Some((f, rest)) => DecodePing(rest, MergePing(p, f))
  }

  function DecodePacket(s: Bytes, payload: Bytes): Option<Bytes>
    decreases |s|
  {
    if s == [] then Some(payload)
    else
      match NextField(s)
      case None => None
      case Some((f, rest)) => DecodePacket(rest, if f.BytesField? && f.num == 1 then f.payload else payload)
  }

  /** One step of the envelope's decoder: the oneof cases, each a fresh message; any other field number is skipped. */
  function OneofUnmarshal(e: Envelope, f: Field): Option<Envelope> {
    if f.num == 1 then
      if !f.BytesField? then None
      else match DecodePing(f.payload, NO_PING)
           case None => None
           case Some(p) => Some(PingType(p))
    else if f.num == 2 then
      if !f.BytesField? then None
      else match DecodePacket(f.payload, [])
           case None => None
           case Some(payload) => Some(PacketType(payload))
    else Some(e)
  }

  function UnmarshalFrom(s: Bytes, e: Envelope): Option<Envelope>
    decreases |s|
  {
    if s == [] then Some(e)
    else
      match NextField(s)
      case None => None
      case Some((f, rest)) =>
        match OneofUnmarshal(e, f)
        case None => None
        case Some(e') => UnmarshalFrom(rest, e')
  }

  function Unmarshal(s: Bytes): Option<Envelope> {
    UnmarshalFrom(s, NoType)
  }

  lemma DecodeTextField(num: nat, text: Bytes, rest: Bytes, p: Ping)
    requires 2 <= num <= 5 && |text| < TWO_64
    requires MergePing(p, BytesField(num, [])) == p
    ensures DecodePing(TextField(num, text) + rest, p) == DecodePing(rest, MergePing(p, BytesField(num, text)))
  {
    hide NextField, LengthDelimited;
    if text == [] {
      assert TextField(num, text) + rest == rest;
    } else {
      NextBytesField(num, text, rest);
      assert |LengthDelimited(num, text) + rest| > |rest|;
    }
  }

  lemma DecodeTimestamp(i: Int64, rest: Bytes)
    ensures DecodePing(ScalarField(1, i) + rest, NO_PING) == DecodePing(rest, NO_PING.(timestamp := i))
  {
    if i == 0 {
      assert ScalarField(1, i) + rest == rest;
    } else {
      var v := ToUint64(i);
      NextVarintField(1, v, rest);
      assert ScalarField(1, i) == Varint(8 + VARINT) + Varint(v);
      MergeTimestamp(i);
      hide NextField, Varint, ScalarField, MergePing, ToUint64;
      assert DecodePing(ScalarField(1, i) + rest, NO_PING) == DecodePing(rest, MergePing(NO_PING, VarintField(1, v)));
    }
  }

  lemma MergeTimestamp(i: Int64)
    ensures MergePing(NO_PING, VarintField(1, ToUint64(i))) == NO_PING.(timestamp := i)
  {
  }

  lemma DecodePingBytes(p: Ping)
    requires |PingBytes(p)| < TWO_64
    ensures DecodePing(PingBytes(p), NO_PING) == Some(p)
  {
    TextFits(p);
    hide DecodePing, TextField, ScalarField;
    var f5 := TextField(5, p.dc);
    var f4 := TextField(4, p.ip) + f5;
    var f3 := TextField(3, p.localPrivateAddr) + f4;
    var f2 := TextField(2, p.localAddr) + f3;
    DecodeTimestamp(p.timestamp, f2);
    var p1 := NO_PING.(timestamp := p.timestamp);
    DecodeTextField(2, p.localAddr, f3, p1);
    var p2 := p1.(localAddr := p.localAddr);
    DecodeTextField(3, p.localPrivateAddr, f4, p2);
    var p3 := p2.(localPrivateAddr := p.localPrivateAddr);
    DecodeTextField(4, p.ip, f5, p3);
    var p4 := p3.(ip := p.ip);
    assert f5 + [] == f5;
    DecodeTextField(5, p.dc, [], p4);
    DecodeEmpty(p4.(dc := p.dc));
  }

  lemma DecodeEmpty(p: Ping)
    ensures DecodePing([], p) == Some(p)
  {
  }

  lemma TextFits(p: Ping)
    ensures |p.localAddr| <= |PingBytes(p)| && |p.localPrivateAddr| <= |PingBytes(p)|
    ensures |p.ip| <= |PingBytes(p)| && |p.dc| <= |PingBytes(p)|
  {
    hide Varint;
  }

  /** The fields that lie on the wire in `s`, split off one by one. */
  function Fields(s: Bytes): Option<seq<Field>>
    decreases |s|
  {
    if s == [] then Some([])
    else
      match NextField(s)
      case None => None
      case Some((f, rest)) =>
        match Fields(rest)
        case None => None
        case Some(later) => Some([f] + later)
  }

  lemma FirstField(s: Bytes, f: Field, rest: Bytes)
    requires NextField(s) == Some((f, rest)) && s != [] && Fields(rest).Some?
    ensures Fields(s) == Some([f] + Fields(rest).value)
  {
    hide NextField;
  }

  function TextOnWire(num: nat, text: Bytes): seq<Field> {
    if text == [] then [] else [BytesField(num, text)]
  }

  /** A ping's fields by number and wire type, in the order of their numbers; fields with zero values are left out. */
  function PingOnWire(p: Ping): seq<Field> {
    (if p.timestamp == 0 then [] else [VarintField(1, ToUint64(p.timestamp))])
    + (TextOnWire(2, p.localAddr)
    + (TextOnWire(3, p.localPrivateAddr)
    + (TextOnWire(4, p.ip)
    + TextOnWire(5, p.dc))))
  }

  lemma TextThenRest(num: nat, text: Bytes, rest: Bytes)
    requires 1 <= num < 16 && |text| < TWO_64 && Fields(rest).Some?
    ensures Fields(TextField(num, text) + rest) == Some(TextOnWire(num, text) + Fields(rest).value)
  {
    hide NextField, LengthDelimited;
    var later := Fields(rest).value;
    assert [] + later == later;
    if text == [] {
      assert TextField(num, text) + rest == rest;
    } else {
      NextBytesField(num, text, rest);
      assert |LengthDelimited(num, text) + rest| > |rest|;
      FirstField(LengthDelimited(num, text) + rest, BytesField(num, text), rest);
    }
  }

  lemma TimestampThenRest(i: Int64, rest: Bytes)
    requires Fields(rest).Some?
    ensures Fields(ScalarField(1, i) + rest)
            == Some((if i == 0 then [] else [VarintField(1, ToUint64(i))]) + Fields(rest).value)
  {
    hide NextField;
    var later := Fields(rest).value;
    assert [] + later == later;
    if i == 0 {
      assert ScalarField(1, i) + rest == rest;
    } else {
      NextVarintField(1, ToUint64(i), rest);
      FirstField(ScalarField(1, i) + rest, VarintField(1, ToUint64(i)), rest);
    }
  }

  lemma OneMessageField(num: nat, inner: Bytes)
    requires 1 <= num < 16 && |inner| < TWO_64
    ensures Fields(LengthDelimited(num, inner)) == Some([BytesField(num, inner)])
  {
    NextBytesField(num, inner, []);
    hide NextField, Varint;
    assert LengthDelimited(num, inner) + [] == LengthDelimited(num, inner);
    assert Fields([]) == Some([]);
    FirstField(LengthDelimited(num, inner), BytesField(num, inner), []);
    assert [BytesField(num, inner)] + [] == [BytesField(num, inner)];
  }

  /** A ping envelope is field 1, and in it every field of the ping has its own number and wire type. */
  lemma PingLayout(p: Ping)
    requires |PingBytes(p)| < TWO_64
    ensures Fields(Marshal(PingType(p))) == Some([BytesField(1, PingBytes(p))])
    ensures Fields(PingBytes(p)) == Some(PingOnWire(p))
  {
    TextFits(p);
    OneMessageField(1, PingBytes(p));
    assert Fields([]) == Some([]);
    hide Fields, TextField, ScalarField, TextOnWire, LengthDelimited;
    var f5 := TextField(5, p.dc);
    var f4 := TextField(4, p.ip) + f5;
    var f3 := TextField(3, p.localPrivateAddr) + f4;
    var f2 := TextField(2, p.localAddr) + f3;
    assert f5 + [] == f5;
    TextThenRest(5, p.dc, []);
    TextThenRest(4, p.ip, f5);
    TextThenRest(3, p.localPrivateAddr, f4);
    TextThenRest(2, p.localAddr, f3);
    TimestampThenRest(p.timestamp, f2);
    assert TextOnWire(5, p.dc) + [] == TextOnWire(5, p.dc);
  }

  /** A packet envelope is field 2, and its payload is field 1 in that. */
  lemma PacketLayout(payload: Bytes)
    requires |PacketBytes(payload)| < TWO_64
    ensures Fields(Marshal(PacketType(payload))) == Some([BytesField(2, PacketBytes(payload))])
    ensures Fields(PacketBytes(payload)) == Some(TextOnWire(1, payload))
  {
    OneMessageField(2, PacketBytes(payload));
    assert |payload| <= |PacketBytes(payload)|;
    assert Fields([]) == Some([]);
    hide Fields, TextField, TextOnWire, LengthDelimited;
    TextThenRest(1, payload, []);
    assert TextField(1, payload) + [] == TextField(1, payload);
    assert TextOnWire(1, payload) + [] == TextOnWire(1, payload);
  }

  /** Unmarshalling what the marshaler emitted restores the same oneof case and the same fields. */
  lemma EnvelopeRoundTrip(e: Envelope)
    requires |Marshal(e)| < TWO_64
    ensures Unmarshal(Marshal(e)) == Some(e)
  {
    match e {
      case NoType =>
      case PingType(p) =>
        hide NextField, DecodePing, Varint, PingBytes;
        DecodePingBytes(p);
        OneField(1, PingBytes(p));
      case PacketType(payload) =>
        hide NextField, Varint, DecodePacket;
        DecodePacketBytes(payload);
        OneField(2, PacketBytes(payload));
    }
  }

  lemma OneField(num: nat, inner: Bytes)
    requires 1 <= num <= 2 && |LengthDelimited(num, inner)| < TWO_64
    ensures Unmarshal(LengthDelimited(num, inner)) == OneofUnmarshal(NoType, BytesField(num, inner))
  {
    var s := LengthDelimited(num, inner);
    assert s + [] == s && s != [];
    NextBytesField(num, inner, []);
    hide NextField, OneofUnmarshal;
    if OneofUnmarshal(NoType, BytesField(num, inner)).Some? {
      assert UnmarshalFrom([], OneofUnmarshal(NoType, BytesField(num, inner)).value).Some?;
    }
  }

  lemma DecodePacketBytes(payload: Bytes)
    requires |payload| < TWO_64
    ensures DecodePacket(PacketBytes(payload), []) == Some(payload)
  {
    if payload != [] {
      NextBytesField(1, payload, []);
      hide NextField;
      assert LengthDelimited(1, payload) + [] == LengthDelimited(1, payload);
    }
  }

  /** The length of a packet's envelope, in full: one tag byte and one length on each of the two levels. */
  lemma PacketLength(payload: Bytes)
    ensures var n := |payload|;
            var inner := if n == 0 then 0 else 1 + SizeVarint(n) + n;
            |Marshal(PacketType(payload))| == 1 + SizeVarint(inner) + inner
  {
    TextFieldLength(1, payload);
    VarintLength(|PacketBytes(payload)|);
    VarintLength(18);
    VarintLength(10);
  }

  /** The growing output buffer, or the unread input, of one marshalling call. */
  class Buffer {
    var buf: Bytes

    constructor (input: Bytes)
      ensures buf == input
    {
      buf := input;
    }

    method EncodeVarint(n: nat)
      modifies this
      ensures buf == old(buf) + Varint(n)
    {
      var x := n;
      ghost var out: Bytes := [];
      while x >= 128
        invariant buf == old(buf) + out
        invariant out + Varint(x) == Varint(n)
      {
        assert Varint(x) == [x % 128 + 128] + Varint(x / 128);
        assert out + ([x % 128 + 128] + Varint(x / 128)) == out + [x % 128 + 128] + Varint(x / 128);
        buf := buf + [x % 128 + 128];
        out := out + [x % 128 + 128];
        x := x / 128;
      }
      buf := buf + [x];
    }

    method EncodeMessage(inner: Bytes)
      modifies this
      ensures buf == old(buf) + (Varint(|inner|) + inner)
    {
      EncodeVarint(|inner|);
      buf := buf + inner;
    }

    /** Takes a length-delimited message off the input. */
    method DecodeMessage() returns (inner: Option<Bytes>)
      modifies this
      ensures var d := DecodeVarint(old(buf));
              if d.Some? && |d.value.1| >= d.value.0
              then inner == Some(d.value.1[..d.value.0]) && buf == d.value.1[d.value.0..]
              else inner == None && buf == old(buf)
    {
      match DecodeVarint(buf) {
        case None => return None;
        case Some((len, s)) =>
          if |s| < len {
            return None;
          }
          buf := s[len..];
          return Some(s[..len]);
      }
    }
  }

  /** A message under construction: its oneof field is assigned by the unmarshaler. */
  class EnvelopeMessage {
    var typ: Envelope

    constructor (e: Envelope)
      ensures typ == e
    {
      typ := e;
    }

    method OneofMarshaler(b: Buffer)
      modifies b
      ensures b.buf == old(b.buf) + Marshal(typ)
    {
      hide Varint, PingBytes, PacketBytes;
      ghost var start := b.buf;
      match typ {
        case PingType(p) =>
          b.EncodeVarint(10);
          b.EncodeMessage(PingBytes(p));
          assert b.buf == start + LengthDelimited(1, PingBytes(p));
        case PacketType(payload) =>
          b.EncodeVarint(18);
          b.EncodeMessage(PacketBytes(payload));
          assert b.buf == start + LengthDelimited(2, PacketBytes(payload));
        case NoType =>
      }
    }

    /** Handles one field whose key has been read; the message's bytes are next in `b`. */
    method OneofUnmarshaler(tag: nat, wire: nat, b: Buffer) returns (handled: bool, ok: bool)
      modifies this, b
      ensures handled <==> tag == 1 || tag == 2
      ensures !handled ==> ok && typ == old(typ) && b.buf == old(b.buf)
      ensures handled && wire != BYTES ==> !ok && typ == old(typ) && b.buf == old(b.buf)
      ensures handled && wire == BYTES ==>
                var d := DecodeVarint(old(b.buf));
                if d.Some? && |d.value.1| >= d.value.0
                then var e := OneofUnmarshal(old(typ), BytesField(tag, d.value.1[..d.value.0]));
                     ok == e.Some? && (ok ==> typ == e.value) && b.buf == d.value.1[d.value.0..]
                else !ok
    {
      if tag != 1 && tag != 2 {
        return false, true;
      }
      if wire != BYTES {
        return true, false;
      }
      var inner := b.DecodeMessage();
      if inner.None? {
        return true, false;
      }
      if tag == 1 {
        match DecodePing(inner.value, NO_PING) {
          case None => return true, false;
          case Some(p) => typ := PingType(p);
        }
      } else {
        match DecodePacket(inner.value, []) {
          case None => return true, false;
          case Some(payload) => typ := PacketType(payload);
        }
      }
      return true, true;
    }
  }
}
