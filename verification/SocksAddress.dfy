/** SOCKS5 addresses (section 5 of RFC 1928): the request parser's reader and the reply's printer. */
module SocksAddress {
  import opened Prelude
  import opened Streams

  const VERSION: Byte := 5
  const IPV4: Byte := 1
  const FQDN: Byte := 3
  const IPV6: Byte := 4

  datatype AddrSpec = AddrSpec(fqdn: Bytes, ip: Bytes, port: int)

  datatype AddrError = AddrRead(error: ReadError) | UnrecognizedType

  /** `readAddrSpec` on the flat input. */
  function ParseAddr(s: Bytes): Result<(AddrSpec, Bytes), AddrError> {
    match TakeFull(s, 1)
    case Err(e) => Err(AddrRead(e))
    case Ok((kind, s1)) =>
      if kind[0] == IPV4 then ParseIp(s1, 4)
      else if kind[0] == IPV6 then ParseIp(s1, 16)
      else if kind[0] == FQDN then
        match TakeFull(s1, 1)
        case Err(e) => Err(AddrRead(e))
        case Ok((len, s2)) =>
          match TakeFull(s2, len[0])
          case Err(e) => Err(AddrRead(e))
          case Ok((name, s3)) => ParsePort(name, [], s3)
      else Err(UnrecognizedType)
  }

  function ParseIp(s: Bytes, size: nat): Result<(AddrSpec, Bytes), AddrError> {
    match TakeFull(s, size)
    case Err(e) => Err(AddrRead(e))
    case Ok((ip, rest)) => ParsePort([], ip, rest)
  }

  function ParsePort(fqdn: Bytes, ip: Bytes, s: Bytes): Result<(AddrSpec, Bytes), AddrError> {
    match TakeFull(s, 2)
    case Err(e) => Err(AddrRead(e))
    case Ok((port, rest)) => Ok((AddrSpec(fqdn, ip, Uint16(port[1], port[0])), rest))
  }

  /** The addresses a request can carry. */
  predicate OnWire(a: AddrSpec) {
    && 0 <= a.port < 65536
    && ((a.fqdn == [] && (|a.ip| == 4 || |a.ip| == 16)) || (a.ip == [] && |a.fqdn| <= 255))
  }

  /** How a client writes such an address. */
  function AddrBytes(a: AddrSpec): Bytes
    requires OnWire(a)
  {
    (if |a.ip| == 4 then [1] + a.ip
     else if |a.ip| == 16 then [4] + a.ip
     else [3, |a.fqdn|] + a.fqdn)
    + BigEndian16(a.port)
  }

  lemma ParsePortOf(fqdn: Bytes, ip: Bytes, port: int, rest: Bytes)
    requires 0 <= port < 65536
    ensures ParsePort(fqdn, ip, BigEndian16(port) + rest) == Ok((AddrSpec(fqdn, ip, port), rest))
  {
    Uint16OfBytes(port);
    var s := BigEndian16(port) + rest;
    assert s[..2] == BigEndian16(port) && s[2..] == rest;
  }

  lemma ParsePortSound(fqdn: Bytes, ip: Bytes, s: Bytes)
    ensures match ParsePort(fqdn, ip, s)
            case Err(_) => true
            case Ok((a, rest)) =>
              a.fqdn == fqdn && a.ip == ip && 0 <= a.port < 65536 && s == BigEndian16(a.port) + rest
  {
    if |s| >= 2 {
      assert s == s[..2] + s[2..];
      var h: int, l: int := s[0], s[1];
      assert Uint16(s[1], s[0]) == l + 256 * h;
      assert BigEndian16(l + 256 * h) == s[..2];
    }
  }

  lemma ParseIpComplete(a: AddrSpec, rest: Bytes)
    requires OnWire(a) && a.ip != []
    ensures ParseAddr(AddrBytes(a) + rest) == Ok((a, rest))
  {
    var s, tail := AddrBytes(a) + rest, BigEndian16(a.port) + rest;
    ParsePortOf([], a.ip, a.port, rest);
    hide ParsePort;
    assert s[1..] == a.ip + tail;
    assert (a.ip + tail)[..|a.ip|] == a.ip && (a.ip + tail)[|a.ip|..] == tail;
  }

  lemma ParseFqdnComplete(a: AddrSpec, rest: Bytes)
    requires OnWire(a) && a.ip == []
    ensures ParseAddr(AddrBytes(a) + rest) == Ok((a, rest))
  {
    var s, tail := AddrBytes(a) + rest, BigEndian16(a.port) + rest;
    ParsePortOf(a.fqdn, [], a.port, rest);
    hide ParsePort, ParseIp;
    assert s[1..] == [|a.fqdn|] + (a.fqdn + tail);
    assert s[1..][1..] == a.fqdn + tail;
    assert (a.fqdn + tail)[..|a.fqdn|] == a.fqdn && (a.fqdn + tail)[|a.fqdn|..] == tail;
  }

  /** The parser accepts what a client can write, and leaves what follows. */
  lemma ParseAddrComplete(a: AddrSpec, rest: Bytes)
    requires OnWire(a)
    ensures ParseAddr(AddrBytes(a) + rest) == Ok((a, rest))
  {
    if a.ip != [] {
      ParseIpComplete(a, rest);
    } else {
      ParseFqdnComplete(a, rest);
    }
    hide ParseAddr, AddrBytes;
  }

  lemma ParseIpSound(s: Bytes, size: nat)
    requires size == 4 || size == 16
    ensures match ParseIp(s, size)
            case Err(_) => true
            case Ok((a, rest)) => OnWire(a) && |a.ip| == size && s == a.ip + (BigEndian16(a.port) + rest)
  {
    if |s| >= size {
      ParsePortSound([], s[..size], s[size..]);
      hide ParsePort;
      assert s == s[..size] + s[size..];
    }
  }

  /** The parser accepts nothing else. */
  lemma ParseAddrSound(s: Bytes)
    ensures match ParseAddr(s)
            case Err(_) => true
            case Ok((a, rest)) => OnWire(a) && s == AddrBytes(a) + rest
  {
    if |s| >= 1 && (s[0] == IPV4 || s[0] == IPV6) {
      ParseIpSound(s[1..], if s[0] == IPV4 then 4 else 16);
      hide ParseIp;
      assert s == [s[0]] + s[1..];
    } else if |s| >= 2 && s[0] == FQDN && |s| >= 2 + s[1] as int {
      var name, tail := s[2..2 + s[1] as int], s[2 + s[1] as int..];
      assert s[1..][1..] == name + tail;
      assert (name + tail)[..|name|] == name && (name + tail)[|name|..] == tail;
      ParsePortSound(name, [], tail);
      hide ParsePort, ParseIp;
      assert s == [FQDN, |name|] + name + tail;
    }
  }

  /** Go's `IP.To4`: four bytes, or the last four of an IPv4-mapped IPv6 address. */
  function To4(ip: Bytes): Option<Bytes> {
    if |ip| == 4 then Some(ip)
    else if |ip| == 16 && (forall i :: 0 <= i < 10 ==> ip[i] == 0) && ip[10] == 255 && ip[11] == 255 then Some(ip[12..])
    else None
  }

  /** What `sendReply` can format: a name, or an address of 4 or 16 bytes. */
  predicate Formattable(a: AddrSpec) {
    a.fqdn != [] || |a.ip| == 4 || |a.ip| == 16
  }

  /** The address a reply is meant to show: the name takes precedence, and a mapped address becomes 4 bytes. */
  function Shown(a: AddrSpec): AddrSpec
    requires Formattable(a)
  {
    if a.fqdn != [] then AddrSpec(a.fqdn, [], a.port)
    else if To4(a.ip).Some? then AddrSpec([], To4(a.ip).value, a.port)
    else AddrSpec([], a.ip, a.port)
  }

  function ReplyMessage(resp: Byte, addrType: Byte, addrBody: Bytes, port: int): Bytes {
    [VERSION, resp, 0, addrType] + addrBody + BigEndian16(port)
  }

  /** The reply message; lengths and ports are truncated by the code's conversions. `None` is a formatting error. */
  function ReplyBytes(resp: Byte, addr: Option<AddrSpec>): Option<Bytes> {
    match addr
    case None => Some(ReplyMessage(resp, IPV4, [0, 0, 0, 0], 0))
    case Some(a) =>
      if !Formattable(a) then None
      else if a.fqdn != [] then Some(ReplyMessage(resp, FQDN, [|a.fqdn| % 256] + a.fqdn, a.port))
      else if To4(a.ip).Some? then Some(ReplyMessage(resp, IPV4, To4(a.ip).value, a.port))
      else Some(ReplyMessage(resp, IPV6, a.ip, a.port))
  }

  /**
   * Reading the address part of a reply gives back the address it shows, and consumes nothing after it, if and
   * only if the name has at most 255 bytes and the port is a 16-bit number.
   */
  lemma ReplyRoundTrip(resp: Byte, a: AddrSpec, rest: Bytes)
    requires Formattable(a)
    ensures ReplyBytes(resp, Some(a)).Some?
    ensures ParseAddr(ReplyBytes(resp, Some(a)).value[3..] + rest) == Ok((Shown(a), rest))
            <==> |a.fqdn| <= 255 && 0 <= a.port < 65536
  {
    var s := ReplyBytes(resp, Some(a)).value[3..] + rest;
    if |a.fqdn| <= 255 && 0 <= a.port < 65536 {
      hide ParseAddr;
      assert s == AddrBytes(Shown(a)) + rest;
      ParseAddrComplete(Shown(a), rest);
    } else {
      ParseAddrSound(s);
      hide ParseAddr;
    }
  }

  /** Ten zero bytes, two of ones, and four more: an IPv4 address in IPv6 form. */
  predicate Mapped(ip: Bytes, four: Bytes) {
    |four| == 4 && ip == [0, 0, 0, 0, 0, 0, 0, 0, 0, 0, 255, 255] + four
  }

  /** The reply byte for byte (section 6 of RFC 1928): what type each kind of address gets, and what follows. */
  lemma ReplyLayout(resp: Byte, a: AddrSpec, four: Bytes)
    ensures a.fqdn != [] ==>
              ReplyBytes(resp, Some(a)) == Some([5, resp, 0, 3, |a.fqdn| % 256] + a.fqdn + BigEndian16(a.port))
    ensures a.fqdn == [] && |a.ip| == 4 ==>
              ReplyBytes(resp, Some(a)) == Some([5, resp, 0, 1] + a.ip + BigEndian16(a.port))
    ensures a.fqdn == [] && Mapped(a.ip, four) ==>
              ReplyBytes(resp, Some(a)) == Some([5, resp, 0, 1] + four + BigEndian16(a.port))
    ensures a.fqdn == [] && |a.ip| == 16 && (forall f :: !Mapped(a.ip, f)) ==>
              ReplyBytes(resp, Some(a)) == Some([5, resp, 0, 4] + a.ip + BigEndian16(a.port))
    ensures a.fqdn == [] && |a.ip| != 4 && |a.ip| != 16 ==> ReplyBytes(resp, Some(a)) == None
    ensures ReplyBytes(resp, None) == Some([5, resp, 0, 1, 0, 0, 0, 0, 0, 0])
  {
    hide BigEndian16;
    if |a.ip| == 16 {
      var zeros: Bytes := [0, 0, 0, 0, 0, 0, 0, 0, 0, 0, 255, 255];
      assert a.ip == a.ip[..12] + a.ip[12..];
      assert To4(a.ip).Some? ==> a.ip[..12] == zeros && Mapped(a.ip, a.ip[12..]);
      assert Mapped(a.ip, four) ==> To4(a.ip) == Some(four);
    }
    if a.fqdn != [] {
      assert [5, resp, 0, 3] + ([|a.fqdn| % 256] + a.fqdn) == [5, resp, 0, 3, |a.fqdn| % 256] + a.fqdn;
    }
    EmptyReply(resp);
  }

  lemma EmptyReply(resp: Byte)
    ensures ReplyBytes(resp, None) == Some([5, resp, 0, 1, 0, 0, 0, 0, 0, 0])
  {
    assert ReplyMessage(resp, IPV4, [0, 0, 0, 0], 0) == [5, resp, 0, 1, 0, 0, 0, 0, 0, 0];
  }

  /** A reply without an address reads as 0.0.0.0:0. */
  lemma EmptyReplyRoundTrip(resp: Byte, rest: Bytes)
    ensures ParseAddr(ReplyBytes(resp, None).value[3..] + rest) == Ok((AddrSpec([], [0, 0, 0, 0], 0), rest))
  {
    var a := AddrSpec([], [0, 0, 0, 0], 0);
    assert ReplyBytes(resp, None).value[3..] == AddrBytes(a);
    ParseAddrComplete(a, rest);
  }

  /** The reader fills its buffers from the network in whatever pieces arrive. */
  method ReadAddrSpec(r: ChunkReader) returns (d: Result<AddrSpec, AddrError>)
    requires r.Valid()
    modifies r
    ensures r.Valid()
    ensures match ParseAddr(old(r.Remaining()))
            case Ok((a, rest)) => d == Ok(a) && r.Remaining() == rest
            case Err(e) => d == Err(e)
  {
    var kind := r.ReadByte();
    if kind.Err? {
      return Err(AddrRead(kind.error));
    }
    var fqdn: Bytes, ip: Bytes := [], [];
    if kind.value == IPV4 || kind.value == IPV6 {
      var addr := r.ReadFull(if kind.value == IPV4 then 4 else 16);
      if addr.Err? {
        return Err(AddrRead(addr.error));
      }
      ip := addr.value;
    } else if kind.value == FQDN {
      var len := r.ReadByte();
      if len.Err? {
        return Err(AddrRead(len.error));
      }
      var name := r.ReadFull(len.value);
      if name.Err? {
        return Err(AddrRead(name.error));
      }
      fqdn := name.value;
    } else {
      return Err(UnrecognizedType);
    }
    var port := r.ReadFull(2);
    if port.Err? {
      return Err(AddrRead(port.error));
    }
    return Ok(AddrSpec(fqdn, ip, Uint16(port.value[1], port.value[0])));
  }

  /** The message buffer, filled byte by byte. */
  method FillReply(resp: Byte, addrType: Byte, addrBody: Bytes, addrPort: nat) returns (message: Bytes)
    requires addrPort < 65536
    ensures message == ReplyMessage(resp, addrType, addrBody, addrPort)
  {
    var msg := new Byte[6 + |addrBody|](_ => 0);
    msg[0] := VERSION;
    msg[1] := resp;
    msg[2] := 0;
    msg[3] := addrType;
    forall i | 0 <= i < |addrBody| {
      msg[4 + i] := addrBody[i];
    }
    msg[4 + |addrBody|] := addrPort / 256;
    msg[4 + |addrBody| + 1] := addrPort % 256;
    return msg[..];
  }

  lemma PortTruncates(port: int)
    ensures BigEndian16(port % 65536) == BigEndian16(port)
  {
    var q, p := port / 65536, port % 65536;
    assert port == 256 * (256 * q + p / 256) + p % 256;
    assert port / 256 == 256 * q + p / 256 && port % 256 == p % 256;
    assert port / 256 % 256 == p / 256 % 256;
  }

  /** Chooses address type and body as `sendReply` does; `None` when the address cannot be formatted. */
  method FormatReply(resp: Byte, addr: Option<AddrSpec>) returns (message: Option<Bytes>)
    ensures message == ReplyBytes(resp, addr)
  {
    var addrType: Byte, addrBody: Bytes, addrPort: nat := IPV4, [0, 0, 0, 0], 0;
    if addr.Some? {
      var a := addr.value;
      addrPort := a.port % 65536;
      PortTruncates(a.port);
      if a.fqdn != [] {
        addrType, addrBody := FQDN, [|a.fqdn| % 256] + a.fqdn;
      } else if To4(a.ip).Some? {
        addrBody := To4(a.ip).value;
      } else if |a.ip| == 16 {
        addrType, addrBody := IPV6, a.ip;
      } else {
        return None;
      }
    }
    hide BigEndian16;
    var filled := FillReply(resp, addrType, addrBody, addrPort);
    return Some(filled);
  }
}
