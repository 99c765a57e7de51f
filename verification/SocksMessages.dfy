/** The client's SOCKS5 messages: offer and request (sections 3 and 4 of RFC 1928), login (section 2 of RFC 1929). */
module SocksMessages {
  import opened Prelude
  import opened Streams
  import opened SocksAddress

  const USER_AUTH_VERSION: Byte := 1

  datatype Request = Request(command: Byte, dest: AddrSpec)

  datatype Login = Login(user: Bytes, password: Bytes)

  datatype ParseError = Read(error: ReadError) | BadVersion | BadAddrType

  /** A count byte and that many bytes; both the method offer and each half of a login have this shape. */
  function ParseCounted(s: Bytes): Result<(Bytes, Bytes), ReadError> {
    match TakeFull(s, 1)
    case Err(e) => Err(e)
    case Ok((n, s1)) => TakeFull(s1, n[0])
  }

  function CountedBytes(b: Bytes): Bytes
    requires |b| <= 255
  {
    [|b|] + b
  }

  lemma ParseCountedComplete(b: Bytes, rest: Bytes)
    requires |b| <= 255
    ensures ParseCounted(CountedBytes(b) + rest) == Ok((b, rest))
  {
    var s := CountedBytes(b) + rest;
    assert s[1..] == b + rest;
    assert (b + rest)[..|b|] == b && (b + rest)[|b|..] == rest;
  }

  lemma ParseCountedSound(s: Bytes)
    ensures match ParseCounted(s)
            case Err(_) => true
            case Ok((b, rest)) => |b| <= 255 && s == CountedBytes(b) + rest
  {
    if |s| >= 1 && |s| >= 1 + s[0] as int {
      assert s == [s[0]] + s[1..];
      assert s[1..] == s[1..][..s[0]] + s[1..][s[0]..];
    }
  }

  /** A login as `UserPassAuthenticator` reads it: version and user length together, then the rest in turn. */
  function ParseLogin(s: Bytes): Result<(Login, Bytes), ParseError> {
    match TakeFull(s, 2)
    case Err(e) => Err(Read(e))
    case Ok((header, s1)) =>
      if header[0] != USER_AUTH_VERSION then Err(BadVersion)
      else
        match TakeFull(s1, header[1])
        case Err(e) => Err(Read(e))
        case Ok((user, s2)) =>
          match ParseCounted(s2)
          case Err(e) => Err(Read(e))
          case Ok((password, rest)) => Ok((Login(user, password), rest))
  }

  predicate LoginOnWire(l: Login) {
    |l.user| <= 255 && |l.password| <= 255
  }

  function LoginBytes(l: Login): Bytes
    requires LoginOnWire(l)
  {
    [1] + CountedBytes(l.user) + CountedBytes(l.password)
  }

  lemma ParseLoginComplete(l: Login, rest: Bytes)
    requires LoginOnWire(l)
    ensures ParseLogin(LoginBytes(l) + rest) == Ok((l, rest))
  {
    var header: Bytes, tail := [USER_AUTH_VERSION, |l.user|], CountedBytes(l.password) + rest;
    assert LoginBytes(l) + rest == header + (l.user + tail);
    TakeFullOf(header, l.user + tail);
    TakeFullOf(l.user, tail);
    ParseCountedComplete(l.password, rest);
    hide TakeFull, ParseCounted, LoginBytes, CountedBytes;
  }

  lemma ParseLoginSound(s: Bytes)
    ensures match ParseLogin(s)
            case Err(_) => true
            case Ok((l, rest)) => LoginOnWire(l) && s == LoginBytes(l) + rest
  {
    TakeFullSplits(s, 2);
    if TakeFull(s, 2).Ok? {
      var (header, s1) := TakeFull(s, 2).value;
      TakeFullSplits(s1, header[1]);
      if TakeFull(s1, header[1]).Ok? {
        var (user, s2) := TakeFull(s1, header[1]).value;
        ParseCountedSound(s2);
        hide TakeFull, ParseCounted;
        assert header == [header[0], header[1]];
        if header[0] == USER_AUTH_VERSION && ParseCounted(s2).Ok? {
          var (password, rest) := ParseCounted(s2).value;
          assert header + (user + (CountedBytes(password) + rest)) == LoginBytes(Login(user, password)) + rest;
        }
      }
    }
  }

  /** `NewRequest`; the reserved byte is read and ignored. */
  function ParseRequest(s: Bytes): Result<(Request, Bytes), ParseError> {
    match TakeFull(s, 3)
    case Err(e) => Err(Read(e))
    case Ok((header, s1)) =>
      if header[0] != VERSION then Err(BadVersion)
      else
        match ParseAddr(s1)
        case Err(AddrRead(e)) => Err(Read(e))
        case Err(UnrecognizedType) => Err(BadAddrType)
        case Ok((dest, rest)) => Ok((Request(header[1], dest), rest))
  }

  function RequestBytes(q: Request, reserved: Byte): Bytes
    requires OnWire(q.dest)
  {
    [5, q.command, reserved] + AddrBytes(q.dest)
  }

  lemma ParseRequestComplete(q: Request, reserved: Byte, rest: Bytes)
    requires OnWire(q.dest)
    ensures ParseRequest(RequestBytes(q, reserved) + rest) == Ok((q, rest))
  {
    var s := RequestBytes(q, reserved) + rest;
    ParseAddrComplete(q.dest, rest);
    hide ParseAddr, AddrBytes;
    assert s[3..] == AddrBytes(q.dest) + rest;
  }

  lemma ParseRequestSound(s: Bytes)
    ensures match ParseRequest(s)
            case Err(_) => true
            case Ok((q, rest)) => OnWire(q.dest) && |s| >= 3 && s == RequestBytes(q, s[2]) + rest
  {
    if |s| >= 3 {
      ParseAddrSound(s[3..]);
      hide ParseAddr, AddrBytes;
      assert s == [s[0], s[1], s[2]] + s[3..];
    }
  }

  method ReadMethods(r: ChunkReader) returns (methods: Result<Bytes, ReadError>)
    requires r.Valid()
    modifies r
    ensures r.Valid()
    ensures match ParseCounted(old(r.Remaining()))
            case Ok((m, rest)) => methods == Ok(m) && r.Remaining() == rest
            case Err(e) => methods == Err(e)
  {
    var header := r.ReadByte();
    if header.Err? {
      return Err(header.error);
    }
    methods := r.ReadFull(header.value);
  }

  method ReadLogin(r: ChunkReader) returns (login: Result<Login, ParseError>)
    requires r.Valid()
    modifies r
    ensures r.Valid()
    ensures match ParseLogin(old(r.Remaining()))
            case Ok((l, rest)) => login == Ok(l) && r.Remaining() == rest
            case Err(e) => login == Err(e)
  {
    var header := r.ReadFull(2);
    if header.Err? {
      return Err(Read(header.error));
    }
    if header.value[0] != USER_AUTH_VERSION {
      return Err(BadVersion);
    }
    var user := r.ReadFull(header.value[1]);
    if user.Err? {
      return Err(Read(user.error));
    }
    var passLen := r.ReadByte();
    if passLen.Err? {
      return Err(Read(passLen.error));
    }
    var pass := r.ReadFull(passLen.value);
    if pass.Err? {
      return Err(Read(pass.error));
    }
    return Ok(Login(user.value, pass.value));
  }

  method NewRequest(r: ChunkReader) returns (request: Result<Request, ParseError>)
    requires r.Valid()
    modifies r
    ensures r.Valid()
    ensures match ParseRequest(old(r.Remaining()))
            case Ok((q, rest)) => request == Ok(q) && r.Remaining() == rest
            case Err(e) => request == Err(e)
  {
    hide ParseAddr;
    var header := r.ReadFull(3);
    if header.Err? {
      return Err(Read(header.error));
    }
    if header.value[0] != VERSION {
      return Err(BadVersion);
    }
    var dest := ReadAddrSpec(r);
    match dest {
      case Err(AddrRead(e)) => return Err(Read(e));
      case Err(UnrecognizedType) => return Err(BadAddrType);
      case Ok(d) => return Ok(Request(header.value[1], d));
    }
  }
}
