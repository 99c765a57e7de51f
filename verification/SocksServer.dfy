/** The SOCKS5 server as the program runs it: reading from the network, writing replies, acting step by step. */
module SocksServer {
  import opened Prelude
  import opened Streams
  import opened SocksAddress
  import opened SocksMessages
  import opened SocksSession
  import opened SocksOrder

  /** The client connection with the record of everything the server has done for it. */
  class Conn {
    const env: Env
    var trace: seq<Event>

    constructor (env: Env)
      ensures this.env == env && trace == []
    {
      this.env := env;
      trace := [];
    }

    method Write(data: Bytes) returns (ok: bool)
      modifies this
      ensures ok == env.writes(old(trace), data) && trace == Emit(env, old(trace), data)
    {
      ok := env.writes(trace, data);
      trace := trace + [Wrote(data, ok)];
    }

    method Note(e: Event)
      modifies this
      ensures trace == old(trace) + [e]
    {
      trace := trace + [e];
    }

    method Reply(resp: Byte, addr: Option<AddrSpec>) returns (ok: bool)
      modifies this
      ensures trace == SendReply(env, old(trace), resp, addr)
      ensures ok <==> ReplyBytes(resp, addr).Some? && env.writes(old(trace), ReplyBytes(resp, addr).value)
    {
      var message := FormatReply(resp, addr);
      if message.None? {
        return false;
      }
      ok := Write(message.value);
    }
  }

  datatype Config = Config(authMethods: seq<Authenticator>, credentials: Option<(Bytes, Bytes) -> bool>)

  /** The authenticators in force: the configured ones, or the default the configuration implies. */
  function Effective(conf: Config): seq<Authenticator> {
    if conf.authMethods != [] then conf.authMethods
    else if conf.credentials.Some? then [UserPassAuthenticator(conf.credentials.value)]
    else [NoAuthAuthenticator]
  }

  /** The method table after entering `cators` one by one. */
  function TableOf(cators: seq<Authenticator>): Methods {
    if cators == [] then map[]
    else TableOf(cators[..|cators| - 1])[GetCode(cators[|cators| - 1]) := cators[|cators| - 1]]
  }

  lemma TableGrows(cators: seq<Authenticator>, i: nat)
    requires i < |cators|
    ensures TableOf(cators[..i + 1]) == TableOf(cators[..i])[GetCode(cators[i]) := cators[i]]
  {
    assert cators[..i + 1][..i] == cators[..i];
  }

  /** Authenticator `i` is the last one with its code. */
  ghost predicate LastOfCode(cators: seq<Authenticator>, i: nat) {
    i < |cators| && forall j :: i < j < |cators| ==> GetCode(cators[j]) != GetCode(cators[i])
  }

  /** The last authenticator with a code is the table's entry for it. */
  lemma {:induction false} LastAuthenticatorWins(cators: seq<Authenticator>, i: nat)
    requires LastOfCode(cators, i)
    ensures GetCode(cators[i]) in TableOf(cators) && TableOf(cators)[GetCode(cators[i])] == cators[i]
  {
    if i < |cators| - 1 {
      LastAuthenticatorWins(cators[..|cators| - 1], i);
    }
  }

  /** Every entry of the table is the last authenticator with that code. */
  lemma {:induction false} EntryIsLast(cators: seq<Authenticator>, c: Byte) returns (i: nat)
    requires c in TableOf(cators)
    ensures LastOfCode(cators, i) && GetCode(cators[i]) == c && cators[i] == TableOf(cators)[c]
  {
    i := |cators| - 1;
    if GetCode(cators[i]) != c {
      i := EntryIsLast(cators[..|cators| - 1], c);
    }
  }

  class Server {
    var authMethods: Methods

    /** Fills the defaults and enters every authenticator under its code; the table is never empty. */
    constructor New(conf: Config)
      ensures authMethods == TableOf(Effective(conf)) && authMethods != map[]
      ensures conf.authMethods != [] ==> authMethods == TableOf(conf.authMethods)
      ensures conf.authMethods == [] && conf.credentials.Some? ==>
                authMethods == map[2 := UserPassAuthenticator(conf.credentials.value)]
      ensures conf.authMethods == [] && conf.credentials.None? ==> authMethods == map[0 := NoAuthAuthenticator]
    {
      authMethods := map[];
      new;
      var cators := conf.authMethods;
      if |cators| == 0 {
        if conf.credentials.Some? {
          cators := [UserPassAuthenticator(conf.credentials.value)];
        } else {
          cators := [NoAuthAuthenticator];
        }
      }
      assert cators == Effective(conf);
      for i := 0 to |cators|
        invariant authMethods == TableOf(cators[..i])
      {
        TableGrows(cators, i);
        hide TableOf;
        authMethods := authMethods[GetCode(cators[i]) := cators[i]];
      }
      assert cators[..|cators|] == cators;
      TableGrows(cators, |cators| - 1);
      assert GetCode(cators[|cators| - 1]) in authMethods;
    }

    method RunAuthenticator(a: Authenticator, reader: ChunkReader, conn: Conn) returns (ok: bool)
      requires reader.Valid()
      modifies reader, conn
      ensures reader.Valid()
      ensures var (tr, rest) := RunMethod(a, conn.env, old(reader.Remaining()), old(conn.trace));
              conn.trace == tr && ok == rest.Some? && (ok ==> reader.Remaining() == rest.value)
    {
      hide ParseLogin;
      var chosen := conn.Write([VERSION, GetCode(a)]);
      if !chosen {
        return false;
      }
      match a {
        case NoAuthAuthenticator => return true;
        case UserPassAuthenticator(valid) =>
          var login := ReadLogin(reader);
          if login.Err? {
            return false;
          }
          if valid(login.value.user, login.value.password) {
            ok := conn.Write([USER_AUTH_VERSION, 0]);
          } else {
            var _ := conn.Write([USER_AUTH_VERSION, 1]);
            ok := false;
          }
      }
    }

    /** Reads the client's offer and runs the first method the server supports. */
    method RunAuthentication(reader: ChunkReader, conn: Conn) returns (ok: bool)
      requires reader.Valid()
      modifies reader, conn
      ensures reader.Valid()
      ensures var (tr, rest) := Authenticate(authMethods, conn.env, old(reader.Remaining()), old(conn.trace));
              conn.trace == tr && ok == rest.Some? && (ok ==> reader.Remaining() == rest.value)
    {
      hide ParseCounted, RunMethod;
      var methods := ReadMethods(reader);
      if methods.Err? {
        return false;
      }
      for i := 0 to |methods.value|
        invariant reader.Remaining() == ParseCounted(old(reader.Remaining())).value.1 && reader.Valid()
        invariant conn.trace == old(conn.trace)
        invariant FirstSupported(authMethods, methods.value) == FirstSupported(authMethods, methods.value[i..])
      {
        assert methods.value[i..][1..] == methods.value[i + 1..];
        var method' := methods.value[i];
        if method' in authMethods {
          ok := RunAuthenticator(authMethods[method'], reader, conn);
          return;
        }
      }
      var _ := conn.Write([VERSION, NO_ACCEPTABLE]);
      return false;
    }

    method Connect(reader: ChunkReader, conn: Conn, target: AddrSpec)
      modifies conn
      ensures conn.trace == HandleConnect(conn.env, target, reader.Remaining(), old(conn.trace))
    {
      hide ReplyBytes, Formattable, Emit;
      conn.Note(Dialed(target));
      var d := conn.env.dial(target);
      match d {
        case Connected(ip, port) =>
          ghost var tr1 := conn.trace;
          var ok := conn.Reply(SUCCESS, Some(AddrSpec([], ip, port)));
          ReplySent(conn.env, tr1, AddrSpec([], ip, port));
          if ok {
            conn.Note(Proxied(reader.Remaining()));
          }
        case failed =>
          var _ := conn.Reply(DialCode(failed), None);
      }
    }

    method Handle(q: Request, reader: ChunkReader, conn: Conn)
      modifies conn
      ensures conn.trace == HandleRequest(conn.env, q, reader.Remaining(), old(conn.trace))
    {
      hide SendReply, HandleConnect, ReplyBytes;
      var dest := q.dest;
      if dest.fqdn != [] {
        conn.Note(Resolved(dest.fqdn));
        var ip := conn.env.resolve(dest.fqdn);
        if ip.None? {
          var _ := conn.Reply(HOST_UNREACHABLE, None);
          return;
        }
        dest := dest.(ip := ip.value);
      }
      var target := conn.env.rewrite(q.command, dest);
      if q.command == CONNECT || q.command == BIND || q.command == ASSOCIATE {
        var allowed := conn.env.allow(q.command, dest, target);
        conn.Note(Asked(q.command, allowed));
        if !allowed {
          var _ := conn.Reply(RULE_FAILURE, None);
        } else if q.command == CONNECT {
          Connect(reader, conn, target);
        } else {
          var _ := conn.Reply(COMMAND_NOT_SUPPORTED, None);
        }
      } else {
        var _ := conn.Reply(COMMAND_NOT_SUPPORTED, None);
      }
    }

    /**
     * One connection from first byte to proxying. Whatever pieces the client's bytes arrive in, the server does
     * exactly what the flat session does, and proxying starts at the first byte after the request.
     */
    method ServeConn(reader: ChunkReader, conn: Conn)
      requires reader.Valid() && conn.trace == []
      modifies reader, conn
      ensures conn.trace == Serve(authMethods, conn.env, old(reader.Remaining()))
      ensures forall i :: 0 <= i < |conn.trace| && conn.trace[i].Proxied? ==> conn.trace[i].rest == reader.Remaining()
    {
      hide Authenticate, ParseRequest, HandleRequest, SendReply;
      ghost var input := reader.Remaining();
      var version := reader.ReadByte();
      if version.Err? || version.value != VERSION {
        return;
      }
      assert input[0] == VERSION && reader.Remaining() == input[1..];
      OpeningTrace(authMethods, conn.env, input[1..]);
      var ok := RunAuthentication(reader, conn);
      if !ok {
        return;
      }
      ghost var tr := conn.trace;
      ghost var parsed := ParseRequest(reader.Remaining());
      ProxiesRest(conn.env, parsed, tr);
      var request := NewRequest(reader);
      match request {
        case Err(BadAddrType) =>
          var _ := conn.Reply(ADDR_TYPE_NOT_SUPPORTED, None);
        case Err(_) =>
        case Ok(q) => Handle(q, reader, conn);
      }
    }
  }

  lemma ReplySent(env: Env, tr: seq<Event>, bind: AddrSpec)
    ensures ReplyBytes(SUCCESS, Some(bind)).Some? <==> Formattable(bind)
    ensures Formattable(bind) ==>
              var m := ReplyBytes(SUCCESS, Some(bind)).value;
              var tr2 := SendReply(env, tr, SUCCESS, Some(bind));
              tr2[|tr2| - 1] == Wrote(m, true) <==> env.writes(tr, m)
  {
  }

  /** Whatever is proxied is what follows the request. */
  lemma ProxiesRest(env: Env, parsed: Result<(Request, Bytes), ParseError>, tr: seq<Event>)
    requires forall i :: 0 <= i < |tr| ==> tr[i].Wrote?
    ensures var t := HandleParsed(env, parsed, tr);
            forall i :: 0 <= i < |t| && t[i].Proxied? ==> parsed.Ok? && t[i].rest == parsed.value.1
  {
    hide ReplyBytes, Formattable, Destination;
  }
}
