/** A whole SOCKS5 session as a function from the client's bytes to the ordered list of the server's actions. */
module SocksSession {
  import opened Prelude
  import opened SocksAddress
  import opened SocksMessages

  const NO_AUTH: Byte := 0
  const USER_PASS: Byte := 2
  const NO_ACCEPTABLE: Byte := 255

  const CONNECT: Byte := 1
  const BIND: Byte := 2
  const ASSOCIATE: Byte := 3

  const SUCCESS: Byte := 0
  const RULE_FAILURE: Byte := 2
  const NETWORK_UNREACHABLE: Byte := 3
  const HOST_UNREACHABLE: Byte := 4
  const CONNECTION_REFUSED: Byte := 5
  const COMMAND_NOT_SUPPORTED: Byte := 7
  const ADDR_TYPE_NOT_SUPPORTED: Byte := 8

  datatype Authenticator = NoAuthAuthenticator | UserPassAuthenticator(valid: (Bytes, Bytes) -> bool)

  function GetCode(a: Authenticator): Byte {
    if a.NoAuthAuthenticator? then NO_AUTH else USER_PASS
  }

  /** The server's method table; `New` enters every authenticator under its own code. */
  type Methods = m: map<Byte, Authenticator> | forall c :: c in m ==> GetCode(m[c]) == c

  /** The server's actions, in the order it takes them. `ok` says whether the write went through. */
  datatype Event =
    | Wrote(data: Bytes, ok: bool)
    | Resolved(name: Bytes)
    | Asked(command: Byte, allowed: bool)
    | Dialed(addr: AddrSpec)
    | Proxied(rest: Bytes)

  datatype DialResult = Connected(ip: Bytes, port: int) | Refused | Unreachable | DialFailed

  /** Everything outside the program: writes that fail, name resolution, the rewriter, the rules, dialling. */
  datatype Env = Env(
    writes: (seq<Event>, Bytes) -> bool,
    resolve: Bytes -> Option<Bytes>,
    rewrite: (Byte, AddrSpec) -> AddrSpec,
    allow: (Byte, AddrSpec, AddrSpec) -> bool,
    dial: AddrSpec -> DialResult)

  function Emit(env: Env, tr: seq<Event>, data: Bytes): seq<Event> {
    tr + [Wrote(data, env.writes(tr, data))]
  }

  /** The client's first offer that the server supports. */
  function FirstSupported(cfg: Methods, offered: Bytes): (r: Option<Byte>)
    ensures r.Some? ==> r.value in cfg
  {
    if offered == [] then None
    else if offered[0] in cfg then Some(offered[0])
    else FirstSupported(cfg, offered[1..])
  }

  /** `authenticate`: the trace so far, and the input left for the request if it succeeded. */
  function Authenticate(cfg: Methods, env: Env, s: Bytes, tr: seq<Event>): (seq<Event>, Option<Bytes>) {
    match ParseCounted(s)
    case Err(_) => (tr, None)
    case Ok((offered, rest)) =>
      match FirstSupported(cfg, offered)
      case None => (Emit(env, tr, [VERSION, NO_ACCEPTABLE]), None)
      case Some(m) => RunMethod(cfg[m], env, rest, tr)
  }

  function RunMethod(a: Authenticator, env: Env, s: Bytes, tr: seq<Event>): (seq<Event>, Option<Bytes>) {
    var chosen: Bytes := [VERSION, GetCode(a)];
    var tr1 := Emit(env, tr, chosen);
    if !env.writes(tr, chosen) then (tr1, None)
    else
      match a
      case NoAuthAuthenticator => (tr1, Some(s))
      case UserPassAuthenticator(valid) =>
        match ParseLogin(s)
        case Err(_) => (tr1, None)
        case Ok((login, rest)) =>
          if !valid(login.user, login.password) then (Emit(env, tr1, [USER_AUTH_VERSION, 1]), None)
          else (Emit(env, tr1, [USER_AUTH_VERSION, 0]),
                if env.writes(tr1, [USER_AUTH_VERSION, 0]) then Some(rest) else None)
  }

  function SendReply(env: Env, tr: seq<Event>, resp: Byte, addr: Option<AddrSpec>): seq<Event> {
    match ReplyBytes(resp, addr)
    case None => tr
    case Some(message) => Emit(env, tr, message)
  }

  function DialCode(d: DialResult): Byte {
    match d
    case Connected(_, _) => SUCCESS
    case Refused => CONNECTION_REFUSED
    case Unreachable => NETWORK_UNREACHABLE
    case DialFailed => HOST_UNREACHABLE
  }

  function HandleConnect(env: Env, target: AddrSpec, rest: Bytes, tr: seq<Event>): seq<Event> {
    var tr1 := tr + [Dialed(target)];
    match env.dial(target)
    case Connected(ip, port) =>
      var bind := AddrSpec([], ip, port);
      var tr2 := SendReply(env, tr1, SUCCESS, Some(bind));
      if Formattable(bind) && tr2[|tr2| - 1] == Wrote(ReplyBytes(SUCCESS, Some(bind)).value, true)
      then tr2 + [Proxied(rest)] else tr2
    case failed => SendReply(env, tr1, DialCode(failed), None)
  }

  /** `handleRequest`: resolution, rewriting, the rules, and the command. */
  function HandleRequest(env: Env, q: Request, rest: Bytes, tr: seq<Event>): seq<Event> {
    var tr1 := if q.dest.fqdn == [] then tr else tr + [Resolved(q.dest.fqdn)];
    match Destination(env, q)
    case None => SendReply(env, tr1, HOST_UNREACHABLE, None)
    case Some(dest) =>
      var target := env.rewrite(q.command, dest);
      if q.command != CONNECT && q.command != BIND && q.command != ASSOCIATE then
        SendReply(env, tr1, COMMAND_NOT_SUPPORTED, None)
      else
        var allowed := env.allow(q.command, dest, target);
        var tr2 := tr1 + [Asked(q.command, allowed)];
        if !allowed then SendReply(env, tr2, RULE_FAILURE, None)
        else if q.command == CONNECT then HandleConnect(env, target, rest, tr2)
        else SendReply(env, tr2, COMMAND_NOT_SUPPORTED, None)
  }

  /** The destination with its resolved address; a name that does not resolve has none. */
  function Destination(env: Env, q: Request): Option<AddrSpec> {
    if q.dest.fqdn == [] then Some(q.dest)
    else
      match env.resolve(q.dest.fqdn)
      case None => None
      case Some(ip) => Some(q.dest.(ip := ip))
  }

  function HandleParsed(env: Env, parsed: Result<(Request, Bytes), ParseError>, tr: seq<Event>): seq<Event> {
    match parsed
    case Err(BadAddrType) => SendReply(env, tr, ADDR_TYPE_NOT_SUPPORTED, None)
    case Err(_) => tr
    case Ok((q, rest)) => HandleRequest(env, q, rest, tr)
  }

  /** `ServeConn` on the flat input. */
  function Serve(cfg: Methods, env: Env, s: Bytes): seq<Event> {
    if s == [] || s[0] != VERSION then []
    else
      match Authenticate(cfg, env, s[1..], [])
      case (tr, None) => tr
      case (tr, Some(rest)) => HandleParsed(env, ParseRequest(rest), tr)
  }

  /** Offer `i` is supported and no earlier one is. */
  ghost predicate FirstAt(cfg: Methods, offered: Bytes, i: nat) {
    i < |offered| && offered[i] in cfg && forall j :: 0 <= j < i ==> offered[j] !in cfg
  }

  ghost predicate Disjoint(cfg: Methods, offered: Bytes) {
    forall i :: 0 <= i < |offered| ==> offered[i] !in cfg
  }

  /** The chosen offer is the first supported one, and there is none exactly when offers and table are disjoint. */
  lemma {:induction false} FirstSupportedIsFirst(cfg: Methods, offered: Bytes)
    ensures FirstSupported(cfg, offered).None? <==> Disjoint(cfg, offered)
    ensures FirstSupported(cfg, offered).Some? ==>
              exists i: nat :: FirstAt(cfg, offered, i) && offered[i] == FirstSupported(cfg, offered).value
  {
    if offered == [] {
    } else if offered[0] in cfg {
      assert FirstAt(cfg, offered, 0);
    } else {
      FirstSupportedIsFirst(cfg, offered[1..]);
      assert forall i :: 0 < i < |offered| ==> offered[i] == offered[1..][i - 1];
      if FirstSupported(cfg, offered[1..]).Some? {
        var i: nat :| FirstAt(cfg, offered[1..], i) && offered[1..][i] == FirstSupported(cfg, offered[1..]).value;
        assert FirstAt(cfg, offered, i + 1);
      }
    }
  }
}
