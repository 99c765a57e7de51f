/** What the order of a session guarantees, for every input and every environment. */
module SocksOrder {
  import opened Prelude
  import opened SocksAddress
  import opened SocksMessages
  import opened SocksSession

  /**
   * The client's bytes `s` are a method offer, then a valid login if the first supported offer asks for one, then
   * `rest`; and the server's answers to both went through.
   */
  ghost predicate GoodOpening(cfg: Methods, env: Env, s: Bytes, offered: Bytes, login: Login, rest: Bytes) {
    && |offered| <= 255
    && FirstSupported(cfg, offered).Some?
    && match cfg[FirstSupported(cfg, offered).value]
       case NoAuthAuthenticator =>
         s == CountedBytes(offered) + rest && env.writes([], [5, 0])
       case UserPassAuthenticator(valid) =>
         && LoginOnWire(login) && s == CountedBytes(offered) + (LoginBytes(login) + rest)
         && valid(login.user, login.password)
         && env.writes([], [5, 2])
         && env.writes([Wrote([5, 2], true)], [1, 0])
  }

  lemma AuthenticateComplete(cfg: Methods, env: Env, s: Bytes, offered: Bytes, login: Login, rest: Bytes)
    requires GoodOpening(cfg, env, s, offered, login, rest)
    ensures Authenticate(cfg, env, s, []).1 == Some(rest)
  {
    hide ParseCounted, ParseLogin, FirstSupported, CountedBytes, LoginBytes;
    match cfg[FirstSupported(cfg, offered).value] {
      case NoAuthAuthenticator =>
        ParseCountedComplete(offered, rest);
      case UserPassAuthenticator(_) =>
        ParseCountedComplete(offered, LoginBytes(login) + rest);
        ParseLoginComplete(login, rest);
        assert [] + [Wrote([VERSION, USER_PASS], true)] == [Wrote([VERSION, USER_PASS], true)];
    }
  }

  lemma AuthenticateSound(cfg: Methods, env: Env, s: Bytes) returns (offered: Bytes, login: Login)
    requires Authenticate(cfg, env, s, []).1.Some?
    ensures GoodOpening(cfg, env, s, offered, login, Authenticate(cfg, env, s, []).1.value)
  {
    hide ParseCounted, ParseLogin, FirstSupported, CountedBytes, LoginBytes;
    ParseCountedSound(s);
    var (o, s1) := ParseCounted(s).value;
    offered, login := o, Login([], []);
    if cfg[FirstSupported(cfg, offered).value].UserPassAuthenticator? {
      ParseLoginSound(s1);
      login := ParseLogin(s1).value.0;
      assert [] + [Wrote([VERSION, USER_PASS], true)] == [Wrote([VERSION, USER_PASS], true)];
    }
  }

  /** Until the request, the server has only written, and every write went through. */
  lemma OpeningTrace(cfg: Methods, env: Env, s: Bytes)
    ensures var (tr, rest) := Authenticate(cfg, env, s, []);
            && (forall i :: 0 <= i < |tr| ==> tr[i].Wrote? && |tr[i].data| == 2)
            && (rest.Some? ==> forall i :: 0 <= i < |tr| ==> tr[i].ok)
  {
    hide ParseCounted, ParseLogin, FirstSupported;
  }

  /** `dest` is what the request asks for: the address in it, or its name with the address the name resolves to. */
  predicate AsksFor(env: Env, q: Request, dest: AddrSpec) {
    if q.dest.fqdn == [] then dest == q.dest
    else env.resolve(q.dest.fqdn).Some? && dest == AddrSpec(q.dest.fqdn, env.resolve(q.dest.fqdn).value, q.dest.port)
  }

  /** The rules and the rewriter see that, and only a name that does not resolve asks for nothing. */
  lemma DestinationExactly(env: Env, q: Request, dest: AddrSpec)
    ensures Destination(env, q) == Some(dest) <==> AsksFor(env, q, dest)
  {
  }

  /** The request asks to connect to some destination, the rules allow it, and it is rewritten to `addr`. */
  ghost predicate Permits(env: Env, q: Request, addr: AddrSpec) {
    q.command == CONNECT && exists dest ::
      AsksFor(env, q, dest) && addr == env.rewrite(CONNECT, dest) && env.allow(CONNECT, dest, addr)
  }

  lemma PermitsDestination(env: Env, q: Request, addr: AddrSpec)
    ensures Permits(env, q, addr) <==>
            && q.command == CONNECT && Destination(env, q).Some?
            && addr == env.rewrite(CONNECT, Destination(env, q).value)
            && env.allow(CONNECT, Destination(env, q).value, addr)
  {
    forall dest ensures Destination(env, q) == Some(dest) <==> AsksFor(env, q, dest) {
      DestinationExactly(env, q, dest);
    }
    hide Destination, AsksFor;
    if Destination(env, q).Some? {
      assert AsksFor(env, q, Destination(env, q).value);
    }
  }

  /** The whole input in grammatical form, up to and including a permitted request. */
  ghost predicate DialWitness(cfg: Methods, env: Env, s: Bytes, addr: AddrSpec,
                              offered: Bytes, login: Login, q: Request, reserved: Byte, rest: Bytes) {
    && s != [] && s[0] == 5 && OnWire(q.dest)
    && GoodOpening(cfg, env, s[1..], offered, login, RequestBytes(q, reserved) + rest)
    && Permits(env, q, addr)
  }

  lemma RequestDials(env: Env, q: Request, rest: Bytes, tr: seq<Event>, addr: AddrSpec)
    requires Dialed(addr) !in tr
    ensures Dialed(addr) in HandleRequest(env, q, rest, tr) <==> Permits(env, q, addr)
  {
    PermitsDestination(env, q, addr);
    hide ReplyBytes, Formattable, Permits, Destination;
  }

  /** Everything but writing happens in the handling of a parsed request. */
  lemma ServedEvent(cfg: Methods, env: Env, s: Bytes, e: Event)
    requires s != [] && s[0] == VERSION && !e.Wrote?
    ensures e in Serve(cfg, env, s) <==>
            var (tr, rest) := Authenticate(cfg, env, s[1..], []);
            && rest.Some? && ParseRequest(rest.value).Ok?
            && var (q, later) := ParseRequest(rest.value).value;
               e in HandleRequest(env, q, later, tr)
    ensures e !in Authenticate(cfg, env, s[1..], []).0
  {
    OpeningTrace(cfg, env, s[1..]);
    hide Authenticate, ParseRequest, ReplyBytes, HandleRequest;
  }

  lemma ServedDial(cfg: Methods, env: Env, s: Bytes, addr: AddrSpec)
    requires s != [] && s[0] == VERSION
    ensures Dialed(addr) in Serve(cfg, env, s) <==>
            var rest := Authenticate(cfg, env, s[1..], []).1;
            rest.Some? && ParseRequest(rest.value).Ok? && Permits(env, ParseRequest(rest.value).value.0, addr)
  {
    ServedEvent(cfg, env, s, Dialed(addr));
    hide Serve, Authenticate, ParseRequest, Permits, HandleRequest;
    var (tr, rest) := Authenticate(cfg, env, s[1..], []);
    if rest.Some? && ParseRequest(rest.value).Ok? {
      var (q, later) := ParseRequest(rest.value).value;
      RequestDials(env, q, later, tr, addr);
    }
  }

  /**
   * The server dials `addr` if and only if the client's bytes are, in order, the version, an offer whose first
   * supported method succeeds, and a CONNECT request that resolves, is allowed, and is rewritten to `addr`.
   */
  lemma DialExactly(cfg: Methods, env: Env, s: Bytes, addr: AddrSpec)
    ensures Dialed(addr) in Serve(cfg, env, s) <==>
            exists offered, login, q, reserved, rest ::
              DialWitness(cfg, env, s, addr, offered, login, q, reserved, rest)
  {
    hide Serve, Authenticate, ParseRequest, GoodOpening, RequestBytes, Permits;
    if Dialed(addr) in Serve(cfg, env, s) {
      DialedNeedsVersion(cfg, env, s, addr);
      ServedDial(cfg, env, s, addr);
      var input := Authenticate(cfg, env, s[1..], []).1.value;
      var offered, login := AuthenticateSound(cfg, env, s[1..]);
      var (q, rest) := ParseRequest(input).value;
      ParseRequestSound(input);
      assert DialWitness(cfg, env, s, addr, offered, login, q, input[2], rest);
    }
    if offered, login, q, reserved, rest :| DialWitness(cfg, env, s, addr, offered, login, q, reserved, rest) {
      AuthenticateComplete(cfg, env, s[1..], offered, login, RequestBytes(q, reserved) + rest);
      ParseRequestComplete(q, reserved, rest);
      ServedDial(cfg, env, s, addr);
    }
  }

  lemma DialedNeedsVersion(cfg: Methods, env: Env, s: Bytes, addr: AddrSpec)
    requires Dialed(addr) in Serve(cfg, env, s)
    ensures s != [] && s[0] == VERSION
  {
    hide Authenticate;
  }

  /**
   * The code a parsed request is answered with: 4 for a name that does not resolve, 7 for a command other than the
   * three known ones, 2 for one the rules forbid, 7 for an allowed BIND or ASSOCIATE, and the dial's own result.
   */
  function Code(env: Env, q: Request): Byte {
    if Destination(env, q).None? then HOST_UNREACHABLE
    else if q.command !in {CONNECT, BIND, ASSOCIATE} then COMMAND_NOT_SUPPORTED
    else if !env.allow(q.command, Destination(env, q).value, env.rewrite(q.command, Destination(env, q).value)) then
      RULE_FAILURE
    else if q.command == CONNECT then DialCode(env.dial(env.rewrite(CONNECT, Destination(env, q).value)))
    else COMMAND_NOT_SUPPORTED
  }

  /** The codes in numbers (section 6 of RFC 1928), by what the environment says to the request. */
  lemma CodeNumbers(env: Env, q: Request, dest: AddrSpec)
    ensures (forall d :: !AsksFor(env, q, d)) ==> Code(env, q) == 4
    ensures AsksFor(env, q, dest) ==>
              var target := env.rewrite(q.command, dest);
              Code(env, q) ==
                if q.command != 1 && q.command != 2 && q.command != 3 then 7
                else if !env.allow(q.command, dest, target) then 2
                else if q.command != 1 then 7
                else match env.dial(target)
                     case Connected(_, _) => 0
                     case Refused => 5
                     case Unreachable => 3
                     case DialFailed => 4
    ensures AsksFor(env, q, dest) && Code(env, q) == 0 ==>
              var d := env.dial(env.rewrite(q.command, dest));
              d.Connected? && Bound(env, q) == Some(AddrSpec([], d.ip, d.port))
    ensures Code(env, q) != 0 ==> Bound(env, q) == None
  {
    DestinationExactly(env, q, dest);
    if Destination(env, q).Some? {
      DestinationExactly(env, q, Destination(env, q).value);
    }
    hide Destination, AsksFor;
  }

  /** The address shown in the answer: the local end of a successful dial. */
  function Bound(env: Env, q: Request): Option<AddrSpec> {
    if Code(env, q) != SUCCESS then None
    else
      match env.dial(env.rewrite(CONNECT, Destination(env, q).value))
      case Connected(ip, port) => Some(AddrSpec([], ip, port))
      case _ => None
  }

  /** What the server wrote, in order. */
  function Written(tr: seq<Event>): seq<Bytes> {
    if tr == [] then []
    else Written(tr[..|tr| - 1]) + if tr[|tr| - 1].Wrote? then [tr[|tr| - 1].data] else []
  }

  lemma WrittenSnoc(tr: seq<Event>, e: Event)
    ensures Written(tr + [e]) == Written(tr) + if e.Wrote? then [e.data] else []
  {
    assert (tr + [e])[..|tr|] == tr;
  }

  lemma ReplyWrites(env: Env, tr: seq<Event>, resp: Byte, addr: Option<AddrSpec>)
    ensures Written(SendReply(env, tr, resp, addr))
            == Written(tr) + match ReplyBytes(resp, addr) { case None => [] case Some(m) => [m] }
  {
    hide ReplyBytes, Written;
    if ReplyBytes(resp, addr).Some? {
      var m := ReplyBytes(resp, addr).value;
      WrittenSnoc(tr, Wrote(m, env.writes(tr, m)));
    }
  }

  lemma ConnectReplies(env: Env, target: AddrSpec, rest: Bytes, tr: seq<Event>)
    ensures var d := env.dial(target);
            var bound := if d.Connected? then Some(AddrSpec([], d.ip, d.port)) else None;
            Written(HandleConnect(env, target, rest, tr))
            == Written(tr) + match ReplyBytes(DialCode(d), bound) { case None => [] case Some(m) => [m] }
  {
    hide ReplyBytes, Written, Formattable;
    var tr1 := tr + [Dialed(target)];
    WrittenSnoc(tr, Dialed(target));
    match env.dial(target) {
      case Connected(ip, port) =>
        var bind := AddrSpec([], ip, port);
        ReplyWrites(env, tr1, SUCCESS, Some(bind));
        WrittenSnoc(SendReply(env, tr1, SUCCESS, Some(bind)), Proxied(rest));
        hide SendReply;
      case failed => ReplyWrites(env, tr1, DialCode(failed), None);
    }
  }

  /** A parsed request gets one reply, with the code its path dictates, if the bound address can be formatted. */
  lemma OneReply(env: Env, q: Request, rest: Bytes, tr: seq<Event>)
    ensures Written(HandleRequest(env, q, rest, tr))
            == Written(tr) + match ReplyBytes(Code(env, q), Bound(env, q)) { case None => [] case Some(m) => [m] }
  {
    hide ReplyBytes, Written, HandleConnect, SendReply;
    var tr1 := if q.dest.fqdn == [] then tr else tr + [Resolved(q.dest.fqdn)];
    WrittenSnoc(tr, Resolved(q.dest.fqdn));
    ReplyWrites(env, tr1, HOST_UNREACHABLE, None);
    ReplyWrites(env, tr1, COMMAND_NOT_SUPPORTED, None);
    if Destination(env, q).Some? {
      var dest := Destination(env, q).value;
      var target := env.rewrite(q.command, dest);
      var asked := Asked(q.command, env.allow(q.command, dest, target));
      WrittenSnoc(tr1, asked);
      ReplyWrites(env, tr1 + [asked], RULE_FAILURE, None);
      ReplyWrites(env, tr1 + [asked], COMMAND_NOT_SUPPORTED, None);
      ConnectReplies(env, target, rest, tr1 + [asked]);
    }
  }

  /** What the server sends before the request of a session in which method `m` succeeded. */
  function OpeningWrites(m: Byte): seq<Bytes> {
    [[5, m]] + if m == 2 then [[1, 0]] else []
  }

  lemma OpeningWritten(cfg: Methods, env: Env, s: Bytes)
    requires Authenticate(cfg, env, s, []).1.Some?
    ensures Written(Authenticate(cfg, env, s, []).0)
            == OpeningWrites(FirstSupported(cfg, ParseCounted(s).value.0).value)
  {
    hide ParseCounted, ParseLogin, FirstSupported, Written;
    var m := FirstSupported(cfg, ParseCounted(s).value.0).value;
    var chosen := [Wrote([VERSION, m], true)];
    NothingWritten();
    WrittenSnoc([], Wrote([VERSION, m], true));
    WrittenSnoc(chosen, Wrote([USER_AUTH_VERSION, 0], true));
    assert [] + chosen == chosen && [] + [[VERSION, m]] == [[VERSION, m]];
    assert Authenticate(cfg, env, s, []).0
        == if m == USER_PASS then chosen + [Wrote([USER_AUTH_VERSION, 0], true)] else chosen;
  }

  lemma NothingWritten()
    ensures Written([]) == []
  {
  }

  /**
   * In a session with a good opening and a well-formed request, the server sends the method selection, the status of
   * a login where one was asked for, and exactly one reply, with the code the request's path dictates.
   */
  lemma SessionReplies(cfg: Methods, env: Env, s: Bytes, offered: Bytes, login: Login, q: Request, reserved: Byte,
                       rest: Bytes)
    requires s != [] && s[0] == VERSION && OnWire(q.dest)
    requires GoodOpening(cfg, env, s[1..], offered, login, RequestBytes(q, reserved) + rest)
    ensures FirstSupported(cfg, offered).Some?
    ensures Written(Serve(cfg, env, s)) == OpeningWrites(FirstSupported(cfg, offered).value)
              + match ReplyBytes(Code(env, q), Bound(env, q)) { case None => [] case Some(m) => [m] }
  {
    var input := RequestBytes(q, reserved) + rest;
    AuthenticateComplete(cfg, env, s[1..], offered, login, input);
    ParseRequestComplete(q, reserved, rest);
    OpeningWritten(cfg, env, s[1..]);
    OfferParsed(cfg, env, s[1..], offered, login, input);
    OneReply(env, q, rest, Authenticate(cfg, env, s[1..], []).0);
    hide Written, Authenticate, ParseRequest, HandleRequest, GoodOpening, ReplyBytes, Code, Bound, RequestBytes,
         OpeningWrites, FirstSupported;
  }

  /**
   * In such a session the name is resolved if there is one, and nothing else; the rules are asked once about the known
   * commands, and about the destination as it was resolved; and data is proxied, from the first byte after the
   * request, if and only if a success reply went through.
   */
  lemma SessionActions(cfg: Methods, env: Env, s: Bytes, offered: Bytes, login: Login, q: Request, reserved: Byte,
                       rest: Bytes, e: Event)
    requires s != [] && s[0] == VERSION && OnWire(q.dest)
    requires GoodOpening(cfg, env, s[1..], offered, login, RequestBytes(q, reserved) + rest)
    ensures e.Resolved? ==> (e in Serve(cfg, env, s) <==> e.name == q.dest.fqdn != [])
    ensures e.Asked? ==> (e in Serve(cfg, env, s) <==>
              && e.command == q.command && (q.command == 1 || q.command == 2 || q.command == 3)
              && exists dest ::
                   AsksFor(env, q, dest) && e.allowed == env.allow(q.command, dest, env.rewrite(q.command, dest)))
    ensures e.Proxied? ==> (e in Serve(cfg, env, s) <==> e.rest == rest && SuccessSent(Serve(cfg, env, s)))
  {
    var input := RequestBytes(q, reserved) + rest;
    AuthenticateComplete(cfg, env, s[1..], offered, login, input);
    ParseRequestComplete(q, reserved, rest);
    hide RequestBytes, GoodOpening;
    var tr := Authenticate(cfg, env, s[1..], []).0;
    assert Serve(cfg, env, s) == HandleRequest(env, q, rest, tr) by { hide Authenticate, ParseRequest, HandleRequest; }
    OpeningTrace(cfg, env, s[1..]);
    if !e.Wrote? {
      ServedEvent(cfg, env, s, e);
    }
    hide Serve, Authenticate, ParseRequest, HandleRequest;
    RequestActions(env, q, rest, tr, e);
    if e.Proxied? {
      RequestProxies(env, q, rest, tr, e);
    }
  }

  /** A reply with code 0 went through; nothing else the server sends has ten bytes or more and 0 in that place. */
  ghost predicate SuccessSent(tr: seq<Event>) {
    exists i :: 0 <= i < |tr| && tr[i].Wrote? && tr[i].ok && |tr[i].data| > 2 && tr[i].data[1] == 0
  }

  lemma RequestActions(env: Env, q: Request, rest: Bytes, tr: seq<Event>, e: Event)
    requires forall i :: 0 <= i < |tr| ==> tr[i].Wrote? && |tr[i].data| == 2
    ensures e.Resolved? ==> (e in HandleRequest(env, q, rest, tr) <==> e.name == q.dest.fqdn != [])
    ensures e.Asked? ==> (e in HandleRequest(env, q, rest, tr) <==>
              && e.command == q.command && (q.command == 1 || q.command == 2 || q.command == 3)
              && exists dest ::
                   AsksFor(env, q, dest) && e.allowed == env.allow(q.command, dest, env.rewrite(q.command, dest)))
  {
    AskedDestination(env, q);
    hide ReplyBytes, Formattable, AsksFor;
  }

  lemma SuccessSnoc(tr: seq<Event>, e: Event)
    ensures SuccessSent(tr + [e]) <==> SuccessSent(tr) || (e.Wrote? && e.ok && |e.data| > 2 && e.data[1] == 0)
  {
    if i :| 0 <= i < |tr| && tr[i].Wrote? && tr[i].ok && |tr[i].data| > 2 && tr[i].data[1] == 0 {
      assert (tr + [e])[i] == tr[i];
    }
    if e.Wrote? && e.ok && |e.data| > 2 && e.data[1] == 0 {
      assert (tr + [e])[|tr|] == e;
    }
  }

  lemma ReplySucceeds(env: Env, tr: seq<Event>, resp: Byte, addr: Option<AddrSpec>)
    ensures SuccessSent(SendReply(env, tr, resp, addr)) <==>
            || SuccessSent(tr)
            || (resp == 0 && ReplyBytes(resp, addr).Some? && env.writes(tr, ReplyBytes(resp, addr).value))
  {
    var reply := ReplyBytes(resp, addr);
    assert reply.Some? ==> |reply.value| > 2 && reply.value[1] == resp;
    hide ReplyBytes, SuccessSent;
    if reply.Some? {
      SuccessSnoc(tr, Wrote(reply.value, env.writes(tr, reply.value)));
    }
  }

  lemma ConnectProxies(env: Env, target: AddrSpec, rest: Bytes, tr: seq<Event>, e: Event)
    requires e.Proxied? && e !in tr && !SuccessSent(tr)
    ensures var t := HandleConnect(env, target, rest, tr);
            e in t <==> e.rest == rest && SuccessSent(t)
  {
    var tr1 := tr + [Dialed(target)];
    SuccessSnoc(tr, Dialed(target));
    match env.dial(target) {
      case Connected(ip, port) =>
        var bind := AddrSpec([], ip, port);
        ReplySucceeds(env, tr1, SUCCESS, Some(bind));
        SuccessSnoc(SendReply(env, tr1, SUCCESS, Some(bind)), Proxied(rest));
        assert Formattable(bind) <==> ReplyBytes(SUCCESS, Some(bind)).Some?;
      case failed => ReplySucceeds(env, tr1, DialCode(failed), None);
    }
    hide ReplyBytes, SuccessSent, Formattable;
  }

  lemma RequestProxies(env: Env, q: Request, rest: Bytes, tr: seq<Event>, e: Event)
    requires e.Proxied? && e !in tr && !SuccessSent(tr)
    ensures var t := HandleRequest(env, q, rest, tr);
            e in t <==> e.rest == rest && SuccessSent(t)
  {
    hide ReplyBytes, SuccessSent, HandleConnect;
    var tr1 := if q.dest.fqdn == [] then tr else tr + [Resolved(q.dest.fqdn)];
    SuccessSnoc(tr, Resolved(q.dest.fqdn));
    ReplySucceeds(env, tr1, HOST_UNREACHABLE, None);
    ReplySucceeds(env, tr1, COMMAND_NOT_SUPPORTED, None);
    if Destination(env, q).Some? {
      var dest := Destination(env, q).value;
      var target := env.rewrite(q.command, dest);
      var asked := Asked(q.command, env.allow(q.command, dest, target));
      SuccessSnoc(tr1, asked);
      ReplySucceeds(env, tr1 + [asked], RULE_FAILURE, None);
      ReplySucceeds(env, tr1 + [asked], COMMAND_NOT_SUPPORTED, None);
      ConnectProxies(env, target, rest, tr1 + [asked], e);
    }
  }

  lemma AskedDestination(env: Env, q: Request)
    ensures Destination(env, q).Some? ==> AsksFor(env, q, Destination(env, q).value)
    ensures forall dest :: AsksFor(env, q, dest) ==> Destination(env, q) == Some(dest)
  {
  }

  /** A request that cannot be read is answered only if its address type is unknown, with code 8. */
  lemma UnreadableReplies(cfg: Methods, env: Env, s: Bytes, offered: Bytes, login: Login, input: Bytes)
    requires s != [] && s[0] == VERSION && GoodOpening(cfg, env, s[1..], offered, login, input)
    requires ParseRequest(input).Err?
    ensures FirstSupported(cfg, offered).Some?
    ensures Written(Serve(cfg, env, s)) == OpeningWrites(FirstSupported(cfg, offered).value)
              + if |input| >= 4 && input[0] == 5 && input[3] != 1 && input[3] != 3 && input[3] != 4
                then [[5, 8, 0, 1, 0, 0, 0, 0, 0, 0]] else []
  {
    hide *;
    AuthenticateComplete(cfg, env, s[1..], offered, login, input);
    OpeningWritten(cfg, env, s[1..]);
    OfferParsed(cfg, env, s[1..], offered, login, input);
    UnreadableExactly(input);
    ServedUnreadable(cfg, env, s, input);
    EmptyReply(8);
    ReplyWrites(env, Authenticate(cfg, env, s[1..], []).0, 8, None);
  }

  lemma ServedUnreadable(cfg: Methods, env: Env, s: Bytes, input: Bytes)
    requires s != [] && s[0] == VERSION && Authenticate(cfg, env, s[1..], []).1 == Some(input)
    requires ParseRequest(input).Err?
    ensures var tr := Authenticate(cfg, env, s[1..], []).0;
            Serve(cfg, env, s) == if ParseRequest(input) == Err(BadAddrType) then SendReply(env, tr, 8, None) else tr
  {
    hide Authenticate, ParseRequest, SendReply;
  }

  lemma UnreadableExactly(input: Bytes)
    ensures ParseRequest(input) == Err(BadAddrType) <==>
            |input| >= 4 && input[0] == 5 && input[3] != 1 && input[3] != 3 && input[3] != 4
  {
  }

  lemma OfferParsed(cfg: Methods, env: Env, s: Bytes, offered: Bytes, login: Login, rest: Bytes)
    requires GoodOpening(cfg, env, s, offered, login, rest)
    ensures ParseCounted(s).Ok? && ParseCounted(s).value.0 == offered && FirstSupported(cfg, offered).Some?
  {
    hide ParseCounted, FirstSupported, CountedBytes, LoginBytes;
    ParseCountedComplete(offered, rest);
    if cfg[FirstSupported(cfg, offered).value].UserPassAuthenticator? {
      ParseCountedComplete(offered, LoginBytes(login) + rest);
    }
  }

  /** Only a dialled address that is neither 4 nor 16 bytes long can leave a parsed request without a reply. */
  lemma ReplyMissingExactly(env: Env, q: Request)
    ensures ReplyBytes(Code(env, q), Bound(env, q)).None? <==>
            Bound(env, q).Some? && |Bound(env, q).value.ip| != 4 && |Bound(env, q).value.ip| != 16
  {
  }

  /**
   * Around a dial at `i`: the rules were asked right before it and allowed it, every earlier write went through,
   * there is no second dial, and data is proxied only after the success reply went through.
   */
  ghost predicate ProperDial(tr: seq<Event>, i: nat) {
    && 0 < i < |tr| && tr[i - 1] == Asked(CONNECT, true)
    && (forall j :: 0 <= j < i && tr[j].Wrote? ==> tr[j].ok)
    && (forall j :: 0 <= j < |tr| && tr[j].Dialed? ==> j == i)
    && (forall j :: 0 <= j < |tr| && tr[j].Proxied? ==>
          j == i + 2 && tr[i + 1].Wrote? && tr[i + 1].ok && |tr[i + 1].data| >= 2 && tr[i + 1].data[1] == SUCCESS)
  }

  /** Every dial of every session is such a dial. */
  lemma DialShape(cfg: Methods, env: Env, s: Bytes, tr: seq<Event>, i: nat)
    requires tr == Serve(cfg, env, s) && i < |tr| && tr[i].Dialed?
    ensures ProperDial(tr, i)
  {
    ServedSomething(cfg, env, s);
    OpeningTrace(cfg, env, s[1..]);
    hide Authenticate, ParseRequest, ProperDial;
    var (tr0, rest) := Authenticate(cfg, env, s[1..], []);
    assert rest.Some? by { hide HandleParsed; }
    hide HandleParsed;
    HandledDialShape(env, ParseRequest(rest.value), tr0, i);
  }

  lemma ServedSomething(cfg: Methods, env: Env, s: Bytes)
    requires Serve(cfg, env, s) != []
    ensures s != [] && s[0] == VERSION
  {
    hide Authenticate, HandleParsed;
  }

  lemma ConnectDialShape(env: Env, target: AddrSpec, rest: Bytes, tr: seq<Event>)
    requires tr != [] && tr[|tr| - 1] == Asked(CONNECT, true)
    requires forall j :: 0 <= j < |tr| ==> !tr[j].Dialed? && !tr[j].Proxied? && (tr[j].Wrote? ==> tr[j].ok)
    ensures ProperDial(HandleConnect(env, target, rest, tr), |tr|)
    ensures tr + [Dialed(target)] <= HandleConnect(env, target, rest, tr)
  {
    hide Formattable, To4;
  }

  lemma HandledDialShape(env: Env, parsed: Result<(Request, Bytes), ParseError>, tr0: seq<Event>, i: nat)
    requires forall j :: 0 <= j < |tr0| ==> tr0[j].Wrote? && tr0[j].ok
    requires i < |HandleParsed(env, parsed, tr0)| && HandleParsed(env, parsed, tr0)[i].Dialed?
    ensures ProperDial(HandleParsed(env, parsed, tr0), i)
  {
    hide ReplyBytes, HandleConnect, ProperDial;
    if parsed.Ok? && Destination(env, parsed.value.0).Some? {
      var (q, rest) := parsed.value;
      var tr1 := if q.dest.fqdn == [] then tr0 else tr0 + [Resolved(q.dest.fqdn)];
      var asked := tr1 + [Asked(CONNECT, true)];
      var target := env.rewrite(CONNECT, Destination(env, q).value);
      if q.command == CONNECT && env.allow(CONNECT, Destination(env, q).value, target) {
        hide SendReply;
        ConnectDialShape(env, target, rest, asked);
        OnlyDial(HandleConnect(env, target, rest, asked), |asked|, i);
      }
    }
  }

  lemma OnlyDial(tr: seq<Event>, i: nat, k: nat)
    requires ProperDial(tr, i) && k < |tr| && tr[k].Dialed?
    ensures k == i
  {
  }

  ghost predicate Sent(tr: seq<Event>, data: Bytes) {
    exists i :: 0 <= i < |tr| && tr[i].Wrote? && tr[i].data == data
  }

  /** The input is the version and a complete offer with no supported method. */
  ghost predicate RefusalWitness(cfg: Methods, s: Bytes, offered: Bytes, rest: Bytes) {
    |offered| <= 255 && s == [5] + (CountedBytes(offered) + rest) && Disjoint(cfg, offered)
  }

  lemma AuthenticateRefuses(cfg: Methods, env: Env, s: Bytes)
    ensures var (tr, rest) := Authenticate(cfg, env, s, []);
            var refused := ParseCounted(s).Ok? && FirstSupported(cfg, ParseCounted(s).value.0).None?;
            && (Sent(tr, [VERSION, NO_ACCEPTABLE]) <==> refused)
            && (refused ==> rest.None? && |tr| == 1)
  {
    hide ParseCounted, ParseLogin, FirstSupported;
    var (tr, rest) := Authenticate(cfg, env, s, []);
    if ParseCounted(s).Ok? && FirstSupported(cfg, ParseCounted(s).value.0).None? {
      assert tr[0].data == [VERSION, NO_ACCEPTABLE];
    }
  }

  /** Request handling keeps the opening as it was and writes nothing as short as a method selection. */
  lemma RequestWritesLong(env: Env, parsed: Result<(Request, Bytes), ParseError>, tr: seq<Event>)
    ensures var t := HandleParsed(env, parsed, tr);
            && tr <= t
            && forall i :: |tr| <= i < |t| && t[i].Wrote? ==> |t[i].data| > 2
  {
    hide Formattable, To4, Destination;
  }

  lemma HandlingSendsNothingShort(env: Env, parsed: Result<(Request, Bytes), ParseError>, tr: seq<Event>, data: Bytes)
    requires |data| == 2
    ensures Sent(HandleParsed(env, parsed, tr), data) <==> Sent(tr, data)
  {
    RequestWritesLong(env, parsed, tr);
    hide HandleParsed;
    var t := HandleParsed(env, parsed, tr);
    if i :| 0 <= i < |tr| && tr[i].Wrote? && tr[i].data == data {
      assert t[i] == tr[i];
    }
  }

  lemma ServedRefusal(cfg: Methods, env: Env, s: Bytes)
    requires s != [] && s[0] == VERSION
    ensures var refused := ParseCounted(s[1..]).Ok? && FirstSupported(cfg, ParseCounted(s[1..]).value.0).None?;
            && (Sent(Serve(cfg, env, s), [VERSION, NO_ACCEPTABLE]) <==> refused)
            && (refused ==> |Serve(cfg, env, s)| == 1)
  {
    AuthenticateRefuses(cfg, env, s[1..]);
    hide Authenticate, HandleParsed, Sent;
    var (tr, rest) := Authenticate(cfg, env, s[1..], []);
    if rest.Some? {
      HandlingSendsNothingShort(env, ParseRequest(rest.value), tr, [VERSION, NO_ACCEPTABLE]);
    }
  }

  /**
   * The refusal 0xFF is sent if and only if the input is the version and a complete offer with no supported method,
   * and then it is the only thing the server does.
   */
  lemma RefusalExactly(cfg: Methods, env: Env, s: Bytes)
    ensures var refused := exists offered, rest :: RefusalWitness(cfg, s, offered, rest);
            && (Sent(Serve(cfg, env, s), [5, 255]) <==> refused)
            && (refused ==> |Serve(cfg, env, s)| == 1)
  {
    hide Authenticate, HandleParsed, ParseCounted, FirstSupported, Disjoint, CountedBytes;
    if s != [] && s[0] == VERSION {
      ServedRefusal(cfg, env, s);
      hide Serve;
      ParseCountedSound(s[1..]);
      if ParseCounted(s[1..]).Ok? {
        var (offered, rest) := ParseCounted(s[1..]).value;
        FirstSupportedIsFirst(cfg, offered);
        if FirstSupported(cfg, offered).None? {
          assert s == [VERSION] + s[1..];
          assert RefusalWitness(cfg, s, offered, rest);
        }
      }
      if offered, rest :| RefusalWitness(cfg, s, offered, rest) {
        ParseCountedComplete(offered, rest);
        assert s[1..] == CountedBytes(offered) + rest;
        FirstSupportedIsFirst(cfg, offered);
      }
    }
  }

  /**
   * The input is the version, an offer whose first supported method is user and password, and a complete login
   * that the credentials reject; and the method selection went through.
   */
  ghost predicate BadLoginWitness(cfg: Methods, env: Env, s: Bytes, offered: Bytes, login: Login, rest: Bytes) {
    && |offered| <= 255 && LoginOnWire(login)
    && s == [5] + (CountedBytes(offered) + (LoginBytes(login) + rest))
    && FirstSupported(cfg, offered) == Some(2)
    && !cfg[2].valid(login.user, login.password)
    && env.writes([], [5, 2])
  }

  predicate RejectsLogin(cfg: Methods, env: Env, offered: Bytes, s: Bytes) {
    && FirstSupported(cfg, offered) == Some(USER_PASS)
    && env.writes([], [VERSION, USER_PASS])
    && ParseLogin(s).Ok?
    && !cfg[USER_PASS].valid(ParseLogin(s).value.0.user, ParseLogin(s).value.0.password)
  }

  lemma AuthenticateRejects(cfg: Methods, env: Env, s: Bytes)
    ensures var (tr, rest) := Authenticate(cfg, env, s, []);
            var offer := ParseCounted(s);
            var rejected := offer.Ok? && RejectsLogin(cfg, env, offer.value.0, offer.value.1);
            && (Sent(tr, [USER_AUTH_VERSION, 1]) <==> rejected)
            && (rejected ==> rest.None?)
  {
    hide ParseCounted, ParseLogin, FirstSupported;
    var (tr, rest) := Authenticate(cfg, env, s, []);
    if ParseCounted(s).Ok? && RejectsLogin(cfg, env, ParseCounted(s).value.0, ParseCounted(s).value.1) {
      assert tr[1].data == [USER_AUTH_VERSION, 1];
    }
  }

  lemma ServedRejection(cfg: Methods, env: Env, s: Bytes)
    requires s != [] && s[0] == VERSION
    ensures var offer := ParseCounted(s[1..]);
            var rejected := offer.Ok? && RejectsLogin(cfg, env, offer.value.0, offer.value.1);
            && (Sent(Serve(cfg, env, s), [USER_AUTH_VERSION, 1]) <==> rejected)
            && (rejected ==> forall i :: 0 <= i < |Serve(cfg, env, s)| ==> Serve(cfg, env, s)[i].Wrote?)
  {
    AuthenticateRejects(cfg, env, s[1..]);
    OpeningTrace(cfg, env, s[1..]);
    hide Authenticate, HandleParsed, Sent, RejectsLogin;
    var (tr, rest) := Authenticate(cfg, env, s[1..], []);
    if rest.Some? {
      HandlingSendsNothingShort(env, ParseRequest(rest.value), tr, [USER_AUTH_VERSION, 1]);
    }
  }

  /** The failure status is sent if and only if a complete login is rejected, and then nothing is dialled. */
  lemma BadLoginExactly(cfg: Methods, env: Env, s: Bytes)
    ensures var rejected := exists offered, login, rest :: BadLoginWitness(cfg, env, s, offered, login, rest);
            && (Sent(Serve(cfg, env, s), [1, 1]) <==> rejected)
            && (rejected ==> forall i :: 0 <= i < |Serve(cfg, env, s)| ==> Serve(cfg, env, s)[i].Wrote?)
  {
    hide Authenticate, HandleParsed, ParseCounted, ParseLogin, FirstSupported, CountedBytes, LoginBytes;
    if s != [] && s[0] == VERSION {
      ServedRejection(cfg, env, s);
      hide Serve;
      ParseCountedSound(s[1..]);
      if ParseCounted(s[1..]).Ok? {
        var (offered, s1) := ParseCounted(s[1..]).value;
        ParseLoginSound(s1);
        if RejectsLogin(cfg, env, offered, s1) {
          var (login, rest) := ParseLogin(s1).value;
          assert s == [VERSION] + s[1..];
          assert BadLoginWitness(cfg, env, s, offered, login, rest);
        }
      }
      if offered, login, rest :| BadLoginWitness(cfg, env, s, offered, login, rest) {
        assert s[1..] == CountedBytes(offered) + (LoginBytes(login) + rest);
        ParseCountedComplete(offered, LoginBytes(login) + rest);
        ParseLoginComplete(login, rest);
      }
    }
  }
}
