/** What every interleaving keeps: registry coherence, cipher readiness, and each connection's own invariants. */
module RegistrySafety {
  import opened Prelude
  import opened Frames
  import opened Registry
  import opened Link
  import opened ServerSystem

  ghost predicate LinksOk(s: State) {
    forall c :: c in s.links ==> LinkOk(s.secret, s.links[c])
  }

  /** `App.mutex` is held exactly while a ping handler is between its two updates. */
  ghost predicate MutexOk(s: State) {
    && (forall c :: c in s.links && s.links[c].reader.Pinging? ==> s.mutex == Some(c))
    && (s.mutex.Some? ==> s.mutex.value in s.links && s.links[s.mutex.value].reader.Pinging?)
  }

  /** Only connections that have reached their read loop are registered, and a cleaned-up one has no reverse entry. */
  ghost predicate MapsOk(s: State) {
    && s.maps.Coherent()
    && (forall a :: a in s.maps.conns ==> s.maps.conns[a] in s.links && s.links[s.maps.conns[a]].cryptoDone)
    && (forall c :: c in s.maps.reverse ==> c in s.links && !CleanedUp(s.links[c]))
  }

  ghost predicate WorkersOk(s: State) {
    forall w :: w in s.workers && s.workers[w].Found? ==>
      s.workers[w].conn in s.links && s.links[s.workers[w].conn].cryptoDone
  }

  ghost predicate Inv(s: State) {
    LinksOk(s) && MutexOk(s) && MapsOk(s) && WorkersOk(s)
  }

  /** Every connection of `s` is still there, and has only moved forward. */
  ghost predicate LinksLater(s: State, s': State) {
    s.secret == s'.secret && forall c :: c in s.links ==> c in s'.links && Later(s.links[c], s'.links[c])
  }

  lemma EnqueueIsLater(l: Link, data: Bytes)
    ensures Later(l, Enqueue(l, data))
  {
  }

  lemma LinkChangeIsLater(s: State, c: ConnId, l: Link)
    requires c in s.links ==> Later(s.links[c], l)
    ensures LinksLater(s, SetLink(s, c, l))
  {
  }

  lemma StepIsLater(s: State, st: Step)
    requires Enabled(s, st)
    ensures LinksLater(s, Next(s, st))
  {
    hide LinkEnabled, LinkNext, EnqueueEnabled, Enqueue;
    if st.OnLink? {
      LinkStepIsLater(s.secret, s.links[st.conn], st.step);
      LinkChangeIsLater(s, st.conn, LinkNext(s.secret, s.links[st.conn], st.step));
    } else if st.Send? {
      var c, data := s.workers[st.worker].conn, s.workers[st.worker].data;
      EnqueueIsLater(s.links[c], data);
      LinkChangeIsLater(s, c, Enqueue(s.links[c], data));
    } else {
      OtherStepIsLater(s, st);
    }
    hide Later;
  }

  lemma OtherStepIsLater(s: State, st: Step)
    requires Enabled(s, st) && !st.OnLink? && !st.Send?
    ensures LinksLater(s, Next(s, st))
  {
    hide PingEndState, Later, EnqueueEnabled;
    if st.PingEnd? {
      PingEndIsLater(s, st.conn);
    } else if st.Accept? {
      LinkChangeIsLater(s, st.conn, NewLink);
    } else if st.PingBegin? {
      ReaderMoveIsLater(s.links[st.conn], Pinging(st.ip, st.addr));
      LinkChangeIsLater(s, st.conn, s.links[st.conn].(reader := Pinging(st.ip, st.addr)));
    } else if st.Cleanup? {
      ReaderMoveIsLater(s.links[st.conn], Cleaned);
      LinkChangeIsLater(s, st.conn, s.links[st.conn].(reader := Cleaned));
    } else {
      SameLinksAreLater(s);
    }
  }

  lemma ReaderMoveIsLater(l: Link, r: Reader)
    requires !CleanedUp(l)
    ensures Later(l, l.(reader := r))
  {
  }

  lemma SameLinksAreLater(s: State)
    ensures LinksLater(s, s)
  {
  }

  lemma PingEndIsLater(s: State, c: ConnId)
    requires c in s.links && s.links[c].reader.Pinging?
    ensures LinksLater(s, PingEndState(s, c))
  {
  }

  lemma StepKeepsLinks(s: State, st: Step)
    requires Inv(s) && Enabled(s, st)
    ensures LinksOk(Next(s, st))
  {
    hide LinkEnabled, LinkNext, LinkOk, Enqueue, EnqueueEnabled;
    match st {
      case Accept(_) => NewLinkOk(s.secret);
      case OnLink(c, step) => LinkStepKeepsLinkOk(s.secret, s.links[c], step);
      case PingBegin(c, ip, a) => ReaderMoveKeepsLinkOk(s.secret, s.links[c], Pinging(ip, a));
      case PingEnd(c) =>
        NoStreamless(s);
        ReaderMoveKeepsLinkOk(s.secret, s.links[c], Reading);
      case Cleanup(c) => ReaderMoveKeepsLinkOk(s.secret, s.links[c], Cleaned);
      case Send(w) => EnqueueKeepsLinkOk(s.secret, s.links[s.workers[w].conn], s.workers[w].data);
      case _ =>
    }
  }

  lemma ReaderMoveKeepsLinkOk(secret: Option<Cipher>, l: Link, r: Reader)
    requires LinkOk(secret, l)
    requires (l.reader.Reading? && r.Pinging?) || (l.reader.Pinging? && r.Reading?) || (l.reader.Leaving? && r.Cleaned?)
    ensures LinkOk(secret, l.(reader := r))
  {
  }

  /** No connection without a stream exists, which makes the last branch of `SetConns` inert. */
  lemma NoStreamless(s: State)
    requires LinksOk(s)
    ensures Streamless(s) == {}
  {
    forall c | c in s.links ensures s.links[c].hasStream {
      assert LinkOk(s.secret, s.links[c]);
    }
  }

  /** A connection's own steps neither enter nor leave the ping handler, and never run the cleanup. */
  lemma LinkStepAndReader(secret: Option<Cipher>, l: Link, st: LinkStep)
    requires LinkEnabled(secret, l, st)
    ensures LinkNext(secret, l, st).reader.Pinging? <==> l.reader.Pinging?
    ensures CleanedUp(LinkNext(secret, l, st)) <==> CleanedUp(l)
  {
    hide WriterNext, ReaderNext;
  }

  lemma LinkStepKeepsPing(secret: Option<Cipher>, l: Link, st: LinkStep)
    requires LinkEnabled(secret, l, st) && LinkNext(secret, l, st).reader.Pinging?
    ensures LinkNext(secret, l, st).reader == l.reader
  {
    LinkStepAndReader(secret, l, st);
    hide WriterNext;
  }

  lemma LocksOnPing(s: State, c: ConnId, ip: Vip, a: Addr)
    requires MutexOk(s) && c in s.links && s.mutex.None?
    ensures MutexOk(PingBeginState(s, c, ip, a))
  {
  }

  lemma UnlocksAfterPing(s: State, c: ConnId)
    requires MutexOk(s) && Streamless(s) == {} && c in s.links && s.links[c].reader.Pinging?
    ensures MutexOk(PingEndState(s, c))
  {
  }

  lemma LinkStepKeepsMutex(s: State, st: Step)
    requires MutexOk(s) && Enabled(s, st) && (st.Accept? || st.OnLink? || st.Cleanup? || st.Send?)
    ensures MutexOk(Next(s, st))
  {
    hide LinkEnabled, LinkNext, EnqueueEnabled;
    if st.OnLink? {
      LinkStepAndReader(s.secret, s.links[st.conn], st.step);
    }
  }

  lemma StepKeepsMutex(s: State, st: Step)
    requires Inv(s) && Enabled(s, st)
    ensures MutexOk(Next(s, st))
  {
    NoStreamless(s);
    if st.Accept? || st.OnLink? || st.Cleanup? || st.Send? {
      hide *;
      LinkStepKeepsMutex(s, st);
    } else if st.PingBegin? {
      hide PingBeginState;
      LocksOnPing(s, st.conn, st.ip, st.addr);
    } else if st.PingEnd? {
      hide PingEndState;
      UnlocksAfterPing(s, st.conn);
    }
  }

  lemma RegistersAfterPing(s: State, c: ConnId)
    requires MapsOk(s) && Streamless(s) == {} && c in s.links && s.links[c].reader.Pinging? && s.links[c].cryptoDone
    ensures MapsOk(PingEndState(s, c))
  {
    OperationsKeepCoherence(s.maps, s.links[c].reader.addr, c);
  }

  lemma CleanupUnregisters(s: State, c: ConnId)
    requires MapsOk(s) && c in s.links && s.links[c].reader.Leaving?
    ensures MapsOk(CleanupState(s, c))
    ensures c !in CleanupState(s, c).maps.reverse
  {
    OperationsKeepCoherence(s.maps, [], c);
  }

  lemma EvictKeepsMaps(s: State, w: WorkerId)
    requires MapsOk(s) && w in s.workers && s.workers[w].Evicting?
    ensures MapsOk(EvictState(s, w))
  {
    OperationsKeepCoherence(s.maps, s.workers[w].addr, 0);
  }

  /** Only the `Cleanup` step brings a connection past its cleanup. */
  lemma OnlyCleanupCleans(s: State, st: Step, c: ConnId)
    requires Enabled(s, st) && c in s.links && !(st.Cleanup? && st.conn == c)
    ensures c in Next(s, st).links && (CleanedUp(Next(s, st).links[c]) ==> CleanedUp(s.links[c]))
  {
    hide LinkEnabled, LinkNext, EnqueueEnabled;
    if st.OnLink? {
      LinkStepAndReader(s.secret, s.links[st.conn], st.step);
    }
  }

  lemma SameMapsStayOk(s: State, s': State)
    requires MapsOk(s) && s'.maps == s.maps && LinksLater(s, s')
    requires forall c :: c in s.links && CleanedUp(s'.links[c]) ==> CleanedUp(s.links[c])
    ensures MapsOk(s')
  {
  }

  predicate ChangesMaps(st: Step) {
    st.PingEnd? || st.Cleanup? || st.Evict? || st.SweepEvict?
  }

  lemma OtherStepsLeaveMaps(s: State, st: Step)
    requires Enabled(s, st) && !ChangesMaps(st)
    ensures Next(s, st).maps == s.maps
  {
    hide LinkEnabled, LinkNext, EnqueueEnabled, Enqueue;
  }

  lemma StepKeepsSameMaps(s: State, st: Step)
    requires MapsOk(s) && Enabled(s, st) && !ChangesMaps(st)
    ensures MapsOk(Next(s, st))
  {
    assert !st.Cleanup?;
    hide *;
    OtherStepsLeaveMaps(s, st);
    StepIsLater(s, st);
    forall c | c in s.links
      ensures c in Next(s, st).links && (CleanedUp(Next(s, st).links[c]) ==> CleanedUp(s.links[c]))
    {
      OnlyCleanupCleans(s, st, c);
    }
    SameMapsStayOk(s, Next(s, st));
  }

  lemma SweepEvictKeepsMaps(s: State)
    requires MapsOk(s) && s.sweep.SweepEvicting?
    ensures MapsOk(SweepEvictState(s))
  {
    OperationsKeepCoherence(s.maps, s.sweep.addr, 0);
  }

  lemma MapChangeKeepsMaps(s: State, st: Step)
    requires MapsOk(s) && Streamless(s) == {} && Enabled(s, st) && ChangesMaps(st)
    requires st.PingEnd? ==> s.links[st.conn].cryptoDone
    ensures MapsOk(Next(s, st))
  {
    hide MapsOk, PingEndState, CleanupState, EvictState, SweepEvictState;
    if st.PingEnd? {
      RegistersAfterPing(s, st.conn);
    } else if st.Cleanup? {
      CleanupUnregisters(s, st.conn);
    } else if st.Evict? {
      EvictKeepsMaps(s, st.worker);
    } else {
      SweepEvictKeepsMaps(s);
    }
  }

  lemma StepKeepsMaps(s: State, st: Step)
    requires Inv(s) && Enabled(s, st)
    ensures MapsOk(Next(s, st))
  {
    InvGivesMaps(s);
    NoStreamless(s);
    assert st.PingEnd? ==> LinkOk(s.secret, s.links[st.conn]);
    hide Next, MapsOk, LinkNext, LinkEnabled, Enqueue;
    if ChangesMaps(st) {
      MapChangeKeepsMaps(s, st);
    } else {
      StepKeepsSameMaps(s, st);
    }
  }

  lemma InvGivesMaps(s: State)
    requires Inv(s)
    ensures MapsOk(s)
  {
  }

  lemma StepKeepsWorkers(s: State, st: Step)
    requires Inv(s) && Enabled(s, st)
    ensures WorkersOk(Next(s, st))
  {
    if st.Pick? {
      PickKeepsWorkers(s, st.worker, st.addr);
    } else {
      FoundStays(s, st);
      StepIsLater(s, st);
      SameFoundStayOk(s, Next(s, st));
    }
    hide *;
  }

  lemma PickKeepsWorkers(s: State, w: WorkerId, a: Addr)
    requires MapsOk(s) && WorkersOk(s) && Enabled(s, Pick(w, a))
    ensures WorkersOk(Next(s, Pick(w, a)))
  {
  }

  lemma SameFoundStayOk(s: State, s': State)
    requires WorkersOk(s) && LinksLater(s, s')
    requires forall w :: w in s'.workers && s'.workers[w].Found? ==> w in s.workers && s.workers[w] == s'.workers[w]
    ensures WorkersOk(s')
  {
  }

  /** Only a look-up gives a worker a connection. */
  lemma FoundStays(s: State, st: Step)
    requires Enabled(s, st) && !st.Pick?
    ensures forall w :: w in Next(s, st).workers && Next(s, st).workers[w].Found? ==>
              w in s.workers && s.workers[w] == Next(s, st).workers[w]
  {
    hide LinkEnabled, LinkNext, EnqueueEnabled, Enqueue;
  }

  lemma StepKeepsInv(s: State, st: Step)
    requires Inv(s) && Enabled(s, st)
    ensures Inv(Next(s, st))
  {
    hide Next, Enabled, LinksOk, MutexOk, MapsOk, WorkersOk;
    StepKeepsLinks(s, st);
    StepKeepsMutex(s, st);
    StepKeepsMaps(s, st);
    StepKeepsWorkers(s, st);
  }

  lemma {:induction false} RunKeepsInv(s: State, steps: seq<Step>)
    requires Init(s) && IsRun(s, steps)
    ensures Inv(After(s, steps))
  {
    hide Next, Enabled;
    if steps != [] {
      hide Inv;
      var shorter := steps[..|steps| - 1];
      RunKeepsInv(s, shorter);
      StepKeepsInv(After(s, shorter), steps[|steps| - 1]);
    }
  }

  /** Every reachable state satisfies the invariants. */
  lemma ReachableInv(t: State)
    requires Reachable(t)
    ensures Inv(t)
  {
    hide Next, Enabled, IsRun, After, Inv;
    var s, steps :| Init(s) && IsRun(s, steps) && After(s, steps) == t;
    RunKeepsInv(s, steps);
  }

  lemma MapChangeSparesOthers(s: State, st: Step, a: Addr)
    requires s.maps.Coherent() && Streamless(s) == {} && Enabled(s, st) && ChangesMaps(st)
    requires a in s.maps.conns && a in Next(s, st).maps.conns
    ensures Next(s, st).maps.conns[a] == s.maps.conns[a]
  {
    hide LinkEnabled, LinkNext;
    if st.PingEnd? {
      OperationsSpareOthers(s.maps, s.links[st.conn].reader.addr, a, st.conn);
    }
  }

  /** An address that stays registered stays with its connection: another needs an eviction or a cleanup first. */
  lemma RegistrationStable(s: State, st: Step, a: Addr)
    requires Inv(s) && Enabled(s, st) && a in s.maps.conns && a in Next(s, st).maps.conns
    ensures Next(s, st).maps.conns[a] == s.maps.conns[a]
  {
    NoStreamless(s);
    InvGivesMaps(s);
    hide Next, Enabled, Inv;
    if ChangesMaps(st) {
      MapChangeSparesOthers(s, st, a);
    } else {
      OtherStepsLeaveMaps(s, st);
    }
  }

  lemma LinksLaterTrans(s: State, t: State, u: State)
    requires LinksLater(s, t) && LinksLater(t, u)
    ensures LinksLater(s, u)
  {
    forall c | c in s.links ensures c in u.links && Later(s.links[c], u.links[c]) {
      assert Later(s.links[c], t.links[c]) && Later(t.links[c], u.links[c]);
    }
  }

  /** Along a run, connections only move forward. */
  lemma {:induction false} RunIsLater(s: State, steps: seq<Step>, i: nat)
    requires IsRun(s, steps) && i <= |steps|
    ensures IsRun(s, steps[..i]) && LinksLater(After(s, steps[..i]), After(s, steps))
  {
    hide Next, Enabled;
    PrefixIsRun(s, steps, i);
    if i == |steps| {
      assert steps[..i] == steps;
    } else {
      hide LinksLater;
      var shorter := steps[..|steps| - 1];
      RunIsLater(s, shorter, i);
      assert shorter[..i] == steps[..i];
      StepIsLater(After(s, shorter), steps[|steps| - 1]);
      LinksLaterTrans(After(s, steps[..i]), After(s, shorter), After(s, steps));
    }
  }

  /** In every reachable state the registry is coherent and every connection has its stream. */
  lemma RegistryCoherent(t: State)
    requires Reachable(t)
    ensures t.maps.Coherent()
    ensures forall c, d ::
              c in t.maps.reverse && d in t.maps.reverse && t.maps.reverse[c] == t.maps.reverse[d] ==> c == d
    ensures forall c :: c in t.links ==> t.links[c].hasStream
  {
    hide Reachable;
    ReachableInv(t);
    forall c | c in t.links ensures t.links[c].hasStream {
      assert LinkOk(t.secret, t.links[c]);
    }
    forall c, d | c in t.maps.reverse && d in t.maps.reverse && t.maps.reverse[c] == t.maps.reverse[d] ensures c == d {
      CoherentIsInjective(t.maps, c, d);
    }
  }

  /**
   * Once a connection's cleanup has run it stays cleaned up and out of the reverse map, its closed flag stays set
   * when it was, and over the whole run `Stop` is called on it at most once.
   */
  lemma NoResurrection(s: State, steps: seq<Step>, i: nat, c: ConnId)
    requires Init(s) && IsRun(s, steps) && i <= |steps| && IsRun(s, steps[..i])
    requires c in After(s, steps[..i]).links
    ensures var before, t := After(s, steps[..i]), After(s, steps);
            && c in t.links && t.links[c].stops <= 1
            && (before.links[c].isClosed ==> t.links[c].isClosed)
            && (CleanedUp(before.links[c]) ==> CleanedUp(t.links[c]) && c !in t.maps.reverse)
  {
    RunIsLater(s, steps, i);
    RunKeepsInv(s, steps);
    hide Next, Enabled, IsRun, After;
    assert LinkOk(After(s, steps).secret, After(s, steps).links[c]);
  }

  lemma StepAddsNoCleaned(s: State, st: Step, c: ConnId, b: Addr)
    requires Inv(s) && Enabled(s, st) && c in s.links && CleanedUp(s.links[c])
    requires b in Next(s, st).maps.conns && Next(s, st).maps.conns[b] == c
    ensures b in s.maps.conns && s.maps.conns[b] == c
  {
    NoStreamless(s);
    if ChangesMaps(st) {
      MapChangeAddsNoCleaned(s, st, c, b);
    } else {
      OtherStepsLeaveMaps(s, st);
    }
    hide *;
  }

  lemma MapChangeAddsNoCleaned(s: State, st: Step, c: ConnId, b: Addr)
    requires Streamless(s) == {} && Enabled(s, st) && ChangesMaps(st) && c in s.links && CleanedUp(s.links[c])
    requires b in Next(s, st).maps.conns && Next(s, st).maps.conns[b] == c
    ensures b in s.maps.conns && s.maps.conns[b] == c
  {
    hide LinkEnabled, LinkNext, EnqueueEnabled, Enqueue;
  }

  /** Nor does a cleaned-up connection ever gain an entry in the forward map. */
  lemma {:induction false} CleanedUpGainsNothing(s: State, steps: seq<Step>, i: nat, c: ConnId, b: Addr)
    requires Init(s) && IsRun(s, steps) && i <= |steps| && IsRun(s, steps[..i])
    requires c in After(s, steps[..i]).links && CleanedUp(After(s, steps[..i]).links[c])
    requires b in After(s, steps).maps.conns && After(s, steps).maps.conns[b] == c
    ensures b in After(s, steps[..i]).maps.conns && After(s, steps[..i]).maps.conns[b] == c
  {
    hide Next, Enabled, Inv, CleanedUp;
    if i == |steps| {
      assert steps[..i] == steps;
    } else {
      var shorter := steps[..|steps| - 1];
      LastStep(s, steps);
      assert shorter[..i] == steps[..i];
      NoResurrection(s, shorter, i, c);
      RunKeepsInv(s, shorter);
      StepAddsNoCleaned(After(s, shorter), steps[|steps| - 1], c, b);
      CleanedUpGainsNothing(s, shorter, i, c, b);
    }
  }

  /** Between a ping's two updates no worker copies or changes the routes and no other ping begins; it can finish. */
  lemma PingExcludesWorkers(t: State, c: ConnId, w: WorkerId, d: ConnId, ip: Vip, a: Addr)
    requires Reachable(t) && c in t.links && t.links[c].reader.Pinging?
    ensures !Enabled(t, Snapshot(w)) && !Enabled(t, Unroute(w)) && !Enabled(t, PingBegin(d, ip, a))
    ensures Enabled(t, PingEnd(c))
  {
    ReachableInv(t);
    hide Reachable, LinksOk, MapsOk, WorkersOk;
  }

  /** A server without a key always reaches the read loop of a connection. */
  lemma KeylessStarts(t: State, c: ConnId)
    requires Reachable(t) && t.secret.None? && c in t.links && !t.links[c].reader.Starting?
    ensures t.links[c].cryptoDone
  {
    ReachableInv(t);
    hide Reachable, LinksOk;
    LinkOfState(t, c);
  }

  /** With a key, `crypto()` can fail; such a connection leaves without ever having been ready, and accepts nothing. */
  lemma FailedCryptoLeaves(t: State, c: ConnId)
    requires Reachable(t) && c in t.links
    ensures t.links[c].reader.Starting? && t.secret.Some? ==>
              Enabled(t, OnLink(c, CryptoFail)) && Next(t, OnLink(c, CryptoFail)).links[c].reader.Leaving?
    ensures !t.links[c].cryptoDone ==>
              && t.links[c].accepted == [] && (forall a :: a in t.maps.conns ==> t.maps.conns[a] != c)
              && (forall w :: w in t.workers && t.workers[w].Found? ==> t.workers[w].conn != c)
  {
    ReachableInv(t);
    hide Reachable, LinksOk;
    LinkOfState(t, c);
  }

  /** If a streamless entry existed, registering over it would stop its connection and drop the entry. */
  lemma StreamlessStopped(s: State, c: ConnId, d: ConnId)
    requires Enabled(s, PingEnd(c)) && d in s.links && !s.links[d].hasStream
    requires s.links[c].reader.addr in s.maps.conns && s.maps.conns[s.links[c].reader.addr] == d && c != d
    ensures var t := Next(s, PingEnd(c));
            && !t.links[d].queueOpen && t.links[d].signals == s.links[d].signals + 1
            && t.links[d].stops == s.links[d].stops + 1
            && t.maps.conns == s.maps.conns - {s.links[c].reader.addr} && t.maps.reverse == s.maps.reverse
  {
    assert d in Streamless(s);
  }

  /**
   * Whenever a worker can queue a packet, that connection's `crypto()` has finished, so a server with a key has
   * its cipher in place, although the connection's writer was started before `crypto()`.
   */
  lemma QueuedOnlyWhenReady(t: State, w: WorkerId)
    requires Reachable(t) && Enabled(t, Send(w))
    ensures var l := t.links[t.workers[w].conn];
            l.cryptoDone && CurrentCipher(t.secret, l) == t.secret
  {
    ReachableInv(t);
    hide Reachable, LinksOk;
    LinkOfState(t, t.workers[w].conn);
  }

  lemma LinkOfState(t: State, c: ConnId)
    requires LinksOk(t) && c in t.links
    ensures LinkOk(t.secret, t.links[c])
  {
  }

  /** In every reachable state, a writer that waits while its reader has raised the close signal can take the signal. */
  lemma SignalReachesWriter(t: State, c: ConnId)
    requires Reachable(t) && c in t.links && t.links[c].writer.Waiting?
    requires t.links[c].reader.Signalled? || t.links[c].reader.Stopped?
    ensures Enabled(t, OnLink(c, WriterStop))
  {
    ReachableInv(t);
    hide Reachable, LinksOk;
    LinkOfState(t, c);
    SignalWaitsForWriter(t.secret, t.links[c]);
    hide LinkOk;
  }

  /**
   * In every reachable state, every connection has kept every accepted message in order, and its wire is made of
   * frames under the server's own key: any received beginning of it reads as a prefix of the accepted messages.
   */
  lemma DeliversAcceptedPrefix(t: State, c: ConnId, k: nat)
    requires Reachable(t) && c in t.links && k <= |t.links[c].wire|
    requires forall i :: 0 <= i < |t.links[c].accepted| ==> Fits(t.secret, t.links[c].accepted[i])
    ensures Conserved(t.links[c]) && WireOk(t.secret, t.links[c])
    ensures var (got, end) := DecodeAll(t.secret, t.links[c].wire[..k]);
            got <= t.links[c].accepted && end.Short?
  {
    hide Reachable, DecodeAll, Fits;
    ReachableInv(t);
    LinkOfState(t, c);
    ClientReadsAcceptedPrefix(t.secret, t.links[c], k);
  }
}
