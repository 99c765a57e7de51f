/**
 * Registered addresses and routes: when every registration is reachable through a route or is about to be
 * evicted. The sweep, which deletes routes without `App.mutex`, can break this; with the lock nothing can.
 */
module NoStranding {
  import opened Registry
  import opened Link
  import opened ServerSystem
  import opened RegistrySafety

  /** An eviction of `a` has deleted its route and has not yet called `DeleteDeadConn`. */
  predicate Pending(s: State, a: Addr) {
    || (exists w :: w in s.workers && s.workers[w].Evicting? && s.workers[w].addr == a)
    || (s.sweep.SweepEvicting? && s.sweep.addr == a)
  }

  predicate Anchored(s: State, a: Addr) {
    Routed(s.routes, a) || Pending(s, a)
  }

  ghost predicate NoStranded(s: State) {
    forall a :: a in s.maps.conns ==> Anchored(s, a)
  }

  /** The address a finishing ping registers is taken already, or still routed, or being evicted. */
  predicate PingEndSafe(s: State, c: ConnId)
    requires c in s.links && s.links[c].reader.Pinging?
  {
    s.links[c].reader.addr in s.maps.conns || Anchored(s, s.links[c].reader.addr)
  }

  predicate StepSafe(s: State, st: Step)
    requires Enabled(s, st)
  {
    st.PingEnd? ==> PingEndSafe(s, st.conn)
  }

  lemma PingEndAndStranding(s: State, c: ConnId)
    requires NoStranded(s) && Streamless(s) == {}
    requires c in s.links && s.links[c].reader.Pinging?
    ensures NoStranded(PingEndState(s, c)) <==> PingEndSafe(s, c)
  {
    var a, t := s.links[c].reader.addr, PingEndState(s, c);
    assert t.routes == s.routes && t.workers == s.workers && t.sweep == s.sweep;
    forall b ensures Anchored(t, b) <==> Anchored(s, b) {
    }
    assert a in t.maps.conns;
  }

  lemma RouteAddedAnchors(s: State, s': State, ip: Vip, a: Addr)
    requires NoStranded(s) && s'.routes == AddRoute(s.routes, ip, a)
    requires s'.maps == s.maps && s'.workers == s.workers && s'.sweep == s.sweep
    ensures NoStranded(s')
  {
    forall b | b in s.maps.conns ensures Anchored(s', b) {
      assert Anchored(s, b);
      if Routed(s.routes, b) {
        var d :| d in s.routes && b in s.routes[d];
        assert d in s'.routes && b in s'.routes[d];
      }
    }
  }

  lemma RouteStillAnchors(routes: Routes, dst: Vip, a: Addr, b: Addr)
    requires Routed(routes, b) && b != a
    ensures Routed(DeleteRoute(routes, dst, a), b)
  {
    var d :| d in routes && b in routes[d];
    assert d in DeleteRoute(routes, dst, a) && b in DeleteRoute(routes, dst, a)[d];
  }

  lemma UnroutePends(s: State, w: WorkerId)
    requires NoStranded(s) && w in s.workers && s.workers[w].Dead?
    ensures NoStranded(UnrouteState(s, w))
  {
    var a, t := s.workers[w].addr, UnrouteState(s, w);
    assert w in t.workers && t.workers[w].Evicting? && t.workers[w].addr == a;
    forall b | b in s.maps.conns ensures Anchored(t, b) {
      assert Anchored(s, b);
      if Routed(s.routes, b) && b != a {
        RouteStillAnchors(s.routes, s.workers[w].dst, a, b);
      } else if Pending(s, b) {
        WorkerMoveKeepsPending(s, w, t.workers[w], b);
        assert Pending(t, b);
      }
    }
  }

  /** A worker that was not evicting `b` can move without disturbing evictions of `b`. */
  lemma WorkerMoveKeepsPending(s: State, w: WorkerId, worker: Worker, b: Addr)
    requires Pending(s, b) && w in s.workers && !(s.workers[w].Evicting? && s.workers[w].addr == b)
    ensures Pending(SetWorker(s, w, worker), b)
  {
    if v :| v in s.workers && s.workers[v].Evicting? && s.workers[v].addr == b {
      assert v in SetWorker(s, w, worker).workers && SetWorker(s, w, worker).workers[v] == s.workers[v];
    }
  }

  lemma EvictUnregisters(s: State, w: WorkerId)
    requires NoStranded(s) && w in s.workers && s.workers[w].Evicting?
    ensures NoStranded(EvictState(s, w))
  {
    var a, t := s.workers[w].addr, EvictState(s, w);
    forall b | b in t.maps.conns ensures Anchored(t, b) {
      assert b in s.maps.conns && b != a && Anchored(s, b);
      if Pending(s, b) {
        WorkerMoveKeepsPending(s, w, t.workers[w], b);
        assert Pending(t, b);
      }
    }
  }

  lemma WorkerMoveKeepsNoStranded(s: State, w: WorkerId, worker: Worker)
    requires NoStranded(s) && w in s.workers && !s.workers[w].Evicting?
    ensures NoStranded(SetWorker(s, w, worker))
  {
    forall b | b in s.maps.conns ensures Anchored(SetWorker(s, w, worker), b) {
      assert Anchored(s, b);
      if Pending(s, b) {
        WorkerMoveKeepsPending(s, w, worker, b);
      }
    }
  }

  lemma SweepUnroutePends(s: State)
    requires NoStranded(s) && s.sweep.Condemned?
    ensures NoStranded(SweepUnrouteState(s))
  {
    var a, t := s.sweep.addr, SweepUnrouteState(s);
    forall b | b in s.maps.conns ensures Anchored(t, b) {
      assert Anchored(s, b);
      if Routed(s.routes, b) && b != a {
        RouteStillAnchors(s.routes, s.sweep.dst, a, b);
      }
    }
  }

  /** Fewer registrations, and the same routes and evictions. */
  lemma FewerConnsKeepNoStranded(s: State, s': State)
    requires NoStranded(s) && s'.maps.conns.Keys <= s.maps.conns.Keys
    requires s'.routes == s.routes && s'.workers == s.workers
    requires s'.sweep == s.sweep || (s.sweep.SweepEvicting? ==> s.sweep.addr !in s'.maps.conns)
    ensures NoStranded(s')
  {
    forall b | b in s'.maps.conns ensures Anchored(s', b) {
      assert b in s.maps.conns && Anchored(s, b);
    }
  }

  lemma WorkerStepKeepsNoStranded(s: State, st: Step)
    requires NoStranded(s) && Enabled(s, st)
    requires st.Fetch? || st.Snapshot? || st.Pick? || st.Send? || st.Unroute? || st.Evict?
    ensures NoStranded(Next(s, st))
  {
    hide NoStranded, LinkEnabled, LinkNext, EnqueueEnabled, Enqueue, SendState, UnrouteState, EvictState;
    if st.Unroute? {
      UnroutePends(s, st.worker);
    } else if st.Evict? {
      EvictUnregisters(s, st.worker);
    } else if st.Send? {
      SendKeepsNoStranded(s, st.worker);
    } else {
      WorkerMoveKeepsNoStranded(s, st.worker, Next(s, st).workers[st.worker]);
    }
  }

  lemma OtherStepKeepsNoStranded(s: State, st: Step)
    requires NoStranded(s) && Enabled(s, st)
    requires st.Accept? || st.OnLink? || st.Cleanup? || st.SweepPick? || st.SweepEvict?
    ensures NoStranded(Next(s, st))
  {
    hide NoStranded, LinkEnabled, LinkNext;
    FewerConnsKeepNoStranded(s, Next(s, st));
  }

  /** Exactly one kind of step can strand a registration, and exactly when its guard says so. */
  lemma StepAndStranding(s: State, st: Step)
    requires Inv(s) && NoStranded(s) && Enabled(s, st)
    ensures NoStranded(Next(s, st)) <==> StepSafe(s, st)
  {
    if st.PingEnd? {
      NoStreamless(s);
      hide Inv, NoStranded, PingEndSafe, PingEndState;
      PingEndAndStranding(s, st.conn);
    } else if st.PingBegin? {
      hide Inv, NoStranded, PingBeginState;
      PingBeginAnchors(s, st.conn, st.ip, st.addr);
    } else if st.SweepUnroute? {
      hide Inv, NoStranded, SweepUnrouteState;
      SweepUnroutePends(s);
    } else if st.Fetch? || st.Snapshot? || st.Pick? || st.Send? || st.Unroute? || st.Evict? {
      hide Inv, NoStranded, Next, Enabled;
      WorkerStepKeepsNoStranded(s, st);
    } else {
      hide Inv, NoStranded, Next, Enabled;
      OtherStepKeepsNoStranded(s, st);
    }
  }

  lemma PingBeginAnchors(s: State, c: ConnId, ip: Vip, a: Addr)
    requires NoStranded(s) && c in s.links
    ensures NoStranded(PingBeginState(s, c, ip, a))
  {
    RouteAddedAnchors(s, PingBeginState(s, c, ip, a), ip, a);
  }

  lemma SendKeepsNoStranded(s: State, w: WorkerId)
    requires NoStranded(s) && w in s.workers && s.workers[w].Found? && s.workers[w].conn in s.links
    ensures NoStranded(SendState(s, w))
  {
    hide Enqueue;
    WorkerMoveKeepsNoStranded(s, w, Idle);
    FewerConnsKeepNoStranded(SetWorker(s, w, Idle), SendState(s, w));
  }

  /** Every PingEnd of the run met its guard, and so did every other step. */
  ghost predicate RunSafe(s: State, steps: seq<Step>)
    requires IsRun(s, steps)
    decreases |steps|
  {
    steps != [] ==>
      var shorter := steps[..|steps| - 1];
      RunSafe(s, shorter) && StepSafe(After(s, shorter), steps[|steps| - 1])
  }

  /** No state along the run has a stranded registration. */
  ghost predicate NeverStranded(s: State, steps: seq<Step>)
    requires IsRun(s, steps)
    decreases |steps|
  {
    NoStranded(After(s, steps)) && (steps != [] ==> NeverStranded(s, steps[..|steps| - 1]))
  }

  /** On any run of the code as it is, no registration is ever stranded if and only if every PingEnd met its guard. */
  lemma {:induction false} NeverStrandedExactly(s: State, steps: seq<Step>)
    requires Init(s) && IsRun(s, steps)
    ensures NeverStranded(s, steps) <==> RunSafe(s, steps)
  {
    hide Next, Enabled, StepSafe;
    if steps != [] {
      var shorter := steps[..|steps| - 1];
      NeverStrandedExactly(s, shorter);
      LastStep(s, steps);
      RunKeepsInv(s, shorter);
      if NeverStranded(s, shorter) {
        StepAndStranding(After(s, shorter), steps[|steps| - 1]);
      }
    }
  }

  /** The sweep never deleted a route while a ping handler was between its two updates. */
  ghost predicate SweepOutsidePings(s: State, steps: seq<Step>)
    requires IsRun(s, steps)
    decreases |steps|
  {
    steps != [] ==>
      var shorter := steps[..|steps| - 1];
      SweepOutsidePings(s, shorter) && (steps[|steps| - 1].SweepUnroute? ==> After(s, shorter).mutex.None?)
  }

  /** A ping handler in its critical section finds its route still there. */
  ghost predicate PingedRoutesHold(s: State) {
    forall c :: c in s.links && s.links[c].reader.Pinging? ==>
      s.links[c].reader.ip in s.routes && s.links[c].reader.addr in s.routes[s.links[c].reader.ip]
  }

  lemma StepKeepsPingedRoutes(s: State, st: Step)
    requires PingedRoutesHold(s) && MutexOk(s) && Streamless(s) == {} && Enabled(s, st)
    requires st.SweepUnroute? ==> s.mutex.None?
    ensures PingedRoutesHold(Next(s, st))
  {
    hide LinkEnabled, LinkNext, EnqueueEnabled;
    if st.OnLink? && LinkNext(s.secret, s.links[st.conn], st.step).reader.Pinging? {
      LinkStepKeepsPing(s.secret, s.links[st.conn], st.step);
    }
  }

  lemma {:induction false} PingedRoutesHoldOnRun(s: State, steps: seq<Step>)
    requires Init(s) && IsRun(s, steps) && SweepOutsidePings(s, steps)
    ensures PingedRoutesHold(After(s, steps))
  {
    hide Next, Enabled;
    if steps != [] {
      var shorter, last := steps[..|steps| - 1], steps[|steps| - 1];
      LastStep(s, steps);
      RunKeepsInv(s, shorter);
      PingedRoutesHoldOnRun(s, shorter);
      hide PingedRoutesHold, MutexOk, MapsOk, LinksOk, WorkersOk;
      NoStreamless(After(s, shorter));
      StepKeepsPingedRoutes(After(s, shorter), last);
    }
  }

  /** With the sweep kept out of ping handlers, no interleaving of anything else strands a registration. */
  lemma {:induction false} NothingStrandedOutsidePings(s: State, steps: seq<Step>)
    requires Init(s) && IsRun(s, steps) && SweepOutsidePings(s, steps)
    ensures NoStranded(After(s, steps))
  {
    hide Next;
    if steps != [] {
      var shorter, last := steps[..|steps| - 1], steps[|steps| - 1];
      LastStep(s, steps);
      NothingStrandedOutsidePings(s, shorter);
      PingedRoutesHoldOnRun(s, shorter);
      RunKeepsInv(s, shorter);
      var t := After(s, shorter);
      StepAndStranding(t, last);
      hide Inv, NoStranded, LinkEnabled;
      assert last.PingEnd? ==> Routed(t.routes, t.links[last.conn].reader.addr);
    }
  }

  lemma SweepOvertakesPing(t: State, ip: Vip, a: Addr)
    requires t.routes == map[ip := {a}] && t.maps == Registry(map[], map[]) && t.sweep == Resting
    ensures Enabled(t, SweepPick(ip, a))
    ensures var t1 := Next(t, SweepPick(ip, a));
            && Enabled(t1, SweepUnroute)
            && var t2 := Next(t1, SweepUnroute);
               Enabled(t2, SweepEvict) && Next(t2, SweepEvict) == t.(routes := map[ip := {}])
  {
    assert {a} - {a} == {};
    assert DeleteRoute(t.routes, ip, a) == map[ip := {}];
  }

  lemma UnroutedPingStrands(t: State, ip: Vip, a: Addr)
    requires t.links.Keys == {0} && t.links[0].reader == Pinging(ip, a) && t.links[0].hasStream
    requires t.routes == map[ip := {}] && t.maps == Registry(map[], map[]) && t.sweep == Resting
    requires forall w :: w in t.workers ==> t.workers[w] == Idle
    ensures Enabled(t, PingEnd(0)) && !NoStranded(Next(t, PingEnd(0)))
  {
    assert Streamless(t) == {};
    PingEndAndStranding(t, 0);
    hide PingEndState, NoStranded;
    assert !Anchored(t, a);
  }

  /**
   * The code's sweep can strand the first registration of a new connection: it looks the address up after the
   * ping has added the route and before the ping registers the connection, and deletes the route in between.
   */
  lemma SweepCanStrand(s: State, ip: Vip, a: Addr)
    requires Init(s)
    ensures var steps := [Accept(0), OnLink(0, CryptoOk), PingBegin(0, ip, a)]
                         + [SweepPick(ip, a)] + [SweepUnroute] + [SweepEvict] + [PingEnd(0)];
            IsRun(s, steps) && !NoStranded(After(s, steps))
  {
    FirstPingUnderWay(s, ip, a);
    var p3 := [Accept(0), OnLink(0, CryptoOk), PingBegin(0, ip, a)];
    var t := After(s, p3);
    SweepOvertakesPing(t, ip, a);
    UnroutedPingStrands(t.(routes := map[ip := {}]), ip, a);
    hide IsRun, After, Enabled, Next, NoStranded;
    ExtendRun(s, p3, SweepPick(ip, a));
    ExtendRun(s, p3 + [SweepPick(ip, a)], SweepUnroute);
    ExtendRun(s, p3 + [SweepPick(ip, a)] + [SweepUnroute], SweepEvict);
    ExtendRun(s, p3 + [SweepPick(ip, a)] + [SweepUnroute] + [SweepEvict], PingEnd(0));
  }
}
