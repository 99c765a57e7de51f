/** When the registry's two maps are exact inverses: as long as no connection registers a second address. */
module ExactInverse {
  import opened Registry
  import opened Link
  import opened ServerSystem
  import opened RegistrySafety

  /** Every ping on connection `c` carries the address `addrOf(c)`. */
  ghost predicate OneAddress(steps: seq<Step>, addrOf: ConnId -> Addr) {
    forall i :: 0 <= i < |steps| && steps[i].PingBegin? ==> steps[i].addr == addrOf(steps[i].conn)
  }

  ghost predicate MapsByAddress(maps: Registry<ConnId>, addrOf: ConnId -> Addr) {
    maps.ExactInverse() && forall a :: a in maps.conns ==> addrOf(maps.conns[a]) == a
  }

  ghost predicate PingsByAddress(s: State, addrOf: ConnId -> Addr) {
    forall c :: c in s.links && s.links[c].reader.Pinging? ==> s.links[c].reader.addr == addrOf(c)
  }

  lemma OperationsKeepMapsByAddress(maps: Registry<ConnId>, addrOf: ConnId -> Addr, a: Addr, c: ConnId)
    requires MapsByAddress(maps, addrOf)
    ensures MapsByAddress(maps.DeleteDeadConn(a), addrOf)
    ensures MapsByAddress(maps.RemoveConnByConnPointer(c), addrOf)
    ensures a == addrOf(c) ==> MapsByAddress(maps.SetConns(a, c, {}), addrOf)
  {
  }

  lemma StepKeepsPingsByAddress(s: State, st: Step, addrOf: ConnId -> Addr)
    requires PingsByAddress(s, addrOf) && Streamless(s) == {} && Enabled(s, st)
    requires st.PingBegin? ==> st.addr == addrOf(st.conn)
    ensures PingsByAddress(Next(s, st), addrOf)
  {
    hide LinkEnabled, LinkNext, EnqueueEnabled;
    if st.OnLink? && LinkNext(s.secret, s.links[st.conn], st.step).reader.Pinging? {
      LinkStepKeepsPing(s.secret, s.links[st.conn], st.step);
    }
  }

  lemma StepKeepsMapsByAddress(s: State, st: Step, addrOf: ConnId -> Addr)
    requires MapsByAddress(s.maps, addrOf) && PingsByAddress(s, addrOf) && Streamless(s) == {} && Enabled(s, st)
    ensures MapsByAddress(Next(s, st).maps, addrOf)
  {
    hide MapsByAddress, LinkEnabled, LinkNext, EnqueueEnabled, Enqueue;
    if st.PingEnd? {
      OperationsKeepMapsByAddress(s.maps, addrOf, s.links[st.conn].reader.addr, st.conn);
    } else if st.Cleanup? {
      OperationsKeepMapsByAddress(s.maps, addrOf, [], st.conn);
    } else if st.Evict? {
      OperationsKeepMapsByAddress(s.maps, addrOf, s.workers[st.worker].addr, 0);
    } else if st.SweepEvict? {
      OperationsKeepMapsByAddress(s.maps, addrOf, s.sweep.addr, 0);
    }
  }

  /** On every run with one address per connection, `Conns[a] == c` exactly when `ConnsReverse[c] == a`. */
  lemma {:induction false} RunKeepsExactInverse(s: State, steps: seq<Step>, addrOf: ConnId -> Addr)
    requires Init(s) && IsRun(s, steps) && OneAddress(steps, addrOf)
    ensures var t := After(s, steps);
            && PingsByAddress(t, addrOf) && MapsByAddress(t.maps, addrOf)
            && forall a, c ::
                 (a in t.maps.conns && t.maps.conns[a] == c) <==> (c in t.maps.reverse && t.maps.reverse[c] == a)
  {
    hide Next, Enabled;
    if steps != [] {
      var shorter, last := steps[..|steps| - 1], steps[|steps| - 1];
      LastStep(s, steps);
      RunKeepsExactInverse(s, shorter, addrOf);
      RunKeepsInv(s, shorter);
      var t := After(s, shorter);
      NoStreamless(t) by { hide MutexOk, MapsOk, WorkersOk; }
      StepKeepsPingsByAddress(t, last, addrOf);
      StepKeepsMapsByAddress(t, last, addrOf);
    }
  }

  /** A finishing ping finds its address taken, or its connection not yet registered under another one. */
  predicate RegisterSafe(s: State, st: Step)
    requires Enabled(s, st)
  {
    st.PingEnd? ==> s.links[st.conn].reader.addr in s.maps.conns || st.conn !in s.maps.reverse
  }

  lemma OperationsAndInverse(maps: Registry<ConnId>, a: Addr, c: ConnId)
    requires maps.ExactInverse()
    ensures maps.DeleteDeadConn(a).ExactInverse()
    ensures maps.RemoveConnByConnPointer(c).ExactInverse()
    ensures maps.SetConns(a, c, {}).ExactInverse() <==> a in maps.conns || c !in maps.reverse
  {
    var r := maps.SetConns(a, c, {});
    if a !in maps.conns && c in maps.reverse {
      assert maps.reverse[c] in r.conns && r.conns[maps.reverse[c]] == c && r.reverse[c] == a;
    }
  }

  /** Exactly one kind of step can make the maps disagree, and exactly when its guard says so. */
  lemma StepAndInverse(s: State, st: Step)
    requires s.maps.ExactInverse() && Streamless(s) == {} && Enabled(s, st)
    ensures Next(s, st).maps.ExactInverse() <==> RegisterSafe(s, st)
  {
    hide LinkEnabled, LinkNext, EnqueueEnabled, Enqueue;
    if st.PingEnd? {
      OperationsAndInverse(s.maps, s.links[st.conn].reader.addr, st.conn);
    } else if st.Cleanup? {
      OperationsAndInverse(s.maps, [], st.conn);
    } else if st.Evict? {
      OperationsAndInverse(s.maps, s.workers[st.worker].addr, 0);
    } else if st.SweepEvict? {
      OperationsAndInverse(s.maps, s.sweep.addr, 0);
    }
  }

  ghost predicate RunRegisterSafe(s: State, steps: seq<Step>)
    requires IsRun(s, steps)
    decreases |steps|
  {
    steps != [] ==>
      var shorter := steps[..|steps| - 1];
      RunRegisterSafe(s, shorter) && RegisterSafe(After(s, shorter), steps[|steps| - 1])
  }

  ghost predicate AlwaysInverse(s: State, steps: seq<Step>)
    requires IsRun(s, steps)
    decreases |steps|
  {
    After(s, steps).maps.ExactInverse() && (steps != [] ==> AlwaysInverse(s, steps[..|steps| - 1]))
  }

  /** On any run of the code as it is, the maps stay inverses if and only if every finishing ping met its guard. */
  lemma {:induction false} AlwaysInverseExactly(s: State, steps: seq<Step>)
    requires Init(s) && IsRun(s, steps)
    ensures AlwaysInverse(s, steps) <==> RunRegisterSafe(s, steps)
  {
    hide Next, Enabled, RegisterSafe;
    if steps != [] {
      hide Init;
      var shorter := steps[..|steps| - 1];
      AlwaysInverseExactly(s, shorter);
      LastStep(s, steps);
      RunKeepsInv(s, shorter);
      NoStreamless(After(s, shorter)) by { hide MutexOk, MapsOk, WorkersOk; }
      if AlwaysInverse(s, shorter) {
        StepAndInverse(After(s, shorter), steps[|steps| - 1]);
      }
    }
  }

  /** A ping that registers a new address, and the next one on the same connection. */
  lemma PingRegisters(t: State, ip: Vip, a: Addr, b: Addr)
    requires t.links.Keys == {0} && t.links[0].reader == Pinging(ip, a) && t.links[0].hasStream && a !in t.maps.conns
    ensures Enabled(t, PingEnd(0))
    ensures var t1 := Next(t, PingEnd(0));
            && t1.maps == Registry(t.maps.conns[a := 0], t.maps.reverse[0 := a])
            && t1.links.Keys == {0} && t1.links[0].reader.Reading?
            && Enabled(t1, PingBegin(0, ip, b))
            && var t2 := Next(t1, PingBegin(0, ip, b));
               && t2.maps == t1.maps
               && t2.links.Keys == {0} && t2.links[0].reader == Pinging(ip, b) && t2.links[0].hasStream
  {
    assert Streamless(t) == {};
  }

  /** Two pings with different addresses on one connection. */
  lemma TwoAddresses(s: State, ip: Vip, a: Addr, b: Addr)
    requires Init(s) && a != b
    ensures var steps := [Accept(0), OnLink(0, CryptoOk), PingBegin(0, ip, a)]
                         + [PingEnd(0)] + [PingBegin(0, ip, b)] + [PingEnd(0)];
            && IsRun(s, steps)
            && var t := After(s, steps);
               && t.links.Keys == {0} && t.links[0].reader.Reading?
               && a in t.maps.conns && t.maps.conns[a] == 0 && 0 in t.maps.reverse && t.maps.reverse[0] == b
  {
    FirstPingUnderWay(s, ip, a);
    var p3 := [Accept(0), OnLink(0, CryptoOk), PingBegin(0, ip, a)];
    var t := After(s, p3);
    PingRegisters(t, ip, a, b);
    var t2 := Next(Next(t, PingEnd(0)), PingBegin(0, ip, b));
    PingRegisters(t2, ip, b, b);
    hide IsRun, After, Enabled, Next;
    ExtendRun(s, p3, PingEnd(0));
    ExtendRun(s, p3 + [PingEnd(0)], PingBegin(0, ip, b));
    ExtendRun(s, p3 + [PingEnd(0)] + [PingBegin(0, ip, b)], PingEnd(0));
  }

  /** The second address takes over the connection's reverse entry, and the maps are no longer inverses. */
  lemma SecondAddressBreaksInverse(s: State, ip: Vip, a: Addr, b: Addr)
    requires Init(s) && a != b
    ensures var steps := [Accept(0), OnLink(0, CryptoOk), PingBegin(0, ip, a)]
                         + [PingEnd(0)] + [PingBegin(0, ip, b)] + [PingEnd(0)];
            IsRun(s, steps) && !After(s, steps).maps.ExactInverse()
  {
    hide IsRun, After;
    TwoAddresses(s, ip, a, b);
  }

  /** A cleanup leaves exactly those entries of its connection that the connection's reverse entry does not name. */
  lemma CleanupLeaves(s: State, c: ConnId, b: Addr)
    requires Enabled(s, Cleanup(c)) && b in s.maps.conns && s.maps.conns[b] == c
    ensures var t := Next(s, Cleanup(c));
            CleanedUp(t.links[c])
            && (b in t.maps.conns && t.maps.conns[b] == c <==> !(c in s.maps.reverse && s.maps.reverse[c] == b))
  {
  }

  /** While the maps are inverses, no cleaned-up connection is registered. */
  lemma InverseForgetsCleaned(t: State, c: ConnId, b: Addr)
    requires Reachable(t) && t.maps.ExactInverse() && b in t.maps.conns && t.maps.conns[b] == c
    ensures c in t.links && !CleanedUp(t.links[c])
  {
    ReachableInv(t);
    hide Reachable, LinksOk, WorkersOk;
  }

  lemma ReaderExits(t: State)
    requires t.links.Keys == {0} && t.links[0].reader.Reading?
    ensures Enabled(t, OnLink(0, ReadFail)) && Enabled(Next(t, OnLink(0, ReadFail)), Cleanup(0))
    ensures var u := Next(t, OnLink(0, ReadFail));
            u.maps == t.maps && CleanedUp(Next(u, Cleanup(0)).links[0])
  {
    hide WriterNext;
  }

  /** So when such a connection with two addresses goes away, its first address stays registered with it. */
  lemma StaleEntrySurvives(s: State, ip: Vip, a: Addr, b: Addr)
    requires Init(s) && a != b
    ensures var steps := [Accept(0), OnLink(0, CryptoOk), PingBegin(0, ip, a)]
                         + [PingEnd(0)] + [PingBegin(0, ip, b)] + [PingEnd(0)]
                         + [OnLink(0, ReadFail)] + [Cleanup(0)];
            IsRun(s, steps) && var t := After(s, steps);
            0 in t.links && CleanedUp(t.links[0]) && a in t.maps.conns && t.maps.conns[a] == 0
  {
    var p6 := [Accept(0), OnLink(0, CryptoOk), PingBegin(0, ip, a)]
              + [PingEnd(0)] + [PingBegin(0, ip, b)] + [PingEnd(0)];
    TwoAddresses(s, ip, a, b);
    var t := After(s, p6);
    ReaderExits(t);
    hide IsRun, After, Enabled, Next, CleanedUp;
    ExtendRun(s, p6, OnLink(0, ReadFail));
    ExtendRun(s, p6 + [OnLink(0, ReadFail)], Cleanup(0));
    CleanupLeaves(Next(t, OnLink(0, ReadFail)), 0, a);
  }
}
