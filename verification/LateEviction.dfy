/** What an eviction can remove: an open connection only if its address was registered after it was found dead. */
module LateEviction {
  import opened Prelude
  import opened Registry
  import opened Link
  import opened ServerSystem
  import opened RegistrySafety
  import opened Forwarding

  /** The step is a finishing ping that registers `a`, which was free. */
  predicate Registers(s: State, st: Step, a: Addr)
    requires Enabled(s, st)
  {
    st.PingEnd? && s.links[st.conn].reader.addr == a && a !in s.maps.conns
  }

  lemma MapChangeOpens(s: State, st: Step, a: Addr)
    requires Streamless(s) == {} && Enabled(s, st) && ChangesMaps(st) && a in Next(s, st).maps.conns
    ensures Registers(s, st, a) || (a in s.maps.conns && Next(s, st).maps.conns[a] == s.maps.conns[a])
  {
    hide LinkEnabled, LinkNext;
  }

  /** Only such a step makes the look-up of `a` find an open connection. */
  lemma OpensByRegistering(s: State, st: Step, a: Addr)
    requires Inv(s) && Enabled(s, st) && !FoundOpen(s, a) && FoundOpen(Next(s, st), a)
    ensures Registers(s, st, a)
  {
    NoStreamless(s);
    InvGivesMaps(s);
    StepIsLater(s, st);
    if ChangesMaps(st) {
      MapChangeOpens(s, st, a);
    } else {
      OtherStepsLeaveMaps(s, st);
    }
    hide Next, Enabled, Inv;
  }

  /** Since step `j` of the run, some step has registered `a`. */
  ghost predicate Reregistered(s: State, run: seq<Step>, j: nat, a: Addr) {
    exists k: nat ::
      && j <= k < |run| && IsRun(s, run[..k]) && Enabled(After(s, run[..k]), run[k])
      && Registers(After(s, run[..k]), run[k], a)
  }

  lemma ReregisteredExtends(s: State, run: seq<Step>, j: nat, a: Addr)
    requires run != [] && Reregistered(s, run[..|run| - 1], j, a)
    ensures Reregistered(s, run, j, a)
  {
    hide IsRun, After, Enabled, Registers;
    var shorter := run[..|run| - 1];
    var k: nat :| j <= k < |shorter| && IsRun(s, shorter[..k]) && Enabled(After(s, shorter[..k]), shorter[k])
                  && Registers(After(s, shorter[..k]), shorter[k], a);
    assert shorter[..k] == run[..k] && shorter[k] == run[k];
  }

  lemma {:induction false} OpenSince(s: State, run: seq<Step>, j: nat, a: Addr)
    requires Init(s) && IsRun(s, run) && j <= |run| && IsRun(s, run[..j])
    requires !FoundOpen(After(s, run[..j]), a) && FoundOpen(After(s, run), a)
    ensures Reregistered(s, run, j, a)
  {
    hide Next, Enabled, FoundOpen, Registers;
    assert j < |run| by { assert run[..|run|] == run; }
    var shorter, st := run[..|run| - 1], run[|run| - 1];
    LastStep(s, run);
    assert shorter[..j] == run[..j];
    if FoundOpen(After(s, shorter), a) {
      OpenSince(s, shorter, j, a);
      ReregisteredExtends(s, run, j, a);
    } else {
      RunKeepsInv(s, shorter);
      OpensByRegistering(After(s, shorter), st, a);
    }
  }

  /** At step `j` worker `w` found `a` dead, and since then it has at most deleted the route. */
  ghost predicate LookedUpDead(s: State, run: seq<Step>, j: nat, w: WorkerId, a: Addr) {
    && j < |run| && run[j] == Pick(w, a) && IsRun(s, run[..j]) && !FoundOpen(After(s, run[..j]), a)
    && forall k :: j < k < |run| && StepOf(run[k], w) ==> run[k] == Unroute(w)
  }

  lemma UnroutedLookedUp(s: State, run: seq<Step>, w: WorkerId, dst: Vip, data: Bytes, a: Addr) returns (j: nat)
    requires Unrouted(s, run, w, dst, data, a)
    ensures LookedUpDead(s, run, j, w, a)
  {
    hide IsRun, After, FoundOpen, Latest, Snapped;
    var picked :| Latest(run, w, Unroute(w), picked) && FoundDead(s, picked, w, dst, data, a);
    var looked :| Picked(s, picked, w, dst, data, a, looked) && !FoundOpen(After(s, looked), a);
    LatestAt(run, w, Unroute(w), picked);
    LatestAt(picked, w, Pick(w, a), looked);
    j := |looked|;
    assert run[..j] == looked;
    assert forall k :: j < k < |picked| ==> picked[k] == run[k];
  }

  /** If a worker's eviction meets an open connection, that was registered after the worker found the address dead. */
  lemma EvictionTooLate(s: State, run: seq<Step>, w: WorkerId)
    requires Init(s) && IsRun(s, run) && Enabled(After(s, run), Evict(w))
    ensures var a := After(s, run).workers[w].addr;
            exists j :: LookedUpDead(s, run, j, w, a) && (FoundOpen(After(s, run), a) ==> Reregistered(s, run, j, a))
  {
    EvictsOnlyFoundDead(s, run, w);
    var Evicting(dst, data, a) := After(s, run).workers[w];
    hide IsRun, After, Enabled, Unrouted, FoundOpen;
    var j := UnroutedLookedUp(s, run, w, dst, data, a);
    if FoundOpen(After(s, run), a) {
      OpenSince(s, run, j, a);
    }
  }

  /** At step `j` the sweep found `a` dead, and it has looked nothing up since. */
  ghost predicate SweptDead(s: State, run: seq<Step>, j: nat, a: Addr) {
    && j < |run| && run[j].SweepPick? && run[j].addr == a && IsRun(s, run[..j]) && !FoundOpen(After(s, run[..j]), a)
    && forall k :: j < k < |run| ==> !run[k].SweepPick?
  }

  lemma SweepKeepsAddress(s: State, st: Step)
    requires Enabled(s, st) && !st.SweepPick? && !Next(s, st).sweep.Resting?
    ensures !s.sweep.Resting? && Next(s, st).sweep.addr == s.sweep.addr
  {
    hide LinkEnabled, LinkNext, EnqueueEnabled, Enqueue;
  }

  lemma {:induction false} SweepLookedUp(s: State, run: seq<Step>)
    requires Init(s) && IsRun(s, run) && !After(s, run).sweep.Resting?
    ensures exists j :: SweptDead(s, run, j, After(s, run).sweep.addr)
  {
    hide Next, Enabled, FoundOpen;
    assert run != [];
    var shorter, st := run[..|run| - 1], run[|run| - 1];
    LastStep(s, run);
    if st.SweepPick? {
      SweepTakes(After(s, shorter), st.dst, st.addr);
      assert SweptDead(s, run, |shorter|, st.addr);
    } else {
      SweepKeepsAddress(After(s, shorter), st);
      SweepLookedUp(s, shorter);
      var j: nat :| SweptDead(s, shorter, j, After(s, run).sweep.addr);
      assert shorter[..j] == run[..j];
      assert SweptDead(s, run, j, After(s, run).sweep.addr);
    }
  }

  lemma SweepTakes(s: State, dst: Vip, a: Addr)
    requires Enabled(s, SweepPick(dst, a))
    ensures !FoundOpen(s, a) && Next(s, SweepPick(dst, a)).sweep == Condemned(dst, a)
  {
  }

  /** The same holds of the sweep's evictions. */
  lemma SweepEvictionTooLate(s: State, run: seq<Step>)
    requires Init(s) && IsRun(s, run) && Enabled(After(s, run), SweepEvict)
    ensures var a := After(s, run).sweep.addr;
            exists j :: SweptDead(s, run, j, a) && (FoundOpen(After(s, run), a) ==> Reregistered(s, run, j, a))
  {
    SweepLookedUp(s, run);
    var a := After(s, run).sweep.addr;
    hide IsRun, After, Enabled, FoundOpen;
    var j: nat :| SweptDead(s, run, j, a);
    if FoundOpen(After(s, run), a) {
      OpenSince(s, run, j, a);
    }
  }

  /** A worker or the sweep has found `a` dead and has not evicted it yet. */
  predicate InHand(s: State, a: Addr) {
    || (exists w :: w in s.workers && (s.workers[w].Dead? || s.workers[w].Evicting?) && s.workers[w].addr == a)
    || (!s.sweep.Resting? && s.sweep.addr == a)
  }

  /** No address about to be evicted has an open connection. */
  ghost predicate HandsDead(s: State) {
    forall a :: InHand(s, a) ==> !FoundOpen(s, a)
  }

  /** The step does not register an open connection under an address that is about to be evicted. */
  predicate TimelyStep(s: State, st: Step)
    requires Enabled(s, st)
  {
    st.PingEnd? ==>
      var a := s.links[st.conn].reader.addr;
      a in s.maps.conns || !InHand(s, a) || s.links[st.conn].isClosed
  }

  lemma NewInHandIsDead(s: State, st: Step, a: Addr)
    requires Enabled(s, st) && InHand(Next(s, st), a)
    ensures InHand(s, a) || !FoundOpen(s, a)
  {
    hide LinkEnabled, LinkNext, EnqueueEnabled, Enqueue;
    if w :| w in Next(s, st).workers && (Next(s, st).workers[w].Dead? || Next(s, st).workers[w].Evicting?)
            && Next(s, st).workers[w].addr == a {
      if !StepOf(st, w) {
        NoNewWorkers(s, st);
        OtherStepsLeaveWorker(s, st, w);
      }
    }
  }

  lemma PingEndOpens(s: State, c: ConnId)
    requires Streamless(s) == {} && Enabled(s, PingEnd(c)) && s.links[c].reader.addr !in s.maps.conns
    ensures var a, t := s.links[c].reader.addr, Next(s, PingEnd(c));
            && (FoundOpen(t, a) <==> !s.links[c].isClosed)
            && (forall b :: InHand(t, b) <==> InHand(s, b))
  {
  }

  /** Only a finishing ping can bring an open connection under an eviction, and it does exactly when its guard fails. */
  lemma StepAndHands(s: State, st: Step)
    requires Inv(s) && HandsDead(s) && Enabled(s, st)
    ensures HandsDead(Next(s, st)) <==> TimelyStep(s, st)
  {
    NoStreamless(s);
    hide Inv, InHand, FoundOpen, Streamless;
    if st.PingEnd? && s.links[st.conn].reader.addr !in s.maps.conns {
      PingEndOpens(s, st.conn);
    }
    hide Next, Enabled;
    forall a | InHand(Next(s, st), a) && FoundOpen(Next(s, st), a) ensures Registers(s, st, a) && InHand(s, a) {
      NewInHandIsDead(s, st, a);
      OpensByRegistering(s, st, a);
    }
  }

  ghost predicate RunTimely(s: State, run: seq<Step>)
    requires IsRun(s, run)
    decreases |run|
  {
    run != [] ==>
      var shorter := run[..|run| - 1];
      RunTimely(s, shorter) && TimelyStep(After(s, shorter), run[|run| - 1])
  }

  ghost predicate HandsAlwaysDead(s: State, run: seq<Step>)
    requires IsRun(s, run)
    decreases |run|
  {
    HandsDead(After(s, run)) && (run != [] ==> HandsAlwaysDead(s, run[..|run| - 1]))
  }

  /** On a run no eviction in flight ever meets an open connection if and only if every finishing ping was timely. */
  lemma {:induction false} HandsAlwaysDeadExactly(s: State, run: seq<Step>)
    requires Init(s) && IsRun(s, run)
    ensures HandsAlwaysDead(s, run) <==> RunTimely(s, run)
  {
    hide Next, Enabled, TimelyStep;
    if run != [] {
      hide Init, HandsDead;
      var shorter := run[..|run| - 1];
      HandsAlwaysDeadExactly(s, shorter);
      LastStep(s, run);
      RunKeepsInv(s, shorter);
      if HandsAlwaysDead(s, shorter) {
        StepAndHands(After(s, shorter), run[|run| - 1]);
      }
    }
  }

  /** Three steps in a row. */
  predicate EnabledInTurn(t: State, a: Step, b: Step, c: Step) {
    Enabled(t, a) && Enabled(Next(t, a), b) && Enabled(Next(Next(t, a), b), c)
  }

  function AfterThree(t: State, a: Step, b: Step, c: Step): State
    requires EnabledInTurn(t, a, b, c)
  {
    Next(Next(Next(t, a), b), c)
  }

  lemma ExtendByThree(s: State, run: seq<Step>, a: Step, b: Step, c: Step)
    requires IsRun(s, run) && EnabledInTurn(After(s, run), a, b, c)
    ensures IsRun(s, run + [a] + [b] + [c])
    ensures After(s, run + [a] + [b] + [c]) == AfterThree(After(s, run), a, b, c)
  {
    hide IsRun, After, Enabled, Next;
    ExtendRun(s, run, a);
    ExtendRun(s, run + [a], b);
    ExtendRun(s, run + [a] + [b], c);
  }

  /** The connection registers `a` and then goes away, leaving its route. */
  lemma ConnectionLeaves(t: State, ip: Vip, a: Addr)
    requires t.links.Keys == {0} && t.links[0].reader == Pinging(ip, a) && t.links[0].hasStream
    requires t.maps == Registry(map[], map[])
    ensures EnabledInTurn(t, PingEnd(0), OnLink(0, ReadFail), Cleanup(0))
    ensures var u := AfterThree(t, PingEnd(0), OnLink(0, ReadFail), Cleanup(0));
            && u.maps == t.maps && u.routes == t.routes && u.workers == t.workers
            && u.mutex == None && u.links.Keys == {0} && u.links[0].hasStream
  {
    FirstRegistered(t, ip, a);
    var t1 := Next(t, PingEnd(0));
    ReaderLeaves(t1, a);
    hide Enabled, Next;
  }

  lemma FirstRegistered(t: State, ip: Vip, a: Addr)
    requires t.links.Keys == {0} && t.links[0].reader == Pinging(ip, a) && t.links[0].hasStream
    requires t.maps == Registry(map[], map[])
    ensures Enabled(t, PingEnd(0))
    ensures var u := Next(t, PingEnd(0));
            && u.maps == Registry(map[a := 0], map[0 := a]) && u.routes == t.routes && u.workers == t.workers
            && u.mutex == None && u.links.Keys == {0} && u.links[0].reader == Reading && u.links[0].hasStream
  {
    assert Streamless(t) == {};
  }

  lemma ReaderLeaves(t: State, a: Addr)
    requires t.links.Keys == {0} && t.links[0].reader == Reading && t.links[0].hasStream
    requires t.maps == Registry(map[a := 0], map[0 := a])
    ensures Enabled(t, OnLink(0, ReadFail)) && Enabled(Next(t, OnLink(0, ReadFail)), Cleanup(0))
    ensures var u := Next(Next(t, OnLink(0, ReadFail)), Cleanup(0));
            && u.maps == Registry(map[], map[]) && u.routes == t.routes && u.workers == t.workers
            && u.mutex == t.mutex && u.links.Keys == {0} && u.links[0].hasStream
  {
    assert t.maps.conns - {a} == map[] && t.maps.reverse - {0} == map[];
    hide WriterNext;
  }

  /** The worker takes the address from the route and finds no connection. */
  lemma WorkerLooksUp(t: State, ip: Vip, a: Addr, data: Bytes)
    requires t.maps == Registry(map[], map[]) && t.routes == map[ip := {a}] && t.mutex == None
    requires 0 in t.workers && t.workers[0] == Idle
    ensures EnabledInTurn(t, Fetch(0, ip, data), Snapshot(0), Pick(0, a))
    ensures AfterThree(t, Fetch(0, ip, data), Snapshot(0), Pick(0, a))
            == t.(workers := t.workers[0 := Dead(ip, data, a)])
  {
  }

  /** A new connection announces the same address. */
  lemma NewConnectionPings(t: State, ip: Vip, a: Addr)
    requires t.links.Keys == {0} && t.links[0].hasStream && t.mutex == None
    ensures EnabledInTurn(t, Accept(1), OnLink(1, CryptoOk), PingBegin(1, ip, a))
    ensures var u := AfterThree(t, Accept(1), OnLink(1, CryptoOk), PingBegin(1, ip, a));
            && u.maps == t.maps && u.workers == t.workers && u.links.Keys == {0, 1}
            && u.links[0].hasStream && u.links[1].hasStream && !u.links[1].isClosed
            && u.links[1].reader == Pinging(ip, a)
  {
  }

  lemma RegisteredThenEvicted(t: State, ip: Vip, a: Addr, data: Bytes)
    requires t.links.Keys == {0, 1} && t.links[0].hasStream && t.links[1].hasStream && !t.links[1].isClosed
    requires t.links[1].reader == Pinging(ip, a) && t.maps == Registry(map[], map[])
    requires 0 in t.workers && t.workers[0] == Dead(ip, data, a)
    ensures EnabledInTurn(t, PingEnd(1), Unroute(0), Evict(0))
    ensures FoundOpen(Next(Next(t, PingEnd(1)), Unroute(0)), a)
    ensures var u := Next(Next(t, PingEnd(1)), Unroute(0));
            Enabled(u, Evict(0)) && u.workers[0].addr == a
    ensures var u := AfterThree(t, PingEnd(1), Unroute(0), Evict(0));
            a !in u.maps.conns && 1 in u.links && !u.links[1].isClosed && u.links[1].reader.Reading?
  {
    assert Streamless(t) == {};
  }

  /**
   * Such a run: the client of `a` leaves and comes back between a worker's look-up and its eviction, which then
   * removes the registration of the new, open connection.
   */
  lemma EvictionHitsOpen(s: State, ip: Vip, a: Addr, data: Bytes) returns (run: seq<Step>)
    requires Init(s) && 0 in s.workers
    ensures IsRun(s, run) && Enabled(After(s, run), Evict(0)) && FoundOpen(After(s, run), a)
    ensures !HandsDead(After(s, run))
    ensures var u := Next(After(s, run), Evict(0));
            a !in u.maps.conns && 1 in u.links && !u.links[1].isClosed && u.links[1].reader.Reading?
  {
    FirstPingUnderWay(s, ip, a);
    var r1 := [Accept(0), OnLink(0, CryptoOk), PingBegin(0, ip, a)];
    var r2 := r1 + [PingEnd(0)] + [OnLink(0, ReadFail)] + [Cleanup(0)];
    var r3 := r2 + [Fetch(0, ip, data)] + [Snapshot(0)] + [Pick(0, a)];
    var r4 := r3 + [Accept(1)] + [OnLink(1, CryptoOk)] + [PingBegin(1, ip, a)];
    run := r4 + [PingEnd(1)] + [Unroute(0)];
    hide IsRun, After, Enabled, Next, EnabledInTurn, AfterThree, FoundOpen;
    ConnectionLeaves(After(s, r1), ip, a);
    ExtendByThree(s, r1, PingEnd(0), OnLink(0, ReadFail), Cleanup(0));
    WorkerLooksUp(After(s, r2), ip, a, data);
    ExtendByThree(s, r2, Fetch(0, ip, data), Snapshot(0), Pick(0, a));
    NewConnectionPings(After(s, r3), ip, a);
    ExtendByThree(s, r3, Accept(1), OnLink(1, CryptoOk), PingBegin(1, ip, a));
    RegisteredThenEvicted(After(s, r4), ip, a, data);
    ExtendByTwo(s, r4, PingEnd(1), Unroute(0), Evict(0));
    EvictingInHand(After(s, run), a);
  }

  lemma EvictingInHand(t: State, a: Addr)
    requires Enabled(t, Evict(0)) && t.workers[0].addr == a && FoundOpen(t, a)
    ensures !HandsDead(t)
  {
    assert InHand(t, a);
  }

  lemma ExtendByTwo(s: State, run: seq<Step>, a: Step, b: Step, c: Step)
    requires IsRun(s, run) && EnabledInTurn(After(s, run), a, b, c)
    ensures Enabled(After(s, run), a) && Enabled(Next(After(s, run), a), b)
    ensures IsRun(s, run + [a] + [b]) && After(s, run + [a] + [b]) == Next(Next(After(s, run), a), b)
    ensures Enabled(After(s, run + [a] + [b]), c)
    ensures Next(After(s, run + [a] + [b]), c) == AfterThree(After(s, run), a, b, c)
  {
    hide IsRun, After, Enabled, Next;
    ExtendRun(s, run, a);
    ExtendRun(s, run + [a], b);
  }

  lemma SweepCrossesPing(t: State, ip: Vip, a: Addr)
    requires t.links.Keys == {0} && t.links[0].reader == Pinging(ip, a) && t.links[0].hasStream && !t.links[0].isClosed
    requires t.routes == map[ip := {a}] && t.maps == Registry(map[], map[]) && t.sweep == Resting
    ensures EnabledInTurn(t, SweepPick(ip, a), PingEnd(0), SweepUnroute)
    ensures var u := AfterThree(t, SweepPick(ip, a), PingEnd(0), SweepUnroute);
            && Enabled(u, SweepEvict) && u.sweep.addr == a && FoundOpen(u, a) && !HandsDead(u)
            && a !in Next(u, SweepEvict).maps.conns
  {
    assert Streamless(t) == {};
    var u := AfterThree(t, SweepPick(ip, a), PingEnd(0), SweepUnroute);
    assert InHand(u, a);
  }

  /** The sweep can do so too: it looks up the address of a ping that registers it before the sweep evicts it. */
  lemma SweepEvictionHitsOpen(s: State, ip: Vip, a: Addr)
    requires Init(s)
    ensures var run := [Accept(0), OnLink(0, CryptoOk), PingBegin(0, ip, a)]
                       + [SweepPick(ip, a)] + [PingEnd(0)] + [SweepUnroute];
            && IsRun(s, run) && Enabled(After(s, run), SweepEvict) && FoundOpen(After(s, run), a)
            && !HandsDead(After(s, run)) && a !in Next(After(s, run), SweepEvict).maps.conns
  {
    FirstPingUnderWay(s, ip, a);
    var p3 := [Accept(0), OnLink(0, CryptoOk), PingBegin(0, ip, a)];
    SweepCrossesPing(After(s, p3), ip, a);
    hide IsRun, After, Enabled, Next, EnabledInTurn, AfterThree, FoundOpen, HandsDead;
    ExtendByThree(s, p3, SweepPick(ip, a), PingEnd(0), SweepUnroute);
  }
}
