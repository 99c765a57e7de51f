/**
 * The whole server as a step system: the routing table under `App.mutex`, the registry under `Server.Mtx`,
 * every connection's goroutines, the TUN workers and the periodic sweep. Each step is one critical section,
 * or one unlocked access where the code takes no lock.
 */
module ServerSystem {
  import opened Prelude
  import opened Frames
  import opened Registry
  import opened Link

  type ConnId = nat
  type WorkerId = nat

  /** Where a TUN worker stands with its packet `data` for `dst`. */
  datatype Worker =
    | Idle
    | Wanting(dst: Vip, data: Bytes)
    | Choosing(dst: Vip, data: Bytes, keys: set<Addr>)
    | Found(dst: Vip, data: Bytes, addr: Addr, conn: ConnId)
    | Dead(dst: Vip, data: Bytes, addr: Addr)
    | Evicting(dst: Vip, data: Bytes, addr: Addr)

  datatype Sweep =
    | Resting
    | Condemned(dst: Vip, addr: Addr)
    | SweepEvicting(addr: Addr)

  datatype State = State(
    secret: Option<Cipher>,
    mutex: Option<ConnId>,
    routes: Routes,
    maps: Registry<ConnId>,
    links: map<ConnId, Link>,
    workers: map<WorkerId, Worker>,
    sweep: Sweep)

  datatype Step =
    | Accept(conn: ConnId)
    | OnLink(conn: ConnId, step: LinkStep)
    | PingBegin(conn: ConnId, ip: Vip, addr: Addr)
    | PingEnd(conn: ConnId)
    | Cleanup(conn: ConnId)
    | Fetch(worker: WorkerId, dst: Vip, data: Bytes)
    | Snapshot(worker: WorkerId)
    | Pick(worker: WorkerId, addr: Addr)
    | Send(worker: WorkerId)
    | Unroute(worker: WorkerId)
    | Evict(worker: WorkerId)
    | SweepPick(dst: Vip, addr: Addr)
    | SweepUnroute
    | SweepEvict

  predicate Init(s: State) {
    && s.mutex == None && s.routes == map[] && s.maps == Registry(map[], map[]) && s.links == map[]
    && s.sweep == Resting
    && forall w :: w in s.workers ==> s.workers[w] == Idle
  }

  /** What `GetConnsByAddr` and `IsClosed` tell a worker or the sweep. */
  predicate FoundOpen(s: State, a: Addr) {
    a in s.maps.conns && s.maps.conns[a] in s.links && !s.links[s.maps.conns[a]].isClosed
  }

  predicate Enabled(s: State, st: Step) {
    match st
    case Accept(c) => c !in s.links
    case OnLink(c, step) => c in s.links && LinkEnabled(s.secret, s.links[c], step)
    case PingBegin(c, _, _) => c in s.links && s.links[c].reader.Reading? && s.mutex.None?
    case PingEnd(c) => c in s.links && s.links[c].reader.Pinging?
    case Cleanup(c) => c in s.links && s.links[c].reader.Leaving?
    case Fetch(w, _, _) => w in s.workers && s.workers[w].Idle?
    case Snapshot(w) => w in s.workers && s.workers[w].Wanting? && s.mutex.None?
    case Pick(w, a) => w in s.workers && s.workers[w].Choosing? && a in s.workers[w].keys
    case Send(w) =>
      w in s.workers && s.workers[w].Found? && s.workers[w].conn in s.links
      && EnqueueEnabled(s.links[s.workers[w].conn])
    case Unroute(w) => w in s.workers && s.workers[w].Dead? && s.mutex.None?
    case Evict(w) => w in s.workers && s.workers[w].Evicting?
    case SweepPick(dst, a) =>
      s.sweep.Resting? && dst in s.routes && a in s.routes[dst] && !FoundOpen(s, a)
    case SweepUnroute => s.sweep.Condemned?
    case SweepEvict => s.sweep.SweepEvicting?
  }

  function SetLink(s: State, c: ConnId, l: Link): State {
    s.(links := s.links[c := l])
  }

  function SetWorker(s: State, w: WorkerId, worker: Worker): State {
    s.(workers := s.workers[w := worker])
  }

  /** The ping handler up to its route insertion; it now holds `App.mutex`. */
  function PingBeginState(s: State, c: ConnId, ip: Vip, a: Addr): State
    requires c in s.links
  {
    SetLink(s, c, s.links[c].(reader := Pinging(ip, a))).(routes := AddRoute(s.routes, ip, a), mutex := Some(c))
  }

  function Streamless(s: State): set<ConnId> {
    set c | c in s.links && !s.links[c].hasStream
  }

  /** `SetConns` and the release of `App.mutex`. Registering over a streamless entry stops that connection. */
  function PingEndState(s: State, c: ConnId): State
    requires c in s.links && s.links[c].reader.Pinging?
  {
    var a := s.links[c].reader.addr;
    var stopped :=
      if a in s.maps.conns && s.maps.conns[a] in Streamless(s)
      then s.links[s.maps.conns[a] := ForcedStop(s.links[s.maps.conns[a]])] else s.links;
    s.(links := stopped[c := stopped[c].(reader := Reading)],
       maps := s.maps.SetConns(a, c, Streamless(s)),
       mutex := None)
  }

  function SnapshotState(s: State, w: WorkerId): State
    requires w in s.workers && s.workers[w].Wanting?
  {
    var Wanting(dst, data) := s.workers[w];
    SetWorker(s, w, if dst in s.routes && s.routes[dst] != {} then Choosing(dst, data, s.routes[dst]) else Idle)
  }

  function PickState(s: State, w: WorkerId, a: Addr): State
    requires w in s.workers && s.workers[w].Choosing?
  {
    var Choosing(dst, data, _) := s.workers[w];
    SetWorker(s, w, if FoundOpen(s, a) then Found(dst, data, a, s.maps.conns[a]) else Dead(dst, data, a))
  }

  function SendState(s: State, w: WorkerId): State
    requires w in s.workers && s.workers[w].Found? && s.workers[w].conn in s.links
  {
    var c := s.workers[w].conn;
    SetWorker(SetLink(s, c, Enqueue(s.links[c], s.workers[w].data)), w, Idle)
  }

  function CleanupState(s: State, c: ConnId): State
    requires c in s.links
  {
    SetLink(s, c, s.links[c].(reader := Cleaned)).(maps := s.maps.RemoveConnByConnPointer(c))
  }

  function UnrouteState(s: State, w: WorkerId): State
    requires w in s.workers && s.workers[w].Dead?
  {
    var Dead(dst, data, a) := s.workers[w];
    SetWorker(s, w, Evicting(dst, data, a)).(routes := DeleteRoute(s.routes, dst, a))
  }

  /** `DeleteDeadConn`, after which the worker starts over with the same packet. */
  function EvictState(s: State, w: WorkerId): State
    requires w in s.workers && s.workers[w].Evicting?
  {
    var Evicting(dst, data, a) := s.workers[w];
    SetWorker(s, w, Wanting(dst, data)).(maps := s.maps.DeleteDeadConn(a))
  }

  /** The sweep's route deletion, which does not wait for `App.mutex`. */
  function SweepUnrouteState(s: State): State
    requires s.sweep.Condemned?
  {
    s.(sweep := SweepEvicting(s.sweep.addr), routes := DeleteRoute(s.routes, s.sweep.dst, s.sweep.addr))
  }

  function SweepEvictState(s: State): State
    requires s.sweep.SweepEvicting?
  {
    s.(sweep := Resting, maps := s.maps.DeleteDeadConn(s.sweep.addr))
  }

  function Next(s: State, st: Step): State
    requires Enabled(s, st)
  {
    match st
    case Accept(c) => SetLink(s, c, NewLink)
    case OnLink(c, step) => SetLink(s, c, LinkNext(s.secret, s.links[c], step))
    case PingBegin(c, ip, a) => PingBeginState(s, c, ip, a)
    case PingEnd(c) => PingEndState(s, c)
    case Cleanup(c) => CleanupState(s, c)
    case Fetch(w, dst, data) => SetWorker(s, w, Wanting(dst, data))
    case Snapshot(w) => SnapshotState(s, w)
    case Pick(w, a) => PickState(s, w, a)
    case Send(w) => SendState(s, w)
    case Unroute(w) => UnrouteState(s, w)
    case Evict(w) => EvictState(s, w)
    case SweepPick(dst, a) => s.(sweep := Condemned(dst, a))
    case SweepUnroute => SweepUnrouteState(s)
    case SweepEvict => SweepEvictState(s)
  }

  /** A run is a list of steps, each enabled in the state its predecessors lead to. */
  predicate IsRun(s: State, steps: seq<Step>)
    decreases |steps|, 0
  {
    steps == [] || (IsRun(s, steps[..|steps| - 1]) && Enabled(After(s, steps[..|steps| - 1]), steps[|steps| - 1]))
  }

  function After(s: State, steps: seq<Step>): State
    requires IsRun(s, steps)
    decreases |steps|, 1
  {
    if steps == [] then s else Next(After(s, steps[..|steps| - 1]), steps[|steps| - 1])
  }

  /** Exactly three kinds of step wait for `App.mutex`: a ping's begin, a worker's copy of the routes and its deletion. */
  lemma MutexWaitedForExactly(s: State, st: Step)
    requires Enabled(s.(mutex := None), st)
    ensures Enabled(s, st) <==> s.mutex.None? || !(st.PingBegin? || st.Snapshot? || st.Unroute?)
  {
    hide LinkEnabled, EnqueueEnabled;
    assert s.(mutex := None).mutex.None?;
  }

  /** Some run from an initial state ends in `t`. */
  ghost predicate Reachable(t: State) {
    exists s, steps :: Init(s) && IsRun(s, steps) && After(s, steps) == t
  }

  /** Every beginning of a run is a run. */
  lemma {:induction false} PrefixIsRun(s: State, steps: seq<Step>, i: nat)
    requires IsRun(s, steps) && i <= |steps|
    ensures IsRun(s, steps[..i])
  {
    if i < |steps| {
      var shorter := steps[..|steps| - 1];
      PrefixIsRun(s, shorter, i);
      assert shorter[..i] == steps[..i];
    } else {
      assert steps[..i] == steps;
    }
  }

  lemma ExtendRun(s: State, steps: seq<Step>, st: Step)
    requires IsRun(s, steps) && Enabled(After(s, steps), st)
    ensures IsRun(s, steps + [st]) && After(s, steps + [st]) == Next(After(s, steps), st)
  {
    hide Enabled, Next;
    assert (steps + [st])[..|steps|] == steps;
  }

  /** The last step of a run was enabled where it was taken. */
  lemma LastStep(s: State, steps: seq<Step>)
    requires IsRun(s, steps) && steps != []
    ensures var shorter := steps[..|steps| - 1];
            && IsRun(s, shorter) && Enabled(After(s, shorter), steps[|steps| - 1])
            && After(s, steps) == Next(After(s, shorter), steps[|steps| - 1])
  {
    hide Enabled, Next;
  }

  /** A new connection's first ping has added its route and is about to register. */
  lemma FirstPingUnderWay(s: State, ip: Vip, a: Addr)
    requires Init(s)
    ensures var steps := [Accept(0), OnLink(0, CryptoOk), PingBegin(0, ip, a)];
            && IsRun(s, steps)
            && var t := After(s, steps);
               && t.links.Keys == {0} && t.links[0].reader == Pinging(ip, a) && t.links[0].hasStream
               && !t.links[0].isClosed && t.mutex == Some(0) && t.routes == map[ip := {a}] && t.maps == s.maps
               && t.workers == s.workers && t.sweep == Resting
  {
    ExtendRun(s, [], Accept(0));
    assert [Accept(0)] == [] + [Accept(0)];
    ExtendRun(s, [Accept(0)], OnLink(0, CryptoOk));
    assert [Accept(0), OnLink(0, CryptoOk)] == [Accept(0)] + [OnLink(0, CryptoOk)];
    ExtendRun(s, [Accept(0), OnLink(0, CryptoOk)], PingBegin(0, ip, a));
    assert [Accept(0), OnLink(0, CryptoOk), PingBegin(0, ip, a)]
        == [Accept(0), OnLink(0, CryptoOk)] + [PingBegin(0, ip, a)];
  }
}
