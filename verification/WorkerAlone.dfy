/** A worker's steps with nothing else running: the packet is sent if and only if some routed address is live. */
module WorkerAlone {
  import opened Prelude
  import opened Registry
  import opened Link
  import opened ServerSystem
  import opened Forwarding

  /** A step with which worker `w` goes on with the packet it has. */
  predicate OwnStep(st: Step, w: WorkerId) {
    StepOf(st, w) && !st.Fetch?
  }

  function Offers(routes: Routes, dst: Vip): set<Addr> {
    if dst in routes then routes[dst] else {}
  }

  /** How many steps the worker may still take. */
  function StepsLeft(s: State, w: WorkerId): nat
    requires w in s.workers
  {
    match s.workers[w]
    case Idle => 0
    case Found(_, _, _, _) => 1
    case Dead(dst, _, _) => 4 * |Offers(s.routes, dst)| + 2
    case Choosing(dst, _, _) => 4 * |Offers(s.routes, dst)| + 3
    case Wanting(dst, _) => 4 * |Offers(s.routes, dst)| + 4
    case Evicting(dst, _, _) => 4 * |Offers(s.routes, dst)| + 5
  }

  /** What the worker holds is what the routing table and the registry still say. */
  predicate UpToDate(s: State, w: WorkerId) {
    w in s.workers &&
    match s.workers[w]
    case Choosing(dst, _, keys) => keys != {} && keys == Offers(s.routes, dst)
    case Found(dst, _, a, c) => FoundOpen(s, a) && s.maps.conns[a] == c && a in Offers(s.routes, dst)
    case Dead(dst, _, a) => !FoundOpen(s, a) && a in Offers(s.routes, dst)
    case Evicting(_, _, a) => !FoundOpen(s, a)
    case _ => true
  }

  lemma OwnStepCounts(s: State, st: Step, w: WorkerId)
    requires UpToDate(s, w) && OwnStep(st, w) && Enabled(s, st)
    ensures w in Next(s, st).workers && StepsLeft(Next(s, st), w) < StepsLeft(s, w)
    ensures UpToDate(Next(s, st), w)
  {
    if st.Unroute? {
      UnrouteCounts(s, w);
    } else {
      OtherCounts(s, st, w);
    }
    hide *;
  }

  lemma UnrouteCounts(s: State, w: WorkerId)
    requires UpToDate(s, w) && Enabled(s, Unroute(w))
    ensures w in UnrouteState(s, w).workers && StepsLeft(UnrouteState(s, w), w) < StepsLeft(s, w)
    ensures UpToDate(UnrouteState(s, w), w)
  {
    var Dead(dst, _, a) := s.workers[w];
    assert Offers(UnrouteState(s, w).routes, dst) == Offers(s.routes, dst) - {a};
  }

  lemma OtherCounts(s: State, st: Step, w: WorkerId)
    requires UpToDate(s, w) && OwnStep(st, w) && Enabled(s, st) && !st.Unroute?
    ensures w in Next(s, st).workers && StepsLeft(Next(s, st), w) < StepsLeft(s, w)
    ensures UpToDate(Next(s, st), w)
  {
    hide EnqueueEnabled, Enqueue, LinkEnabled, LinkNext;
  }

  /** While it has a packet, the mutex is free and there is room in the queue, the worker has a step to take. */
  lemma HasOwnStep(s: State, w: WorkerId)
    requires UpToDate(s, w) && !s.workers[w].Idle? && s.mutex.None?
    requires s.workers[w].Found? ==> EnqueueEnabled(s.links[s.workers[w].conn])
    ensures exists st :: OwnStep(st, w) && Enabled(s, st)
  {
    hide EnqueueEnabled, LinkEnabled;
    match s.workers[w] {
      case Wanting(_, _) => assert OwnStep(Snapshot(w), w) && Enabled(s, Snapshot(w));
      case Choosing(_, _, keys) =>
        var a :| a in keys;
        assert OwnStep(Pick(w, a), w) && Enabled(s, Pick(w, a));
      case Found(_, _, _, _) => assert OwnStep(Send(w), w) && Enabled(s, Send(w));
      case Dead(_, _, _) => assert OwnStep(Unroute(w), w) && Enabled(s, Unroute(w));
      case Evicting(_, _, _) => assert OwnStep(Evict(w), w) && Enabled(s, Evict(w));
    }
  }

  /** The worker alone, still at its packet, has only taken dead addresses of its destination away. */
  ghost predicate StillAt(t: State, s: State, w: WorkerId, dst: Vip, data: Bytes) {
    && w in s.workers && !s.workers[w].Idle? && s.workers[w].dst == dst && s.workers[w].data == data
    && s.links == t.links && s.mutex == t.mutex && s.routes.Keys == t.routes.Keys
    && (forall d :: d in t.routes && d != dst ==> s.routes[d] == t.routes[d])
    && Offers(s.routes, dst) <= Offers(t.routes, dst)
    && (forall a :: a in Offers(t.routes, dst) && FoundOpen(t, a) ==> a in Offers(s.routes, dst))
    && (forall a :: FoundOpen(s, a) <==> FoundOpen(t, a))
    && (forall a :: FoundOpen(t, a) ==> s.maps.conns[a] == t.maps.conns[a])
  }

  lemma OwnStepStillAt(t: State, s: State, st: Step, w: WorkerId, dst: Vip, data: Bytes)
    requires StillAt(t, s, w, dst, data) && UpToDate(s, w) && OwnStep(st, w) && Enabled(s, st)
    requires w in Next(s, st).workers && !Next(s, st).workers[w].Idle?
    ensures StillAt(t, Next(s, st), w, dst, data)
  {
    hide EnqueueEnabled, Enqueue, LinkEnabled, LinkNext;
  }

  /** Some address of the packet's destination leads to an open connection. */
  predicate SomeLive(t: State, dst: Vip) {
    exists a :: a in Offers(t.routes, dst) && FoundOpen(t, a)
  }

  /** The worker is done with its packet: it sent it to a live address, or there was none, and none is offered now. */
  ghost predicate Done(t: State, s: State, w: WorkerId, dst: Vip, data: Bytes) {
    && w in s.workers && s.workers[w].Idle?
    && if SomeLive(t, dst) then
         exists a ::
           && a in Offers(t.routes, dst) && FoundOpen(t, a) && a in Offers(s.routes, dst)
           && var c := t.maps.conns[a];
              && c in s.links && s.links[c] == Enqueue(t.links[c], data)
              && s.links - {c} == t.links - {c}
       else
         Offers(s.routes, dst) == {} && s.links == t.links
  }

  lemma LastOwnStep(t: State, s: State, st: Step, w: WorkerId, dst: Vip, data: Bytes)
    requires StillAt(t, s, w, dst, data) && UpToDate(s, w) && OwnStep(st, w) && Enabled(s, st)
    requires w in Next(s, st).workers && Next(s, st).workers[w].Idle?
    ensures Done(t, Next(s, st), w, dst, data)
  {
    hide EnqueueEnabled, Enqueue, LinkEnabled, LinkNext;
    if st.Send? {
      var a := s.workers[w].addr;
      assert a in Offers(t.routes, dst) && FoundOpen(t, a);
    }
  }

  predicate OwnRun(t: State, steps: seq<Step>, w: WorkerId) {
    IsRun(t, steps) && forall i :: 0 <= i < |steps| ==> OwnStep(steps[i], w)
  }

  lemma IdleHasNoOwnStep(s: State, st: Step, w: WorkerId)
    requires w in s.workers && s.workers[w].Idle? && OwnStep(st, w)
    ensures !Enabled(s, st)
  {
  }

  /**
   * Let only worker `w` go on, with a packet it has just fetched. It takes at most four steps for each address of the
   * destination and four more. As long as it has the packet it has only taken dead addresses away; when it has none
   * any more, it has sent the packet, once, if and only if some address was live, and otherwise none is left.
   */
  lemma {:induction false} WorkerAloneEnds(t: State, steps: seq<Step>, w: WorkerId, dst: Vip, data: Bytes)
    requires w in t.workers && t.workers[w] == Wanting(dst, data) && OwnRun(t, steps, w)
    ensures var s := After(t, steps);
            && UpToDate(s, w) && |steps| + StepsLeft(s, w) <= 4 * |Offers(t.routes, dst)| + 4
            && (StillAt(t, s, w, dst, data) || Done(t, s, w, dst, data))
  {
    hide Next, Enabled;
    if steps == [] {
      assert StillAt(t, t, w, dst, data);
    } else {
      hide UpToDate, StepsLeft, StillAt, Done;
      var shorter, st := steps[..|steps| - 1], steps[|steps| - 1];
      LastStep(t, steps);
      WorkerAloneEnds(t, shorter, w, dst, data);
      var s := After(t, shorter);
      OwnStepCounts(s, st, w);
      assert StillAt(t, s, w, dst, data) by {
        if Done(t, s, w, dst, data) {
          DoneIsIdle(t, s, w, dst, data);
          IdleHasNoOwnStep(s, st, w);
        }
      }
      if Next(s, st).workers[w].Idle? {
        LastOwnStep(t, s, st, w, dst, data);
      } else {
        OwnStepStillAt(t, s, st, w, dst, data);
      }
    }
  }

  lemma DoneIsIdle(t: State, s: State, w: WorkerId, dst: Vip, data: Bytes)
    requires Done(t, s, w, dst, data)
    ensures w in s.workers && s.workers[w].Idle?
  {
  }
}
