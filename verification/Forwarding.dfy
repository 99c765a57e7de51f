/** Where a forwarded packet can go while pings, evictions and the sweep run beside the workers. */
module Forwarding {
  import opened Prelude
  import opened Registry
  import opened Link
  import opened ServerSystem

  /** The worker whose step this is. */
  predicate StepOf(st: Step, w: WorkerId) {
    match st
    case Fetch(v, _, _) => v == w
    case Snapshot(v) => v == w
    case Pick(v, _) => v == w
    case Send(v) => v == w
    case Unroute(v) => v == w
    case Evict(v) => v == w
    case _ => false
  }

  /** The run up to and including the last step of worker `w`. */
  function Until(run: seq<Step>, w: WorkerId): (h: seq<Step>)
    ensures h <= run
    ensures h != [] ==> StepOf(h[|h| - 1], w)
    ensures forall k :: |h| <= k < |run| ==> !StepOf(run[k], w)
  {
    if run == [] || StepOf(run[|run| - 1], w) then run else Until(run[..|run| - 1], w)
  }

  /** The last step of worker `w` is `st`, and `before` is the run that led there. */
  predicate Latest(run: seq<Step>, w: WorkerId, st: Step, before: seq<Step>): (r: bool)
    ensures r ==> |before| < |run|
  {
    Until(run, w) == before + [st]
  }

  // The story of a worker's packet, told backwards: each predicate says what the worker's latest step was, in which
  // state it was taken, and what the worker's latest step before that one was.

  /** `w` wants to forward `data`: it has just fetched it, or has just finished an eviction for it. */
  ghost predicate Wants(s: State, run: seq<Step>, w: WorkerId, dst: Vip, data: Bytes)
    decreases |run|
  {
    || (exists before :: Latest(run, w, Fetch(w, dst, data), before))
    || (exists before, a :: Latest(run, w, Evict(w), before) && Unrouted(s, before, w, dst, data, a))
  }

  /** `w` has just copied `keys`, which was then the whole of `routes[dst]`. */
  ghost predicate Snapped(s: State, run: seq<Step>, w: WorkerId, dst: Vip, data: Bytes, keys: set<Addr>)
    decreases |run|
  {
    exists before ::
      && Latest(run, w, Snapshot(w), before) && Wants(s, before, w, dst, data)
      && IsRun(s, before) && dst in After(s, before).routes && After(s, before).routes[dst] == keys
  }

  /** `w` has just looked up `a`, which it had just taken from `routes[dst]`, in the state after `before`. */
  ghost predicate Picked(s: State, run: seq<Step>, w: WorkerId, dst: Vip, data: Bytes, a: Addr, before: seq<Step>)
    decreases |run|, 0
  {
    && Latest(run, w, Pick(w, a), before) && IsRun(s, before)
    && exists keys :: a in keys && Snapped(s, before, w, dst, data, keys)
  }

  /** And it found the open connection `c`. */
  ghost predicate FoundLive(s: State, run: seq<Step>, w: WorkerId, dst: Vip, data: Bytes, a: Addr, c: ConnId) {
    exists before ::
      && Picked(s, run, w, dst, data, a, before)
      && FoundOpen(After(s, before), a) && After(s, before).maps.conns[a] == c
  }

  /** Or it found no connection, or a closed one. */
  ghost predicate FoundDead(s: State, run: seq<Step>, w: WorkerId, dst: Vip, data: Bytes, a: Addr)
    decreases |run|, 1
  {
    exists before :: Picked(s, run, w, dst, data, a, before) && !FoundOpen(After(s, before), a)
  }

  /** And has just deleted the route to it. */
  ghost predicate Unrouted(s: State, run: seq<Step>, w: WorkerId, dst: Vip, data: Bytes, a: Addr)
    decreases |run|
  {
    exists before :: Latest(run, w, Unroute(w), before) && FoundDead(s, before, w, dst, data, a)
  }

  /** What a worker holds is what its latest steps gave it. */
  ghost predicate Explained(s: State, run: seq<Step>, w: WorkerId, worker: Worker) {
    match worker
    case Idle => true
    case Wanting(dst, data) => Wants(s, run, w, dst, data)
    case Choosing(dst, data, keys) => Snapped(s, run, w, dst, data, keys)
    case Found(dst, data, a, c) => FoundLive(s, run, w, dst, data, a, c)
    case Dead(dst, data, a) => FoundDead(s, run, w, dst, data, a)
    case Evicting(dst, data, a) => Unrouted(s, run, w, dst, data, a)
  }

  lemma LatestIsLast(run: seq<Step>, w: WorkerId)
    requires run != [] && StepOf(run[|run| - 1], w)
    ensures Latest(run, w, run[|run| - 1], run[..|run| - 1])
  {
  }

  lemma OtherStepsLeaveWorker(s: State, st: Step, w: WorkerId)
    requires Enabled(s, st) && w in s.workers && !StepOf(st, w)
    ensures w in Next(s, st).workers && Next(s, st).workers[w] == s.workers[w]
  {
    hide LinkEnabled, LinkNext, EnqueueEnabled, Enqueue;
  }

  lemma PickedExtends(s: State, run: seq<Step>, w: WorkerId, dst: Vip, data: Bytes, a: Addr, before: seq<Step>)
    requires run != [] && !StepOf(run[|run| - 1], w) && Picked(s, run[..|run| - 1], w, dst, data, a, before)
    ensures Picked(s, run, w, dst, data, a, before)
  {
    hide IsRun, After, Snapped;
  }

  lemma ExplainedExtends(s: State, run: seq<Step>, w: WorkerId, worker: Worker)
    requires run != [] && !StepOf(run[|run| - 1], w) && Explained(s, run[..|run| - 1], w, worker)
    ensures Explained(s, run, w, worker)
  {
    var shorter := run[..|run| - 1];
    assert forall st, before :: Latest(run, w, st, before) <==> Latest(shorter, w, st, before);
    hide Latest, IsRun, After, FoundOpen, Picked;
    match worker {
      case Found(dst, data, a, c) =>
        var before :| Picked(s, shorter, w, dst, data, a, before)
                      && FoundOpen(After(s, before), a) && After(s, before).maps.conns[a] == c;
        PickedExtends(s, run, w, dst, data, a, before);
      case Dead(dst, data, a) =>
        var before :| Picked(s, shorter, w, dst, data, a, before) && !FoundOpen(After(s, before), a);
        PickedExtends(s, run, w, dst, data, a, before);
      case _ =>
    }
  }

  lemma JustSnapped(s: State, run: seq<Step>, w: WorkerId)
    requires IsRun(s, run) && run != [] && run[|run| - 1] == Snapshot(w)
    requires var t := After(s, run[..|run| - 1]); w in t.workers && Explained(s, run[..|run| - 1], w, t.workers[w])
    ensures Explained(s, run, w, After(s, run).workers[w])
  {
    LatestIsLast(run, w);
    LastStep(s, run);
    hide Latest, IsRun, After, Wants;
  }

  lemma PickOutcome(t: State, w: WorkerId, a: Addr)
    requires Enabled(t, Pick(w, a))
    ensures var Choosing(dst, data, keys) := t.workers[w];
            && a in keys
            && Next(t, Pick(w, a)).workers[w]
               == if FoundOpen(t, a) then Found(dst, data, a, t.maps.conns[a]) else Dead(dst, data, a)
  {
  }

  lemma JustPicked(s: State, run: seq<Step>, w: WorkerId, a: Addr)
    requires IsRun(s, run) && run != [] && run[|run| - 1] == Pick(w, a)
    requires var t := After(s, run[..|run| - 1]); w in t.workers && Explained(s, run[..|run| - 1], w, t.workers[w])
    ensures Explained(s, run, w, After(s, run).workers[w])
  {
    LatestIsLast(run, w);
    LastStep(s, run);
    var before := run[..|run| - 1];
    PickOutcome(After(s, before), w, a);
    hide Latest, IsRun, After, Snapped, Next, Enabled;
    var Choosing(dst, data, keys) := After(s, before).workers[w];
    assert Picked(s, run, w, dst, data, a, before);
    hide Picked;
  }

  lemma OwnStepExplains(s: State, run: seq<Step>, w: WorkerId)
    requires IsRun(s, run) && run != [] && StepOf(run[|run| - 1], w)
    requires var t := After(s, run[..|run| - 1]); w in t.workers && Explained(s, run[..|run| - 1], w, t.workers[w])
    ensures w in After(s, run).workers && Explained(s, run, w, After(s, run).workers[w])
  {
    var st := run[|run| - 1];
    LastStep(s, run);
    if st.Snapshot? {
      JustSnapped(s, run, w);
    } else if st.Pick? {
      JustPicked(s, run, w, st.addr);
    } else {
      LatestIsLast(run, w);
      hide Latest, IsRun, After, FoundDead, FoundLive, Snapped, FoundOpen, EnqueueEnabled, Enqueue, LinkEnabled;
    }
  }

  lemma {:induction false} WorkersExplained(s: State, run: seq<Step>, w: WorkerId)
    requires Init(s) && IsRun(s, run) && w in After(s, run).workers
    ensures w in s.workers && Explained(s, run, w, After(s, run).workers[w])
  {
    hide Next, Enabled;
    if run != [] {
      hide Explained;
      var shorter, st := run[..|run| - 1], run[|run| - 1];
      LastStep(s, run);
      NoNewWorkers(After(s, shorter), st);
      WorkersExplained(s, shorter, w);
      if StepOf(st, w) {
        OwnStepExplains(s, run, w);
      } else {
        OtherStepsLeaveWorker(After(s, shorter), st, w);
        ExplainedExtends(s, run, w, After(s, run).workers[w]);
      }
    }
  }

  lemma NoNewWorkers(s: State, st: Step)
    requires Enabled(s, st)
    ensures Next(s, st).workers.Keys == s.workers.Keys
  {
    hide LinkEnabled, LinkNext, EnqueueEnabled, Enqueue;
  }

  /** Step `f` fetched the packet that `w` is still forwarding: `w` has neither sent nor fetched since. */
  ghost predicate FetchedAt(run: seq<Step>, f: nat, w: WorkerId, dst: Vip, data: Bytes) {
    && f < |run| && run[f] == Fetch(w, dst, data)
    && forall k :: f < k < |run| ==> run[k] != Send(w) && !(run[k].Fetch? && run[k].worker == w)
  }

  /** The address looked up at step `j` was not open, and `w` went straight on to evict it. */
  ghost predicate EvictedDead(s: State, run: seq<Step>, j: nat, w: WorkerId) {
    && j < |run| && run[j].Pick? && IsRun(s, run[..j]) && !FoundOpen(After(s, run[..j]), run[j].addr)
    && exists m ::
         && j < m < |run| && run[m] == Evict(w)
         && forall k :: j < k < m && StepOf(run[k], w) ==> run[k] == Unroute(w)
  }

  /** Every address that `w` has looked up since step `f` was dead and has been evicted. */
  ghost predicate AllEvicted(s: State, run: seq<Step>, f: nat, w: WorkerId) {
    forall j :: f < j < |run| && run[j].Pick? && run[j].worker == w ==> EvictedDead(s, run, j, w)
  }

  lemma LatestAt(run: seq<Step>, w: WorkerId, st: Step, before: seq<Step>)
    requires Latest(run, w, st, before)
    ensures before <= run && run[|before|] == st && StepOf(st, w)
    ensures forall k :: |before| < k < |run| ==> !StepOf(run[k], w)
  {
    var h := Until(run, w);
    assert h[|h| - 1] == st;
  }

  lemma FetchedExtends(run: seq<Step>, w: WorkerId, st: Step, before: seq<Step>, f: nat, dst: Vip, data: Bytes)
    requires Latest(run, w, st, before) && FetchedAt(before, f, w, dst, data) && !st.Fetch? && !st.Send?
    ensures FetchedAt(run, f, w, dst, data)
  {
    LatestAt(run, w, st, before);
    hide Latest;
    forall k | f < k < |run| ensures run[k] != Send(w) && !(run[k].Fetch? && run[k].worker == w) {
      assert k < |before| ==> run[k] == before[k];
    }
  }

  lemma EvictedDeadExtends(s: State, run: seq<Step>, before: seq<Step>, j: nat, w: WorkerId)
    requires before <= run && EvictedDead(s, before, j, w)
    ensures EvictedDead(s, run, j, w)
  {
    hide IsRun, After, FoundOpen;
    assert run[..j] == before[..j];
    var m :| j < m < |before| && before[m] == Evict(w)
             && forall k :: j < k < m && StepOf(before[k], w) ==> before[k] == Unroute(w);
    assert run[m] == Evict(w);
  }

  lemma AllEvictedExtends(s: State, run: seq<Step>, w: WorkerId, st: Step, before: seq<Step>, f: nat)
    requires Latest(run, w, st, before) && AllEvicted(s, before, f, w)
    requires st.Pick? ==> EvictedDead(s, run, |before|, w)
    ensures AllEvicted(s, run, f, w)
  {
    LatestAt(run, w, st, before);
    hide Latest, EvictedDead;
    forall j | f < j < |run| && run[j].Pick? && run[j].worker == w ensures EvictedDead(s, run, j, w) {
      if j < |before| {
        assert before[j] == run[j];
        EvictedDeadExtends(s, run, before, j, w);
      }
    }
  }

  /** An eviction's three steps, from the look-up after `looked` on. */
  lemma RoundEvicts(s: State, run: seq<Step>, w: WorkerId, a: Addr,
                    looked: seq<Step>, picked: seq<Step>, unrouted: seq<Step>)
    requires Latest(run, w, Evict(w), unrouted) && Latest(unrouted, w, Unroute(w), picked)
    requires Latest(picked, w, Pick(w, a), looked) && IsRun(s, looked) && !FoundOpen(After(s, looked), a)
    ensures EvictedDead(s, run, |looked|, w)
  {
    LatestAt(run, w, Evict(w), unrouted);
    LatestAt(unrouted, w, Unroute(w), picked);
    LatestAt(picked, w, Pick(w, a), looked);
    hide Latest, IsRun, After, FoundOpen;
    assert run[..|looked|] == looked;
    assert run[|unrouted|] == Evict(w);
  }

  /** A wanted packet was fetched, and every address looked up for it since was dead and has been evicted. */
  lemma {:induction false} WantedSinceFetch(s: State, run: seq<Step>, w: WorkerId, dst: Vip, data: Bytes)
    requires Wants(s, run, w, dst, data)
    ensures exists f :: FetchedAt(run, f, w, dst, data) && AllEvicted(s, run, f, w)
    decreases |run|
  {
    hide Latest, IsRun, After, FoundOpen, EvictedDead, AllEvicted, FetchedAt;
    if before :| Latest(run, w, Fetch(w, dst, data), before) {
      JustFetched(s, run, w, dst, data, before);
    } else {
      var b3, a :| Latest(run, w, Evict(w), b3) && Unrouted(s, b3, w, dst, data, a);
      var b2 :| Latest(b3, w, Unroute(w), b2) && FoundDead(s, b2, w, dst, data, a);
      var b1 :| Picked(s, b2, w, dst, data, a, b1) && !FoundOpen(After(s, b1), a);
      var f := PickedSinceFetch(s, b2, w, dst, data, a, b1);
      FetchedExtends(b3, w, Unroute(w), b2, f, dst, data);
      FetchedExtends(run, w, Evict(w), b3, f, dst, data);
      RoundEvicts(s, run, w, a, b1, b2, b3);
      RoundAllEvicted(s, run, w, a, b1, b2, b3, f);
    }
  }

  lemma JustFetched(s: State, run: seq<Step>, w: WorkerId, dst: Vip, data: Bytes, before: seq<Step>)
    requires Latest(run, w, Fetch(w, dst, data), before)
    ensures FetchedAt(run, |before|, w, dst, data) && AllEvicted(s, run, |before|, w)
  {
    LatestAt(run, w, Fetch(w, dst, data), before);
  }

  lemma RoundAllEvicted(s: State, run: seq<Step>, w: WorkerId, a: Addr,
                        looked: seq<Step>, picked: seq<Step>, unrouted: seq<Step>, f: nat)
    requires Latest(run, w, Evict(w), unrouted) && Latest(unrouted, w, Unroute(w), picked)
    requires Latest(picked, w, Pick(w, a), looked)
    requires AllEvicted(s, looked, f, w) && EvictedDead(s, run, |looked|, w)
    ensures AllEvicted(s, run, f, w)
  {
    LatestAt(run, w, Evict(w), unrouted);
    LatestAt(unrouted, w, Unroute(w), picked);
    LatestAt(picked, w, Pick(w, a), looked);
    hide Latest, EvictedDead;
    forall j | f < j < |run| && run[j].Pick? && run[j].worker == w ensures EvictedDead(s, run, j, w) {
      assert j <= |looked| by {
        assert j > |unrouted| || j == |unrouted| || run[j] == unrouted[j];
        assert j >= |unrouted| || j > |picked| || j == |picked| || unrouted[j] == picked[j];
      }
      if j < |looked| {
        assert looked[j] == run[j];
        EvictedDeadExtends(s, run, looked, j, w);
      }
    }
  }

  lemma PickedSinceFetch(s: State, run: seq<Step>, w: WorkerId, dst: Vip, data: Bytes, a: Addr, before: seq<Step>)
    returns (f: nat)
    requires Picked(s, run, w, dst, data, a, before)
    ensures FetchedAt(run, f, w, dst, data) && AllEvicted(s, before, f, w)
    decreases |run|
  {
    var keys :| a in keys && Snapped(s, before, w, dst, data, keys);
    hide IsRun, After, FetchedAt, AllEvicted;
    f := SnappedSinceFetch(s, before, w, dst, data, keys);
    FetchedExtends(run, w, Pick(w, a), before, f, dst, data);
  }

  lemma SnappedSinceFetch(s: State, run: seq<Step>, w: WorkerId, dst: Vip, data: Bytes, keys: set<Addr>)
    returns (f: nat)
    requires Snapped(s, run, w, dst, data, keys)
    ensures FetchedAt(run, f, w, dst, data) && AllEvicted(s, run, f, w)
    decreases |run|
  {
    hide Latest, IsRun, After, FetchedAt, AllEvicted;
    var before :| Latest(run, w, Snapshot(w), before) && Wants(s, before, w, dst, data);
    WantedSinceFetch(s, before, w, dst, data);
    f :| FetchedAt(before, f, w, dst, data) && AllEvicted(s, before, f, w);
    FetchedExtends(run, w, Snapshot(w), before, f, dst, data);
    AllEvictedExtends(s, run, w, Snapshot(w), before, f);
  }

  lemma SendJoinsAccepted(t: State, w: WorkerId)
    requires Enabled(t, Send(w))
    ensures var Found(_, data, _, c) := t.workers[w];
            var t' := Next(t, Send(w));
            && c in t.links && c in t'.links
            && t'.links[c].accepted == t.links[c].accepted + (if t.links[c].queueOpen then [data] else [])
            && t'.links - {c} == t.links - {c}
  {
  }

  /**
   * Under any interference, what `w` sends is the packet of its last fetch; the connection was found open at its
   * last step, under an address it had taken from the packet's routes one step before. The send appends the packet to
   * that connection's accepted messages, unless its queue is closed, and touches no other connection.
   */
  lemma SendsOnlyToFoundConnection(s: State, run: seq<Step>, w: WorkerId)
    requires Init(s) && IsRun(s, run) && Enabled(After(s, run), Send(w))
    ensures var t := After(s, run);
            var Found(dst, data, a, c) := t.workers[w];
            var t' := Next(t, Send(w));
            && FoundLive(s, run, w, dst, data, a, c) && (exists f :: FetchedAt(run, f, w, dst, data))
            && t'.links[c].accepted == t.links[c].accepted + (if t.links[c].queueOpen then [data] else [])
            && t'.links - {c} == t.links - {c}
  {
    WorkersExplained(s, run, w);
    var Found(dst, data, a, c) := After(s, run).workers[w];
    SendJoinsAccepted(After(s, run), w);
    hide IsRun, After, FetchedAt, Latest, AllEvicted, Picked, Next, Enabled;
    var before :| Picked(s, run, w, dst, data, a, before)
                  && FoundOpen(After(s, before), a) && After(s, before).maps.conns[a] == c;
    var f := PickedSinceFetch(s, run, w, dst, data, a, before);
  }

  /**
   * Under any interference, a worker evicts only an address that it took from its destination's routes, found
   * unregistered or closed, and unrouted, each in one step right after the other.
   */
  lemma EvictsOnlyFoundDead(s: State, run: seq<Step>, w: WorkerId)
    requires Init(s) && IsRun(s, run) && Enabled(After(s, run), Evict(w))
    ensures var Evicting(dst, data, a) := After(s, run).workers[w];
            Unrouted(s, run, w, dst, data, a)
  {
    WorkersExplained(s, run, w);
    hide IsRun, After, Unrouted, Next;
  }

  /** A step that ends a packet is a send or a snapshot that finds no address. */
  lemma EndsPacket(t: State, st: Step, w: WorkerId)
    requires Enabled(t, st) && w in t.workers && !t.workers[w].Idle?
    requires w in Next(t, st).workers && Next(t, st).workers[w].Idle? && st != Send(w)
    ensures st == Snapshot(w) && var dst := t.workers[w].dst; dst !in t.routes || t.routes[dst] == {}
  {
    if !StepOf(st, w) {
      OtherStepsLeaveWorker(t, st, w);
    }
    hide LinkEnabled, LinkNext, EnqueueEnabled, Enqueue;
  }

  /**
   * Under any interference, a worker gives a packet up without sending it only at a snapshot that finds no address,
   * after every address it looked up for that packet was dead and has been evicted.
   */
  lemma GivesUpOnlyUnrouted(s: State, run: seq<Step>, st: Step, w: WorkerId)
    requires Init(s) && IsRun(s, run) && Enabled(After(s, run), st) && st != Send(w)
    requires w in After(s, run).workers && !After(s, run).workers[w].Idle?
    requires w in Next(After(s, run), st).workers && Next(After(s, run), st).workers[w].Idle?
    ensures var t := After(s, run);
            var dst, data := t.workers[w].dst, t.workers[w].data;
            && st == Snapshot(w) && (dst !in t.routes || t.routes[dst] == {})
            && exists f :: FetchedAt(run, f, w, dst, data) && AllEvicted(s, run, f, w)
  {
    var t := After(s, run);
    EndsPacket(t, st, w);
    WorkersExplained(s, run, w);
    hide IsRun, After, Next, Wants;
    WantedSinceFetch(s, run, w, t.workers[w].dst, t.workers[w].data);
  }
}
