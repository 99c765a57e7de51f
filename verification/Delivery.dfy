/** Forwarding neither invents nor doubles packets: accepted messages come from sends, and sends from fetches. */
module Delivery {
  import opened Prelude
  import Frames
  import opened Link
  import Registry
  import opened ServerSystem
  import opened Forwarding

  /** What step `st` queues on connection `c`. */
  function Delivered(t: State, st: Step, c: ConnId): seq<Bytes>
    requires Enabled(t, st)
  {
    if st.Send? && t.workers[st.worker].conn == c && t.links[c].queueOpen then [t.workers[st.worker].data] else []
  }

  /** What the sends of the run queued on connection `c`, in order. */
  function Deliveries(s: State, run: seq<Step>, c: ConnId): seq<Bytes>
    requires IsRun(s, run)
    decreases |run|
  {
    if run == [] then []
    else
      var shorter := run[..|run| - 1];
      Deliveries(s, shorter, c) + Delivered(After(s, shorter), run[|run| - 1], c)
  }

  function Accepted(s: State, c: ConnId): seq<Bytes> {
    if c in s.links then s.links[c].accepted else []
  }

  lemma LinkStepAcceptsNothing(secret: Option<Frames.Cipher>, l: Link, st: LinkStep)
    requires LinkEnabled(secret, l, st)
    ensures LinkNext(secret, l, st).accepted == l.accepted
  {
    hide WriterNext, ReaderNext;
  }

  lemma StepAccepts(t: State, st: Step, c: ConnId)
    requires Enabled(t, st)
    ensures Accepted(Next(t, st), c) == Accepted(t, c) + Delivered(t, st, c)
  {
    hide LinkEnabled, LinkNext, EnqueueEnabled;
    if st.OnLink? {
      LinkStepAcceptsNothing(t.secret, t.links[st.conn], st.step);
    }
  }

  /** On every run, a connection's accepted messages are exactly what the run's sends queued on it, in their order. */
  lemma {:induction false} AcceptedAreDeliveries(s: State, run: seq<Step>, c: ConnId)
    requires Init(s) && IsRun(s, run)
    ensures Accepted(After(s, run), c) == Deliveries(s, run, c)
  {
    hide Next, Enabled, Delivered;
    if run == [] {
      assert s.links == map[];
    } else {
      hide Accepted;
      LastStep(s, run);
      AcceptedAreDeliveries(s, run[..|run| - 1], c);
      StepAccepts(After(s, run[..|run| - 1]), run[|run| - 1], c);
    }
  }

  /** Between two sends of a worker lies the fetch of what the second one sends, so no packet is sent twice. */
  lemma SendsHaveOwnFetch(s: State, run: seq<Step>, i: nat, k: nat, w: WorkerId)
    requires Init(s) && IsRun(s, run) && i < k < |run| && run[i] == Send(w) && run[k] == Send(w)
    ensures IsRun(s, run[..k]) && w in After(s, run[..k]).workers && After(s, run[..k]).workers[w].Found?
    ensures exists f ::
              i < f < k && run[f] == Fetch(w, After(s, run[..k]).workers[w].dst, After(s, run[..k]).workers[w].data)
  {
    hide IsRun, After, Next, FoundLive, FetchedAt, EnqueueEnabled;
    StepEnabledAt(s, run, k);
    SendsOnlyToFoundConnection(s, run[..k], w);
    hide *;
    var worker := After(s, run[..k]).workers[w];
    var f: nat :| FetchedAt(run[..k], f, w, worker.dst, worker.data);
    FetchAfterSend(run, i, f, k, w, worker.dst, worker.data);
  }

  lemma FetchAfterSend(run: seq<Step>, i: nat, f: nat, k: nat, w: WorkerId, dst: Registry.Vip, data: Bytes)
    requires i < k <= |run| && run[i] == Send(w) && FetchedAt(run[..k], f, w, dst, data)
    ensures i < f < k && run[f] == Fetch(w, dst, data)
  {
    assert run[..k][i] == Send(w);
  }

  lemma StepEnabledAt(s: State, run: seq<Step>, k: nat)
    requires IsRun(s, run) && k < |run|
    ensures IsRun(s, run[..k]) && Enabled(After(s, run[..k]), run[k])
  {
    PrefixIsRun(s, run, k);
    PrefixIsRun(s, run, k + 1);
    LastStep(s, run[..k + 1]);
    assert run[..k + 1][..k] == run[..k];
  }
}
