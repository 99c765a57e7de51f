/** A worker that waits for a full queue is not stuck: the connection's own goroutines always get it going again. */
module Progress {
  import opened Frames
  import opened Link
  import opened ServerSystem
  import opened RegistrySafety
  import opened Forwarding

  /** A step of connection `c`'s own goroutines, other than entering a ping handler. */
  predicate OfConn(st: Step, c: ConnId) {
    (st.OnLink? || st.PingEnd? || st.Cleanup?) && st.conn == c
  }

  /** Worker `w` has found its connection and waits for room in the queue. */
  predicate Blocked(s: State, w: WorkerId) {
    && w in s.workers && s.workers[w].Found? && s.workers[w].conn in s.links
    && !EnqueueEnabled(s.links[s.workers[w].conn])
  }

  /** A blocked worker's connection always has a step to take. */
  lemma BlockedHasStep(s: State, w: WorkerId, nonce: Nonce)
    requires Reachable(s) && Blocked(s, w)
    ensures exists st :: OfConn(st, s.workers[w].conn) && Enabled(s, st)
  {
    ReachableInv(s);
    var c := s.workers[w].conn;
    var l := s.links[c];
    LinkOfState(s, c);
    BlockedCanMove(s.secret, l, nonce);
    hide Reachable, Inv, LinkEnabled, LinkOk, EnqueueEnabled;
    if l.reader.Pinging? {
      assert OfConn(PingEnd(c), c) && Enabled(s, PingEnd(c));
    } else if l.reader.Leaving? {
      assert OfConn(Cleanup(c), c) && Enabled(s, Cleanup(c));
    } else {
      var step :| LinkEnabled(s.secret, l, step);
      assert OfConn(OnLink(c, step), c) && Enabled(s, OnLink(c, step));
    }
  }

  lemma OwnMoveProgresses(s: State, st: Step, c: ConnId)
    requires Streamless(s) == {} && c in s.links && |s.links[c].queue| == QUEUE_SIZE && s.links[c].queueOpen
    requires OfConn(st, c) && Enabled(s, st)
    ensures c in Next(s, st).links
    ensures var l, l' := s.links[c], Next(s, st).links[c]; EnqueueEnabled(l') || BlockedRank(l') < BlockedRank(l)
  {
    if st.OnLink? {
      BlockedStepsProgress(s.secret, s.links[c], st.step);
    }
    hide LinkEnabled, LinkNext;
  }

  lemma OtherMoveLeavesLink(s: State, st: Step, c: ConnId)
    requires Streamless(s) == {} && c in s.links && !EnqueueEnabled(s.links[c]) && Enabled(s, st)
    requires !OfConn(st, c) && !(st.PingBegin? && st.conn == c)
    ensures c in Next(s, st).links && Next(s, st).links[c] == s.links[c]
  {
    hide LinkEnabled, LinkNext, Enqueue;
  }

  /**
   * Whatever step is taken while a worker is blocked, the worker keeps its packet and its connection. A step of that
   * connection unblocks it or lowers the rank, which is at most 48; the start of a ping handler raises it by one;
   * no other step changes the connection.
   */
  lemma BlockedProgress(s: State, w: WorkerId, st: Step)
    requires Reachable(s) && Blocked(s, w) && Enabled(s, st)
    ensures var c := s.workers[w].conn;
            var t := Next(s, st);
            && w in t.workers && t.workers[w] == s.workers[w] && c in t.links
            && BlockedRank(s.links[c]) <= 48
            && (OfConn(st, c) ==> Enabled(t, Send(w)) || BlockedRank(t.links[c]) < BlockedRank(s.links[c]))
            && (st.PingBegin? && st.conn == c ==> BlockedRank(t.links[c]) == BlockedRank(s.links[c]) + 1)
            && (!OfConn(st, c) && !(st.PingBegin? && st.conn == c) ==> t.links[c] == s.links[c])
  {
    var c := s.workers[w].conn;
    ReachableInv(s);
    NoStreamless(s);
    LinkOfState(s, c);
    BlockedIsFull(s, w);
    BlockedWorkerWaits(s, w, st);
    OtherStepsLeaveWorker(s, st, w);
    RankBounded(s.links[c]);
    hide *;
    if OfConn(st, c) {
      OwnMoveProgresses(s, st, c);
      RoomEnablesSend(Next(s, st), w);
    } else if st.PingBegin? && st.conn == c {
      PingRaises(s, st, c);
    } else {
      OtherMoveLeavesLink(s, st, c);
    }
  }

  lemma RankBounded(l: Link)
    ensures BlockedRank(l) <= 48
  {
  }

  lemma BlockedIsFull(s: State, w: WorkerId)
    requires Blocked(s, w) && LinkOk(s.secret, s.links[s.workers[w].conn])
    ensures w in s.workers && s.workers[w].Found? && s.workers[w].conn in s.links
    ensures var l := s.links[s.workers[w].conn]; |l.queue| == QUEUE_SIZE && l.queueOpen && !EnqueueEnabled(l)
  {
  }

  lemma RoomEnablesSend(t: State, w: WorkerId)
    requires w in t.workers && t.workers[w].Found? && t.workers[w].conn in t.links
    ensures EnqueueEnabled(t.links[t.workers[w].conn]) ==> Enabled(t, Send(w))
  {
  }

  lemma PingRaises(s: State, st: Step, c: ConnId)
    requires st.PingBegin? && st.conn == c && Enabled(s, st)
    ensures c in s.links && c in Next(s, st).links
    ensures BlockedRank(Next(s, st).links[c]) == BlockedRank(s.links[c]) + 1
  {
    hide EnqueueEnabled;
  }

  lemma BlockedWorkerWaits(s: State, w: WorkerId, st: Step)
    requires Blocked(s, w) && Enabled(s, st)
    ensures !StepOf(st, w)
  {
    hide LinkEnabled;
  }
}
