/** The sweep's steps with nothing else running: they come to an end, and leave exactly the live registrations. */
module QuietSweep {
  import opened Registry
  import opened ServerSystem
  import opened NoStranding

  predicate SweepStep(st: Step) {
    st.SweepPick? || st.SweepUnroute? || st.SweepEvict?
  }

  /** A run of the sweep alone. */
  predicate SweepRun(t: State, steps: seq<Step>) {
    IsRun(t, steps) && forall i :: 0 <= i < |steps| ==> SweepStep(steps[i])
  }

  /** The sweep rests, and finds nothing more to do. */
  predicate SweepDone(s: State) {
    s.sweep.Resting? && DeadPairs(s) == {}
  }

  /** The routes to addresses that are unregistered or closed. */
  function DeadPairs(s: State): set<(Vip, Addr)> {
    set d, a | d in s.routes && a in s.routes[d] && !FoundOpen(s, a) :: (d, a)
  }

  /** The sweep has no step left exactly when it is done. */
  lemma SweepDoneExactly(s: State)
    ensures SweepDone(s) <==> forall st :: SweepStep(st) ==> !Enabled(s, st)
  {
    if !SweepDone(s) {
      if s.sweep.Resting? {
        var pair :| pair in DeadPairs(s);
        assert Enabled(s, SweepPick(pair.0, pair.1));
      } else {
        assert Enabled(s, SweepUnroute) || Enabled(s, SweepEvict);
      }
    }
    forall d, a | Enabled(s, SweepPick(d, a)) ensures (d, a) in DeadPairs(s) {
    }
  }

  /** What the sweep alone has not touched since `t`: it only takes dead addresses away. */
  ghost predicate Untouched(t: State, s: State) {
    && s.links == t.links && s.workers == t.workers
    && s.maps.conns.Keys <= t.maps.conns.Keys && s.routes.Keys == t.routes.Keys
    && (forall a :: a in s.maps.conns ==> s.maps.conns[a] == t.maps.conns[a])
    && (forall a :: FoundOpen(t, a) ==> a in s.maps.conns)
    && (forall d :: d in t.routes ==> s.routes[d] <= t.routes[d])
    && (forall d, a :: d in t.routes && a in t.routes[d] && FoundOpen(t, a) ==> a in s.routes[d])
  }

  /** The address the sweep has in hand is dead. */
  predicate InHandDead(s: State) {
    match s.sweep
    case Resting => true
    case Condemned(d, a) => (d, a) in DeadPairs(s)
    case SweepEvicting(a) => !FoundOpen(s, a)
  }

  /** How many steps the sweep still has to take. */
  function StepsLeft(s: State): int {
    3 * |DeadPairs(s)| + match s.sweep { case Resting => 0 case Condemned(_, _) => -1 case SweepEvicting(_) => 1 }
  }

  lemma SweepStepCounts(s: State, st: Step)
    requires InHandDead(s) && Enabled(s, st) && SweepStep(st)
    ensures InHandDead(Next(s, st)) && StepsLeft(Next(s, st)) == StepsLeft(s) - 1
  {
    var s' := Next(s, st);
    if st.SweepPick? {
      assert DeadPairs(s') == DeadPairs(s);
    } else if st.SweepUnroute? {
      assert DeadPairs(s') == DeadPairs(s) - {(s.sweep.dst, s.sweep.addr)};
    } else {
      assert forall a :: FoundOpen(s', a) <==> FoundOpen(s, a);
      assert DeadPairs(s') == DeadPairs(s);
    }
  }

  lemma SweepStepUntouched(t: State, s: State, st: Step)
    requires Untouched(t, s) && InHandDead(s) && Enabled(s, st) && SweepStep(st)
    ensures Untouched(t, Next(s, st))
  {
  }

  lemma SweepStepKeepsNoStranded(s: State, st: Step)
    requires NoStranded(s) && Enabled(s, st) && SweepStep(st)
    ensures NoStranded(Next(s, st))
  {
    hide NoStranded;
    if st.SweepUnroute? {
      SweepUnroutePends(s);
    } else {
      OtherStepKeepsNoStranded(s, st);
    }
  }

  lemma {:induction false} SweepRunKeeps(t: State, steps: seq<Step>)
    requires NoStranded(t) && t.sweep.Resting? && SweepRun(t, steps)
    ensures var s := After(t, steps);
            && Untouched(t, s) && InHandDead(s) && NoStranded(s)
            && StepsLeft(s) == 3 * |DeadPairs(t)| - |steps|
  {
    hide Next, Enabled, NoStranded;
    if steps != [] {
      hide Untouched, InHandDead, StepsLeft;
      var shorter, st := steps[..|steps| - 1], steps[|steps| - 1];
      LastStep(t, steps);
      SweepRunKeeps(t, shorter);
      SweepStepCounts(After(t, shorter), st);
      SweepStepUntouched(t, After(t, shorter), st);
      SweepStepKeepsNoStranded(After(t, shorter), st);
    }
  }

  lemma DoneLeavesOnlyLive(t: State, s: State)
    requires Untouched(t, s) && NoStranded(s) && SweepDone(s)
    requires forall a :: !Pending(t, a)
    ensures s.maps.conns == map a | a in t.maps.conns && FoundOpen(t, a) :: t.maps.conns[a]
    ensures s.routes == map d | d in t.routes :: set a | a in t.routes[d] && FoundOpen(t, a)
  {
    forall d, a | d in s.routes && a in s.routes[d] ensures FoundOpen(t, a) {
      assert (d, a) !in DeadPairs(s);
    }
    forall d | d in s.routes ensures s.routes[d] == set a | a in t.routes[d] && FoundOpen(t, a) {
    }
    forall a | a in s.maps.conns ensures FoundOpen(t, a) {
      assert !Pending(t, a) && Anchored(s, a);
      assert s.workers == t.workers && !Pending(s, a);
    }
  }

  /**
   * Take any run that ended with no eviction in flight, and let only the sweep go on. It ends, after three steps for
   * each dead route, and when it has no step left exactly the open connections' registrations and routes remain.
   */
  lemma QuietSweepLeavesOnlyLive(s: State, steps: seq<Step>, more: seq<Step>)
    requires Init(s) && IsRun(s, steps) && SweepOutsidePings(s, steps)
    requires var t := After(s, steps); t.sweep.Resting? && (forall a :: !Pending(t, a)) && SweepRun(t, more)
    ensures var t := After(s, steps);
            var u := After(t, more);
            && |more| <= 3 * |DeadPairs(t)|
            && (SweepDone(u) <==> |more| == 3 * |DeadPairs(t)|)
            && (SweepDone(u) ==>
                  && u.links == t.links
                  && u.maps.conns == (map a | a in t.maps.conns && FoundOpen(t, a) :: t.maps.conns[a])
                  && u.routes == map d | d in t.routes :: set a | a in t.routes[d] && FoundOpen(t, a))
  {
    NothingStrandedOutsidePings(s, steps);
    var t := After(s, steps);
    hide IsRun, SweepOutsidePings, Next, Enabled;
    SweepRunKeeps(t, more);
    var u := After(t, more);
    hide NoStranded;
    if SweepDone(u) {
      DoneLeavesOnlyLive(t, u);
    }
  }
}
