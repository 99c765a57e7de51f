/** The client's round-robin over its connections, and the ping rounds that ride on it. */
module Scheduler {
  import opened Prelude
  import Wire
  import Envelope

  /** An int64 sum wraps around. */
  function Wrap64(n: int): Wire.Int64 {
    Wire.FromUint64(n % Wire.TWO_64)
  }

  /** Go's remainder takes the sign of the dividend. */
  function GoRemainder(n: int, d: int): int
    requires d > 0
  {
    if n >= 0 then n % d else -((-n) % d)
  }

  const TWO_31 := 0x8000_0000

  /** One more than the largest Go `int`, which has 32 bits in the 386 and arm builds and 64 in the others. */
  type Half = h: int | h == TWO_31 || h == Wire.TWO_63 witness TWO_31

  /** Go's conversion `int(n)`: the signed number with the same low bits. */
  function GoInt(n: int, half: Half): int {
    var m := if half == TWO_31 then n % 0x1_0000_0000 else n % Wire.TWO_64;
    if m < half then m else m - 2 * half
  }

  lemma NoWrap(n: int, half: Half)
    requires 0 <= n < half
    ensures Wrap64(n) == n && GoInt(n, half) == n
  {
  }

  /** The slot with remainder `n`. */
  function Carrier(n: int, threads: nat): nat
    requires threads > 0
  {
    n % threads
  }

  /** The slot of the write that brings the counter to `serial`: `int(serial) % threads`, if that is in range. */
  function Chosen(serial: int, threads: nat, half: Half): Option<nat> {
    if threads == 0 then None
    else
      var next := GoRemainder(GoInt(serial, half), threads);
      if 0 <= next < threads then Some(next) else None
  }

  /** The counter, as an `int`, can index the slots: it is not negative, or leaves no remainder. */
  predicate Indexes(serial: int, threads: nat, half: Half) {
    threads > 0 && (GoInt(serial, half) >= 0 || GoInt(serial, half) % threads == 0)
  }

  /** Exactly then the write finds its slot, and that is the counter's remainder. */
  lemma IndexInRange(serial: int, threads: nat, half: Half)
    ensures Chosen(serial, threads, half).Some? <==> Indexes(serial, threads, half)
    ensures Indexes(serial, threads, half) ==>
              Chosen(serial, threads, half) == Some(Carrier(GoInt(serial, half), threads))
  {
    var n := GoInt(serial, half);
    hide GoInt;
    if threads > 0 && n < 0 {
      NegatedRemainder(-n, threads);
    }
  }

  lemma ChosenBelow(serial: int, threads: nat, half: Half)
    requires threads > 0 && 0 <= serial < half
    ensures Chosen(serial, threads, half) == Some(Carrier(serial, threads))
  {
    NoWrap(serial, half);
    hide GoInt;
  }

  /** With a 32-bit `int`, write 2^31 fails on three slots and the next one on two; with 64 bits write 2^63 fails. */
  lemma WrappedIndexFails()
    ensures Chosen(0x8000_0001, 2, TWO_31) == None && GoRemainder(GoInt(0x8000_0001, TWO_31), 2) == -1
    ensures Chosen(0x8000_0000, 3, TWO_31) == None && GoRemainder(GoInt(0x8000_0000, TWO_31), 3) == -2
    ensures Wrap64(Wire.TWO_63) == -Wire.TWO_63 && Chosen(-Wire.TWO_63, 3, Wire.TWO_63) == None
  {
  }

  /** The write that takes the counter to its `m`th value finds a slot. */
  predicate WriteFinds(m: nat, threads: nat, half: Half) {
    Chosen(Wrap64(m), threads, half).Some?
  }

  lemma WriteFindsWhen(m: nat, threads: nat, half: Half)
    requires threads > 0
    ensures m < half || threads == 1 ==> WriteFinds(m, threads, half)
    ensures m == half ==> (WriteFinds(m, threads, half) <==> half % threads == 0)
    ensures m == half + 1 && threads > 1 && half % threads == 0 ==> !WriteFinds(m, threads, half)
  {
    IndexInRange(Wrap64(m), threads, half);
    if m < half {
      NoWrap(m, half);
    }
    var h: int := half;
    assert m == h || m == h + 1 ==> GoInt(Wrap64(m), half) == m - 2 * h;
    hide GoInt, Wrap64, Chosen;
    if m == h {
      NegatedRemainder(h, threads);
    } else if m == h + 1 && threads > 1 && h % threads == 0 {
      AfterMultiple(h, threads);
    }
  }

  lemma AfterMultiple(h: int, d: nat)
    requires d > 1 && h % d == 0
    ensures (1 - h) % d != 0
  {
    NegatedRemainder(h, d);
    SameRemainder(1 - h, -h, d);
    DivUnique(1, d, 0, 1);
  }

  /**
   * All of the next `n` writes find their slot if and only if there is one slot, or the counter stays below `half`,
   * or just reaches it and the number of slots divides it.
   */
  lemma WritesSucceedExactly(serial: nat, n: nat, threads: nat, half: Half)
    requires threads > 0 && serial < half
    ensures (forall m: nat :: serial < m <= serial + n ==> WriteFinds(m, threads, half))
            <==> threads == 1 || serial + n < half || (serial + n == half && half % threads == 0)
  {
    WriteFindsWhen(half, threads, half);
    WriteFindsWhen(half + 1, threads, half);
    forall m: nat | serial < m < half || threads == 1 ensures WriteFinds(m, threads, half) {
      WriteFindsWhen(m, threads, half);
    }
    hide WriteFinds;
    var h: nat := half;
    assert serial < h < h + 1;
  }

  lemma NegatedRemainder(n: int, d: int)
    requires d > 0
    ensures n % d == 0 <==> (-n) % d == 0
  {
    AddMultiple(0, d, n / d);
    AddMultiple(0, d, (-n) / d);
    AddMultiple(0, d, -(n / d));
    AddMultiple(0, d, -((-n) / d));
  }

  lemma DivUnique(x: int, d: int, q: int, r: int)
    requires d > 0 && x == q * d + r && 0 <= r < d
    ensures x / d == q && x % d == r
  {
    MultipleBound(x / d - q, d);
    assert (x / d - q) * d == r - x % d;
  }

  lemma MultipleBound(e: int, d: int)
    requires d > 0
    ensures e >= 1 ==> e * d >= d
    ensures e <= -1 ==> e * d <= -d
  {
  }

  lemma AddMultiple(x: int, d: int, q: int)
    requires d > 0
    ensures (x + q * d) / d == x / d + q && (x + q * d) % d == x % d
  {
    DivUnique(x + q * d, d, x / d + q, x % d);
  }

  lemma DivSucc(x: int, d: int)
    requires d > 0
    ensures (x + 1) / d == x / d + if (x + 1) % d == 0 then 1 else 0
  {
    var q, r := x / d, x % d;
    if r + 1 < d {
      DivUnique(x + 1, d, q, r + 1);
    } else {
      assert (q + 1) * d == q * d + d;
      DivUnique(x + 1, d, q + 1, 0);
    }
  }

  lemma DivMonotone(x: int, y: int, d: int)
    requires d > 0 && x <= y
    ensures x / d <= y / d
  {
    MultipleBound(y / d - x / d, d);
    assert (y / d - x / d) * d == (y - x) - (y % d - x % d);
  }

  lemma SameRemainder(x: int, y: int, d: int)
    requires d > 0
    ensures x % d == y % d <==> (x - y) % d == 0
  {
    var r, t := x % d, y % d;
    AddMultiple(r - t, d, x / d - y / d);
    Distribute(x / d, y / d, d);
    assert r - t + (x / d - y / d) * d == x - y;
    DivUnique(r - t, d, if r >= t then 0 else -1, if r >= t then r - t else r - t + d);
  }

  lemma Distribute(p: int, q: int, d: int)
    ensures (p - q) * d == p * d - q * d
  {
  }

  lemma WindowInjective(s: int, j: nat, k: nat, d: nat)
    requires j < d && k < d && (s + j) % d == (s + k) % d
    ensures j == k
  {
    SameRemainder(s + j, s + k, d);
    SameRemainder(s + k, s + j, d);
    if j > k {
      DivUnique(j - k, d, 0, j - k);
    } else {
      DivUnique(k - j, d, 0, k - j);
    }
  }

  /** How many of the `n` writes after counter value `serial` go to `slot`. */
  function Hits(serial: nat, n: nat, threads: nat, half: Half, slot: nat): nat {
    if n == 0 then 0
    else Hits(serial, n - 1, threads, half, slot)
         + if Chosen(Wrap64(serial + n), threads, half) == Some(slot) then 1 else 0
  }

  lemma HitAt(serial: nat, n: nat, threads: nat, slot: nat)
    requires slot < threads
    ensures Carrier(serial + n, threads) == slot <==> ((serial - slot) % threads + n) % threads == 0
  {
    var q, off := (serial - slot) / threads, (serial - slot) % threads;
    DivUnique(slot, threads, 0, slot);
    SameRemainder(serial + n, slot, threads);
    AddMultiple(off + n, threads, q);
    assert off + n + q * threads == serial + n - slot;
  }

  lemma {:induction false} HitsExactly(serial: nat, n: nat, threads: nat, half: Half, slot: nat)
    requires slot < threads && serial + n < half
    ensures Hits(serial, n, threads, half, slot) == ((serial - slot) % threads + n) / threads
  {
    var off := (serial - slot) % threads;
    if n == 0 {
      DivUnique(off, threads, 0, off);
    } else {
      HitsExactly(serial, n - 1, threads, half, slot);
      NoWrap(serial + n, half);
      ChosenBelow(serial + n, threads, half);
      hide Chosen, Wrap64;
      DivSucc(off + n - 1, threads);
      HitAt(serial, n, threads, slot);
    }
  }

  /** Until the `int` wraps, any `n` consecutive writes give every connection its even share, up to rounding. */
  lemma Balanced(serial: nat, n: nat, threads: nat, half: Half, slot: nat)
    requires slot < threads && serial + n < half
    ensures n / threads <= Hits(serial, n, threads, half, slot) <= (n + threads - 1) / threads
  {
    HitsExactly(serial, n, threads, half, slot);
    var off := (serial - slot) % threads;
    DivMonotone(n, off + n, threads);
    DivMonotone(off + n, n + threads - 1, threads);
  }

  /**
   * Callers running at once: each takes its slot with one atomic increment and hands its message over later.
   * `pending` are the slots taken and not yet handed to. Indexing with a wrapped `int` panics and hands nothing over.
   */
  datatype Callers = Callers(serial: Wire.Int64, pending: multiset<nat>, handed: multiset<nat>)

  datatype CallerStep = Take | Hand(slot: nat)

  function CallerNext(s: Callers, st: CallerStep, threads: nat, half: Half): Callers {
    match st
    case Take =>
      var serial := Wrap64(s.serial + 1);
      var slots := match Chosen(serial, threads, half) { case None => multiset{} case Some(slot) => multiset{slot} };
      Callers(serial, s.pending + slots, s.handed)
    case Hand(slot) => Callers(s.serial, s.pending - multiset{slot}, s.handed + multiset{slot})
  }

  predicate CallerRun(s: Callers, steps: seq<CallerStep>, threads: nat, half: Half)
    decreases |steps|
  {
    steps != [] ==>
      && (steps[0].Hand? ==> steps[0].slot in s.pending)
      && CallerRun(CallerNext(s, steps[0], threads, half), steps[1..], threads, half)
  }

  function CallersAfter(s: Callers, steps: seq<CallerStep>, threads: nat, half: Half): Callers
    requires CallerRun(s, steps, threads, half)
    decreases |steps|
  {
    if steps == [] then s else CallersAfter(CallerNext(s, steps[0], threads, half), steps[1..], threads, half)
  }

  /** How many writes were started. */
  function Takes(steps: seq<CallerStep>): nat {
    if steps == [] then 0 else (if steps[0].Take? then 1 else 0) + Takes(steps[1..])
  }

  lemma {:induction false} CallersConserve(s0: nat, s: Callers, steps: seq<CallerStep>, threads: nat, half: Half,
                                           slot: nat)
    requires threads > 0 && CallerRun(s, steps, threads, half) && s0 <= s.serial && s.serial + Takes(steps) < half
    requires s.pending[slot] + s.handed[slot] == Hits(s0, s.serial - s0, threads, half, slot)
    ensures var t := CallersAfter(s, steps, threads, half);
            && t.serial == s.serial + Takes(steps)
            && t.pending[slot] + t.handed[slot] == Hits(s0, t.serial - s0, threads, half, slot)
    decreases |steps|
  {
    hide *;
    if steps == [] {
      NoCallerStep(s, threads, half);
    } else {
      FirstCallerStep(s, steps, threads, half);
      CallerCounts(s0, s, steps[0], threads, half, slot);
      CallersConserve(s0, CallerNext(s, steps[0], threads, half), steps[1..], threads, half, slot);
    }
  }

  lemma NoCallerStep(s: Callers, threads: nat, half: Half)
    ensures CallerRun(s, [], threads, half) && CallersAfter(s, [], threads, half) == s && Takes([]) == 0
  {
  }

  lemma FirstCallerStep(s: Callers, steps: seq<CallerStep>, threads: nat, half: Half)
    requires steps != [] && CallerRun(s, steps, threads, half)
    ensures steps[0].Hand? ==> steps[0].slot in s.pending
    ensures Takes(steps) == (if steps[0].Take? then 1 else 0) + Takes(steps[1..])
    ensures var next := CallerNext(s, steps[0], threads, half);
            CallerRun(next, steps[1..], threads, half)
            && CallersAfter(s, steps, threads, half) == CallersAfter(next, steps[1..], threads, half)
  {
    hide CallerNext;
  }

  lemma CallerCounts(s0: nat, s: Callers, st: CallerStep, threads: nat, half: Half, slot: nat)
    requires threads > 0 && s0 <= s.serial && s.serial + 1 < half + (if st.Take? then 0 else 1)
    requires st.Hand? ==> st.slot in s.pending
    requires s.pending[slot] + s.handed[slot] == Hits(s0, s.serial - s0, threads, half, slot)
    ensures var t := CallerNext(s, st, threads, half);
            && t.serial == s.serial + (if st.Take? then 1 else 0)
            && t.pending[slot] + t.handed[slot] == Hits(s0, t.serial - s0, threads, half, slot)
  {
    if st.Take? {
      NoWrap(s.serial + 1, half);
      ChosenBelow(s.serial + 1, threads, half);
    }
    hide Wrap64, Carrier, Chosen;
  }

  /**
   * Under any interleaving of callers and until the `int` wraps, once every started write has been handed over,
   * each connection has received its even share of the `n` writes, up to rounding; meanwhile none has received more.
   */
  lemma InterleavingBalanced(serial: Wire.Int64, steps: seq<CallerStep>, threads: nat, half: Half, slot: nat)
    requires slot < threads && CallerRun(Callers(serial, multiset{}, multiset{}), steps, threads, half)
    requires 0 <= serial && serial + Takes(steps) < half
    ensures var t := CallersAfter(Callers(serial, multiset{}, multiset{}), steps, threads, half);
            var n := Takes(steps);
            && t.serial == serial + n
            && t.handed[slot] <= (n + threads - 1) / threads
            && (t.pending == multiset{} ==> n / threads <= t.handed[slot])
  {
    CallersConserve(serial, Callers(serial, multiset{}, multiset{}), steps, threads, half, slot);
    Balanced(serial, Takes(steps), threads, half, slot);
  }

  /** A slot announced by a ping, and the slot whose connection carries that ping. */
  datatype PingSent = PingSent(announced: nat, carrier: nat)

  /** The pings of one round from slot `i` on; empty slots are skipped. `conns` holds each connection's address. */
  function PingRound(conns: seq<Option<Bytes>>, serial: int, i: nat): seq<PingSent>
    requires i <= |conns|
    decreases |conns| - i
  {
    if i == |conns| then []
    else if conns[i].Some? then
      [PingSent(i, Carrier(serial + 1, |conns|))] + PingRound(conns, serial + 1, i + 1)
    else PingRound(conns, serial, i + 1)
  }

  predicate AllPresent(conns: seq<Option<Bytes>>) {
    conns != [] && forall j :: 0 <= j < |conns| ==> conns[j].Some?
  }

  lemma {:induction false} FullRound(conns: seq<Option<Bytes>>, serial: int, i: nat, k: nat)
    requires i + k < |conns| && AllPresent(conns)
    ensures var round := PingRound(conns, serial, i);
            |round| == |conns| - i && round[k] == PingSent(i + k, Carrier(serial + 1 + k, |conns|))
    decreases |conns| - i
  {
    if k > 0 {
      FullRound(conns, serial + 1, i + 1, k - 1);
    } else if i + 1 < |conns| {
      FullRound(conns, serial + 1, i + 1, 0);
    }
  }

  lemma CarrierInReach(serial: int, slot: nat, d: nat)
    requires slot < d
    ensures var k := (slot - serial - 1) % d;
            0 <= k < d && Carrier(serial + 1 + k, d) == slot
  {
    var q, k := (slot - serial - 1) / d, (slot - serial - 1) % d;
    AddMultiple(slot, d, -q);
    DivUnique(slot, d, 0, slot);
    assert (-q) * d == -(q * d);
    assert serial + 1 + k == slot + (-q) * d;
  }

  /** With every connection present, each one carries exactly one ping of a round. */
  lemma RoundReachesEveryone(conns: seq<Option<Bytes>>, serial: nat, slot: nat)
    requires slot < |conns| && AllPresent(conns)
    ensures var round := PingRound(conns, serial, 0);
            exists k :: 0 <= k < |round| && round[k].carrier == slot
                        && forall j :: 0 <= j < |round| && round[j].carrier == slot ==> j == k
  {
    hide PingRound, AllPresent;
    CarrierInReach(serial, slot, |conns|);
    var k: nat := (slot - serial - 1) % |conns|;
    var round := PingRound(conns, serial, 0);
    FullRound(conns, serial, 0, k);
    assert round[k].carrier == slot;
    forall j | 0 <= j < |round| && round[j].carrier == slot ensures j == k {
      FullRound(conns, serial, 0, j);
      WindowInjective(serial + 1, j, k, |conns|);
    }
  }

  lemma {:induction false} ShiftedRound(conns: seq<Option<Bytes>>, serial: int, shift: int, i: nat)
    requires i <= |conns| && conns != []
    ensures |PingRound(conns, serial + shift, i)| == |PingRound(conns, serial, i)|
    ensures PingRound(conns, serial + shift, i) == PingRound(conns, serial, i)
            <==> PingRound(conns, serial, i) == [] || shift % |conns| == 0
    decreases |conns| - i
  {
    if i < |conns| && conns[i].Some? {
      ShiftedRound(conns, serial + 1, shift, i + 1);
      SameRemainder(serial + shift + 1, serial + 1, |conns|);
      var first, later := PingRound(conns, serial, i), PingRound(conns, serial + shift, i);
      assert first[1..] == PingRound(conns, serial + 1, i + 1);
      assert later[1..] == PingRound(conns, serial + 1 + shift, i + 1);
      assert first[0] == later[0] <==> shift % |conns| == 0;
    } else if i < |conns| {
      ShiftedRound(conns, serial, shift, i + 1);
    }
  }

  lemma {:induction false} RoundLength(conns: seq<Option<Bytes>>, serial: int, i: nat)
    requires i <= |conns|
    ensures |PingRound(conns, serial, i)| <= |conns| - i
    ensures |PingRound(conns, serial, i)| == |conns| - i <==> forall j :: i <= j < |conns| ==> conns[j].Some?
    decreases |conns| - i
  {
    if i < |conns| {
      RoundLength(conns, if conns[i].Some? then serial + 1 else serial, i + 1);
    }
  }

  /**
   * When `d` writes lie between the starts of two rounds, pings and packets alike, the later round assigns every ping
   * to the carrier it had in the first one if and only if those writes fill whole turns over the slots.
   */
  lemma LaterRound(conns: seq<Option<Bytes>>, serial: nat, d: nat, half: Half)
    requires conns != [] && serial + d + |conns| < half
    ensures var first, later := WrappedRound(conns, serial, 0, half), WrappedRound(conns, serial + d, 0, half);
            && !first.panicked && !later.panicked
            && (later.pings == first.pings <==> first.pings == [] || d % |conns| == 0)
  {
    RoundBeforeWrap(conns, serial, 0, half);
    RoundBeforeWrap(conns, serial + d, 0, half);
    ShiftedRound(conns, serial, d, 0);
  }

  /** The round after `rounds` others, with no packets in between, repeats the first, if the `int` has not wrapped. */
  predicate RoundRepeats(conns: seq<Option<Bytes>>, serial: nat, rounds: nat, half: Half) {
    var first := PingRound(conns, serial, 0);
    var d := rounds * |first|;
    serial + d + |conns| < half ==> WrappedRound(conns, serial + d, 0, half).pings == first
  }

  lemma RoundRepeatsWhen(conns: seq<Option<Bytes>>, serial: nat, rounds: nat, half: Half)
    requires conns != []
    ensures var d := rounds * |PingRound(conns, serial, 0)|;
            RoundRepeats(conns, serial, rounds, half) <==>
            serial + d + |conns| >= half || PingRound(conns, serial, 0) == [] || d % |conns| == 0
  {
    var d: nat := rounds * |PingRound(conns, serial, 0)|;
    if serial + d + |conns| < half {
      RoundBeforeWrap(conns, serial, 0, half);
      LaterRound(conns, serial, d, half);
    }
    hide PingRound, WrappedRound;
  }

  /** With no packets in between, all later rounds repeat the first if and only if all slots are present, or none is. */
  lemma RoundsRepeatExactly(conns: seq<Option<Bytes>>, serial: nat, half: Half)
    requires conns != [] && serial + 2 * |conns| < half
    ensures (forall rounds: nat :: RoundRepeats(conns, serial, rounds, half))
            <==> PingRound(conns, serial, 0) == [] || AllPresent(conns)
  {
    var first := PingRound(conns, serial, 0);
    RoundLength(conns, serial, 0);
    assert AllPresent(conns) <==> |first| == |conns|;
    hide *;
    if first == [] || |first| == |conns| {
      forall rounds: nat ensures RoundRepeats(conns, serial, rounds, half) {
        RoundRepeatsWhen(conns, serial, rounds, half);
        AddMultiple(0, |conns|, rounds);
      }
    } else {
      RoundRepeatsWhen(conns, serial, 1, half);
      DivUnique(|first|, |conns|, 0, |first|);
      assert !RoundRepeats(conns, serial, 1, half);
    }
  }

  /** With all slots present and a packet between two rounds, the connection in slot 1 also carries two addresses. */
  lemma PacketShifts(a: Bytes, b: Bytes)
    ensures var conns := [Some(a), Some(b)];
            && PingRound(conns, 0, 0) == [PingSent(0, 1), PingSent(1, 0)]
            && PingRound(conns, 3, 0) == [PingSent(0, 0), PingSent(1, 1)]
  {
    var conns := [Some(a), Some(b)];
    assert PingRound(conns, 1, 1) == [PingSent(1, 0)] && PingRound(conns, 4, 1) == [PingSent(1, 1)];
  }

  /** With one of three slots empty, the connection in slot 1 carries one address in a round and another in the next. */
  lemma EmptySlotShifts(a: Bytes, b: Bytes)
    ensures var conns := [Some(a), Some(b), None];
            && PingRound(conns, 0, 0) == [PingSent(0, 1), PingSent(1, 2)]
            && PingRound(conns, 2, 0) == [PingSent(0, 0), PingSent(1, 1)]
  {
    var conns := [Some(a), Some(b), None];
    assert PingRound(conns, 2, 2) == [] && PingRound(conns, 4, 2) == [];
    assert PingRound(conns, 1, 1) == [PingSent(1, 2)] && PingRound(conns, 3, 1) == [PingSent(1, 1)];
  }

  /** What a round does: its pings, the counter it leaves, and whether a wrapped `int` made it panic. */
  datatype RoundResult = RoundResult(pings: seq<PingSent>, serial: Wire.Int64, panicked: bool)

  /** A round as `Write` runs it, with the counter's wrap-around. */
  function WrappedRound(conns: seq<Option<Bytes>>, serial: Wire.Int64, i: nat, half: Half): RoundResult
    requires i <= |conns|
    decreases |conns| - i
  {
    if i == |conns| then RoundResult([], serial, false)
    else if conns[i].None? then WrappedRound(conns, serial, i + 1, half)
    else
      var next := Wrap64(serial + 1);
      match Chosen(next, |conns|, half)
      case None => RoundResult([], next, true)
      case Some(slot) =>
        var later := WrappedRound(conns, next, i + 1, half);
        later.(pings := [PingSent(i, slot)] + later.pings)
  }

  /** Until the `int` wraps, that is the round above. */
  lemma {:induction false} RoundBeforeWrap(conns: seq<Option<Bytes>>, serial: Wire.Int64, i: nat, half: Half)
    requires i <= |conns| && 0 <= serial && serial + |conns| - i < half
    ensures var round := PingRound(conns, serial, i);
            && |round| <= |conns| - i
            && WrappedRound(conns, serial, i, half) == RoundResult(round, serial + |round|, false)
    decreases |conns| - i
  {
    if i < |conns| {
      NoWrap(serial + 1, half);
      ChosenBelow(serial + 1, |conns|, half);
      hide Wrap64, Carrier, Chosen;
      RoundBeforeWrap(conns, if conns[i].Some? then serial + 1 else serial, i + 1, half);
    }
  }

  /** The ping that announces the connection at `addr`, at time `now`. */
  function PingFor(addr: Bytes, ip: Bytes, now: Wire.Int64): Bytes {
    Envelope.Marshal(Envelope.PingType(Envelope.Ping(now, addr, NOT_USED, ip, CLIENT)))
  }

  /** What the server makes of it: the connection's address, the client's IP, and the two texts in ASCII. */
  lemma PingUnmarshals(addr: Bytes, ip: Bytes, now: Wire.Int64)
    requires |PingFor(addr, ip, now)| < Wire.TWO_64
    ensures match Envelope.Unmarshal(PingFor(addr, ip, now))
            case Some(PingType(p)) =>
              && p.timestamp == now && p.localAddr == addr && p.ip == ip
              && p.localPrivateAddr == [0x6e, 0x6f, 0x74, 0x5f, 0x75, 0x73, 0x65]
              && p.dc == [0x63, 0x6c, 0x69, 0x65, 0x6e, 0x74]
            case _ => false
  {
    Envelope.EnvelopeRoundTrip(Envelope.PingType(Envelope.Ping(now, addr, NOT_USED, ip, CLIENT)));
    hide Envelope.Marshal, Envelope.Unmarshal;
  }

  /** Every ping of the round announces an occupied slot. */
  predicate AnnouncesPresent(round: seq<PingSent>, conns: seq<Option<Bytes>>) {
    forall k :: 0 <= k < |round| ==> round[k].announced < |conns| && conns[round[k].announced].Some?
  }

  /** A round's hand-overs: for each ping its carrier and its message. */
  function HandOvers(round: seq<PingSent>, conns: seq<Option<Bytes>>, ip: Bytes, now: nat -> Wire.Int64)
    : seq<(nat, Bytes)>
    requires AnnouncesPresent(round, conns)
  {
    seq(|round|, k requires 0 <= k < |round| =>
      (round[k].carrier, PingFor(conns[round[k].announced].value, ip, now(round[k].announced))))
  }

  /** The message in `sent` goes to the ping's carrier, and tells the server the announced address and `ip`. */
  predicate Announces(sent: (nat, Bytes), p: PingSent, conns: seq<Option<Bytes>>, ip: Bytes, now: nat -> Wire.Int64) {
    && sent.0 == p.carrier && p.announced < |conns| && conns[p.announced].Some?
    && (|sent.1| < Wire.TWO_64 ==>
          match Envelope.Unmarshal(sent.1)
          case Some(PingType(ping)) =>
            ping.localAddr == conns[p.announced].value && ping.ip == ip && ping.timestamp == now(p.announced)
          case _ => false)
  }

  /** What `after` has more than `before` is the round's pings, in order. */
  predicate AllAnnounced(before: seq<(nat, Bytes)>, after: seq<(nat, Bytes)>, round: seq<PingSent>,
                         conns: seq<Option<Bytes>>, ip: Bytes, now: nat -> Wire.Int64) {
    && before <= after && |after| == |before| + |round|
    && forall k :: 0 <= k < |round| ==> Announces(after[|before| + k], round[k], conns, ip, now)
  }

  lemma HandOversAnnounce(before: seq<(nat, Bytes)>, round: seq<PingSent>, conns: seq<Option<Bytes>>, ip: Bytes,
                          now: nat -> Wire.Int64)
    requires AnnouncesPresent(round, conns)
    ensures AllAnnounced(before, before + HandOvers(round, conns, ip, now), round, conns, ip, now)
  {
    forall k | 0 <= k < |round| ensures Announces(HandOvers(round, conns, ip, now)[k], round[k], conns, ip, now) {
      var addr, t := conns[round[k].announced].value, now(round[k].announced);
      if |PingFor(addr, ip, t)| < Wire.TWO_64 {
        PingUnmarshals(addr, ip, t);
      }
      hide PingFor, Envelope.Unmarshal;
    }
  }

  /** The round one ping at a time: the counter, the hand-overs and the panic that slots `i` and later lead to. */
  function RunRound(conns: seq<Option<Bytes>>, ip: Bytes, now: nat -> Wire.Int64, serial: Wire.Int64,
                    handed: seq<(nat, Bytes)>, i: nat, half: Half): (Wire.Int64, seq<(nat, Bytes)>, bool)
    requires i <= |conns|
    decreases |conns| - i
  {
    if i == |conns| then (serial, handed, false)
    else if conns[i].None? then RunRound(conns, ip, now, serial, handed, i + 1, half)
    else
      var next := Wrap64(serial + 1);
      match Chosen(next, |conns|, half)
      case None => (next, handed, true)
      case Some(slot) =>
        RunRound(conns, ip, now, next, handed + [(slot, PingFor(conns[i].value, ip, now(i)))], i + 1, half)
  }

  lemma NextPing(conns: seq<Option<Bytes>>, ip: Bytes, now: nat -> Wire.Int64, serial: Wire.Int64,
                 handed: seq<(nat, Bytes)>, i: nat, half: Half)
    requires i <= |conns|
    ensures var end, next := RunRound(conns, ip, now, serial, handed, i, half), Wrap64(serial + 1);
            if i == |conns| then end == (serial, handed, false)
            else if conns[i].None? then end == RunRound(conns, ip, now, serial, handed, i + 1, half)
            else
              match Chosen(next, |conns|, half)
              case None => end == (next, handed, true)
              case Some(slot) =>
                var ping := (slot, PingFor(conns[i].value, ip, now(i)));
                end == RunRound(conns, ip, now, next, handed + [ping], i + 1, half)
  {
  }

  lemma FirstHandOver(p: PingSent, later: seq<PingSent>, conns: seq<Option<Bytes>>, ip: Bytes, now: nat -> Wire.Int64)
    requires p.announced < |conns| && conns[p.announced].Some? && AnnouncesPresent(later, conns)
    ensures AnnouncesPresent([p] + later, conns)
    ensures HandOvers([p] + later, conns, ip, now)
            == [(p.carrier, PingFor(conns[p.announced].value, ip, now(p.announced)))] + HandOvers(later, conns, ip, now)
  {
    hide PingFor;
  }

  /** That is the round's pings in order, each handed over with its message. */
  lemma {:induction false} RoundRuns(conns: seq<Option<Bytes>>, ip: Bytes, now: nat -> Wire.Int64, serial: Wire.Int64,
                                     handed: seq<(nat, Bytes)>, i: nat, half: Half)
    requires i <= |conns|
    ensures var result := WrappedRound(conns, serial, i, half);
            && AnnouncesPresent(result.pings, conns)
            && RunRound(conns, ip, now, serial, handed, i, half)
               == (result.serial, handed + HandOvers(result.pings, conns, ip, now), result.panicked)
    decreases |conns| - i
  {
    hide Wrap64, Chosen, PingFor;
    if i < |conns| && conns[i].None? {
      RoundRuns(conns, ip, now, serial, handed, i + 1, half);
    } else if i < |conns| && Chosen(Wrap64(serial + 1), |conns|, half).Some? {
      var next := Wrap64(serial + 1);
      var first := (Chosen(next, |conns|, half).value, PingFor(conns[i].value, ip, now(i)));
      RoundRuns(conns, ip, now, next, handed + [first], i + 1, half);
      var later := WrappedRound(conns, next, i + 1, half).pings;
      FirstHandOver(PingSent(i, first.0), later, conns, ip, now);
      var more := HandOvers(later, conns, ip, now);
      assert handed + [first] + more == handed + ([first] + more);
    } else {
      assert HandOvers([], conns, ip, now) == [] && handed + [] == handed;
    }
  }

  /** `conns[i]` is the address of the connection in slot `i`; `handed` records every hand-over, slot by slot. */
  class Client {
    const threads: nat
    const half: Half
    const ip: Bytes
    var conns: seq<Option<Bytes>>
    var serial: Wire.Int64
    var handed: seq<(nat, Bytes)>

    ghost predicate Valid()
      reads this
    {
      |conns| == threads
    }

    constructor (slots: seq<Option<Bytes>>, ip: Bytes, half: Half)
      ensures Valid() && conns == slots && serial == 0 && handed == [] && this.ip == ip && this.half == half
    {
      threads := |slots|;
      this.half := half;
      this.ip := ip;
      conns, serial, handed := slots, 0, [];
    }

    /**
     * One write: the counter moves on, and the slot it selects gets the message, to be dropped if it is empty.
     * Without slots, or with an `int` that has wrapped to a negative index, it panics.
     */
    method Write(data: Bytes) returns (panicked: bool)
      requires Valid()
      modifies this`serial, this`handed
      ensures Valid() && serial == Wrap64(old(serial) + 1) && (panicked <==> !Indexes(serial, threads, half))
      ensures match Chosen(serial, threads, half)
              case None => panicked && handed == old(handed)
              case Some(slot) => !panicked && handed == old(handed) + [(slot, data)]
    {
      serial := Wrap64(serial + 1);
      if threads == 0 {
        return true;
      }
      IndexInRange(serial, threads, half);
      var next := GoRemainder(GoInt(serial, half), threads);
      if next < 0 || next >= |conns| {
        return true;
      }
      handed := handed + [(next, data)];
      return false;
    }

    /** A ping round: every occupied slot is announced, in order, each ping through the ordinary `Write`. */
    method SendAllPing(now: nat -> Wire.Int64) returns (panicked: bool)
      requires Valid()
      modifies this`serial, this`handed
      ensures Valid()
      ensures var result := WrappedRound(conns, old(serial), 0, half);
              var round := result.pings;
              && serial == result.serial && panicked == result.panicked
              && AnnouncesPresent(round, conns)
              && handed == old(handed) + HandOvers(round, conns, ip, now)
              && AllAnnounced(old(handed), handed, round, conns, ip, now)
    {
      RoundRuns(conns, ip, now, serial, handed, 0, half);
      HandOversAnnounce(handed, WrappedRound(conns, serial, 0, half).pings, conns, ip, now);
      ghost var end := RunRound(conns, ip, now, serial, handed, 0, half);
      hide *;
      for i := 0 to |conns|
        invariant |conns| == threads && RunRound(conns, ip, now, serial, handed, i, half) == end
      {
        NextPing(conns, ip, now, serial, handed, i, half);
        if conns[i] == None {
          continue;
        }
        panicked := Write(PingFor(conns[i].value, ip, now(i)));
        if panicked {
          return;
        }
      }
      NextPing(conns, ip, now, serial, handed, |conns|, half);
      return false;
    }

    method SendPacket(pkt: Bytes) returns (panicked: bool)
      requires Valid()
      modifies this`serial, this`handed
      ensures Valid() && serial == Wrap64(old(serial) + 1) && (panicked <==> !Indexes(serial, threads, half))
      ensures match Chosen(serial, threads, half)
              case None => panicked && handed == old(handed)
              case Some(slot) =>
                !panicked && handed == old(handed) + [(slot, Envelope.Marshal(Envelope.PacketType(pkt)))]
    {
      panicked := Write(Envelope.Marshal(Envelope.PacketType(pkt)));
    }
  }

  /** "client" and "not_use" in ASCII. */
  const CLIENT: Bytes := [0x63, 0x6c, 0x69, 0x65, 0x6e, 0x74]
  const NOT_USED: Bytes := [0x6e, 0x6f, 0x74, 0x5f, 0x75, 0x73, 0x65]
}
