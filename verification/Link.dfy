/**
 * One server connection as a step system: the reader goroutine with its deferred exit, the writer goroutine,
 * and the bounded queue and close signal between them. Each step is one access to shared state.
 */
module Link {
  import opened Prelude
  import opened Frames
  import opened Registry

  const QUEUE_SIZE := 2
  const SIGNAL_SIZE := 1

  /** Where `readProcess` stands. From `Leaving` on it is inside its deferred exit. */
  datatype Reader =
    | Starting
    | Reading
    | Pinging(ip: Vip, addr: Addr)
    | Leaving
    | Cleaned
    | StreamClosed
    | Flagged
    | Signalled
    | Stopped

  /** Where `writeProcess` stands. `lost` is the message whose write failed, if that is why the loop ended. */
  datatype Writer =
    | Waiting
    | Holding(message: Bytes)
    | HoldingNil
    | Failing(lost: seq<Outgoing>)
    | Closing(lost: seq<Outgoing>)
    | Finished(lost: seq<Outgoing>)

  /**
   * `ready` says that `aesgcm` is set. `cryptoDone`, `accepted`, `written` and `stops` record history: that
   * `crypto()` returned without an error, what `Write` queued, what was written whole, the calls of `Stop`.
   */
  datatype Link = Link(
    hasStream: bool,
    reader: Reader,
    writer: Writer,
    ready: bool,
    streamOpen: bool,
    isClosed: bool,
    queue: seq<Bytes>,
    queueOpen: bool,
    signals: nat,
    wire: Bytes,
    cryptoDone: bool,
    accepted: seq<Bytes>,
    written: seq<Outgoing>,
    stops: nat)

  const NewLink := Link(true, Starting, Waiting, false, true, false, [], true, 0, [], false, [], [], 0)

  /** The steps a connection's own goroutines take without touching the routing table or the registry. */
  datatype LinkStep =
    | CryptoOk
    | CryptoFail
    | ReadFail
    | ReaderClose
    | ReaderFlag
    | StopSignal
    | StopClose
    | Take
    | WriteOut(nonce: Nonce, taken: nat)
    | WriterStop
    | WriterClose
    | WriterFlag

  predicate LinkEnabled(secret: Option<Cipher>, l: Link, st: LinkStep) {
    match st
    case CryptoOk => l.reader.Starting?
    case CryptoFail => l.reader.Starting? && secret.Some?
    case ReadFail => l.reader.Reading?
    case ReaderClose => l.reader.Cleaned?
    case ReaderFlag => l.reader.StreamClosed?
    case StopSignal => l.reader.Flagged? && l.signals < SIGNAL_SIZE
    case StopClose => l.reader.Signalled?
    case Take => l.writer.Waiting? && (l.queue != [] || !l.queueOpen)
    case WriteOut(_, _) => l.writer.Holding? || l.writer.HoldingNil?
    case WriterStop => l.writer.Waiting? && l.signals > 0
    case WriterClose => l.writer.Failing?
    case WriterFlag => l.writer.Closing?
  }

  /** Steps of the writer goroutine; the others are the reader's. */
  predicate OfWriter(st: LinkStep) {
    st.Take? || st.WriteOut? || st.WriterStop? || st.WriterClose? || st.WriterFlag?
  }

  /** The cipher `write` finds when it looks at `aesgcm`. */
  function CurrentCipher(secret: Option<Cipher>, l: Link): Option<Cipher> {
    if l.ready then secret else None
  }

  /** `write`: the stream takes the frame whole, or only its first `taken` bytes, or nothing once it is closed. */
  function WriteState(secret: Option<Cipher>, l: Link, nonce: Nonce, taken: nat): (l': Link)
    requires l.writer.Holding? || l.writer.HoldingNil?
    ensures !l.streamOpen ==> l'.writer.Failing? && l'.wire == l.wire
    ensures l'.reader == l.reader && l'.ready == l.ready && l'.cryptoDone == l.cryptoDone
    ensures l'.accepted == l.accepted && l'.queueOpen == l.queueOpen
  {
    var message := if l.writer.Holding? then l.writer.message else [];
    var frame := EncodeFrame(CurrentCipher(secret, l), nonce, message);
    var out := Outgoing(message, nonce);
    var lost := if l.writer.Holding? then [out] else [];
    if !l.streamOpen then l.(writer := Failing(lost))
    else if taken < |frame| then l.(writer := Failing(lost), wire := l.wire + frame[..taken])
    else l.(writer := Waiting, wire := l.wire + frame, written := l.written + [out])
  }

  function WriterNext(secret: Option<Cipher>, l: Link, st: LinkStep): (l': Link)
    requires LinkEnabled(secret, l, st) && OfWriter(st)
    ensures l'.reader == l.reader && l'.ready == l.ready && l'.cryptoDone == l.cryptoDone
    ensures l'.accepted == l.accepted && l'.queueOpen == l.queueOpen
    ensures !st.WriteOut? ==> l'.wire == l.wire && l'.written == l.written && Lost(l'.writer) == Lost(l.writer)
  {
    match st
    case Take =>
      if l.queue != [] then l.(writer := Holding(l.queue[0]), queue := l.queue[1..])
      else l.(writer := HoldingNil)
    case WriteOut(nonce, taken) => WriteState(secret, l, nonce, taken)
    case WriterStop => l.(writer := Failing([]), signals := l.signals - 1)
    case WriterClose => l.(writer := Closing(l.writer.lost), streamOpen := false)
    case WriterFlag => l.(writer := Finished(l.writer.lost), isClosed := true)
  }

  function ReaderNext(secret: Option<Cipher>, l: Link, st: LinkStep): (l': Link)
    requires LinkEnabled(secret, l, st) && !OfWriter(st)
    ensures l'.writer == l.writer && l'.queue == l.queue && l'.accepted == l.accepted
    ensures l'.wire == l.wire && l'.written == l.written
    ensures l'.reader.Pinging? <==> l.reader.Pinging?
    ensures CleanedUp(l') <==> CleanedUp(l)
  {
    match st
    case CryptoOk => l.(reader := Reading, ready := secret.Some?, cryptoDone := true)
    case CryptoFail => l.(reader := Leaving)
    case ReadFail => l.(reader := Leaving)
    case ReaderClose => l.(reader := StreamClosed, streamOpen := false)
    case ReaderFlag => l.(reader := Flagged, isClosed := true)
    case StopSignal => l.(reader := Signalled, signals := l.signals + 1, stops := l.stops + 1)
    case StopClose => l.(reader := Stopped, queueOpen := false)
  }

  function LinkNext(secret: Option<Cipher>, l: Link, st: LinkStep): Link
    requires LinkEnabled(secret, l, st)
  {
    if OfWriter(st) then WriterNext(secret, l, st) else ReaderNext(secret, l, st)
  }

  /** `Write` from another goroutine: it blocks while the queue is full, and is dropped once the queue is closed. */
  predicate EnqueueEnabled(l: Link) {
    !l.queueOpen || |l.queue| < QUEUE_SIZE
  }

  function Enqueue(l: Link, data: Bytes): Link {
    if l.queueOpen then l.(queue := l.queue + [data], accepted := l.accepted + [data]) else l
  }

  /** `Stop` called by `SetConns` on an entry without a stream. */
  function ForcedStop(l: Link): Link {
    l.(signals := l.signals + 1, stops := l.stops + 1, queueOpen := false)
  }

  /** The read exit's cleanup has run. */
  predicate CleanedUp(l: Link) {
    l.reader.Cleaned? || l.reader.StreamClosed? || l.reader.Flagged? || l.reader.Signalled? || l.reader.Stopped?
  }

  function Lost(w: Writer): seq<Outgoing> {
    if w.Failing? || w.Closing? || w.Finished? then w.lost else []
  }

  /** The messages that have left the queue and are not written whole. */
  function InFlight(w: Writer): seq<Bytes> {
    if w.Holding? then [w.message] else Messages(Lost(w))
  }

  /** No message is lost, reordered or doubled between `Write` and the stream, and the queue is bounded. */
  ghost predicate Conserved(l: Link) {
    l.accepted == Messages(l.written) + InFlight(l.writer) + l.queue && |l.queue| <= QUEUE_SIZE
  }

  /** The wire holds the frames written whole, under the server's key, then at most the start of one more. */
  ghost predicate WireOk(secret: Option<Cipher>, l: Link) {
    var lost := Lost(l.writer);
    && |lost| <= 1
    && EncodeAll(secret, l.written) <= l.wire
    && l.wire <= EncodeAll(secret, l.written + lost)
  }

  ghost predicate CryptoOrder(secret: Option<Cipher>, l: Link) {
    && (l.reader.Starting? ==> !l.cryptoDone)
    && (l.reader.Reading? || l.reader.Pinging? ==> l.cryptoDone)
    && (if l.cryptoDone then l.ready == secret.Some? else !l.ready && l.accepted == [])
    && (secret.None? && !l.reader.Starting? ==> l.cryptoDone)
  }

  /** `Stop` runs once, last in the exit, on a connection that is already closed and flagged. */
  ghost predicate ExitOrder(l: Link) {
    && l.hasStream
    && (l.queueOpen <==> !l.reader.Stopped?)
    && l.stops == (if l.reader.Signalled? || l.reader.Stopped? then 1 else 0)
    && l.signals <= l.stops
    && (l.writer.Waiting? || l.writer.Holding? || l.writer.HoldingNil? ==> l.signals == l.stops)
    && (!l.streamOpen <==> (CleanedUp(l) && !l.reader.Cleaned?) || l.writer.Closing? || l.writer.Finished?)
    && (l.isClosed <==> l.reader.Flagged? || l.reader.Signalled? || l.reader.Stopped? || l.writer.Finished?)
    && (l.writer.HoldingNil? ==> !l.queueOpen && l.queue == [])
  }

  ghost predicate LinkOk(secret: Option<Cipher>, l: Link) {
    Conserved(l) && WireOk(secret, l) && CryptoOrder(secret, l) && ExitOrder(l)
  }

  lemma NewLinkOk(secret: Option<Cipher>)
    ensures LinkOk(secret, NewLink)
  {
  }

  /** Until a write fails, the wire is exactly the frames of the written messages. */
  lemma WireIsWritten(secret: Option<Cipher>, l: Link)
    requires WireOk(secret, l) && Lost(l.writer) == []
    ensures l.wire == EncodeAll(secret, l.written)
  {
    assert l.written + [] == l.written;
  }

  lemma WriteKeepsWireOk(secret: Option<Cipher>, l: Link, nonce: Nonce, taken: nat)
    requires WireOk(secret, l) && l.writer.Holding?
    requires CurrentCipher(secret, l) == secret
    ensures WireOk(secret, WriteState(secret, l, nonce, taken))
  {
    hide EncodeFrame, EncodeAll;
    WireIsWritten(secret, l);
    EncodeAllSnoc(secret, l.written, Outgoing(l.writer.message, nonce));
    assert forall sent: seq<Outgoing> :: sent + [] == sent;
  }

  lemma WriteKeepsConserved(secret: Option<Cipher>, l: Link, nonce: Nonce, taken: nat)
    requires Conserved(l) && l.writer.Holding?
    ensures Conserved(WriteState(secret, l, nonce, taken))
  {
    var out := Outgoing(l.writer.message, nonce);
    assert Messages([out]) == [l.writer.message] && Messages([]) == [];
    MessagesAppend(l.written, [out]);
    WriteMovesOne(secret, l, nonce, taken);
    hide WriteState, Messages;
  }

  /** `write` either adds the message to what was written whole, or loses it and ends the loop. */
  lemma WriteMovesOne(secret: Option<Cipher>, l: Link, nonce: Nonce, taken: nat)
    requires l.writer.Holding?
    ensures var l', out := WriteState(secret, l, nonce, taken), Outgoing(l.writer.message, nonce);
            && l'.queue == l.queue
            && ((l'.writer == Waiting && l'.written == l.written + [out])
                || (l'.writer == Failing([out]) && l'.written == l.written))
  {
    hide EncodeFrame;
  }

  lemma WriteKeepsLinkOk(secret: Option<Cipher>, l: Link, nonce: Nonce, taken: nat)
    requires LinkOk(secret, l) && (l.writer.Holding? || l.writer.HoldingNil?)
    ensures LinkOk(secret, WriteState(secret, l, nonce, taken))
  {
    hide EncodeFrame, EncodeAll, Messages;
    if l.writer.Holding? {
      assert l.accepted != [];
      WriteKeepsConserved(secret, l, nonce, taken);
      WriteKeepsWireOk(secret, l, nonce, taken);
    }
  }

  lemma ReaderKeepsOrder(secret: Option<Cipher>, l: Link, st: LinkStep)
    requires CryptoOrder(secret, l) && ExitOrder(l) && LinkEnabled(secret, l, st) && !OfWriter(st)
    ensures CryptoOrder(secret, ReaderNext(secret, l, st)) && ExitOrder(ReaderNext(secret, l, st))
  {
  }

  lemma WriterKeepsOrder(secret: Option<Cipher>, l: Link, st: LinkStep)
    requires CryptoOrder(secret, l) && ExitOrder(l) && LinkEnabled(secret, l, st) && OfWriter(st) && !st.WriteOut?
    ensures CryptoOrder(secret, WriterNext(secret, l, st)) && ExitOrder(WriterNext(secret, l, st))
  {
    hide WriteState;
  }

  lemma LinkStepKeepsLinkOk(secret: Option<Cipher>, l: Link, st: LinkStep)
    requires LinkOk(secret, l) && LinkEnabled(secret, l, st)
    ensures LinkOk(secret, LinkNext(secret, l, st))
  {
    if st.WriteOut? {
      hide LinkOk, WriteState;
      WriteKeepsLinkOk(secret, l, st.nonce, st.taken) by { hide *; }
    } else {
      hide Conserved, WireOk, CryptoOrder, ExitOrder, ReaderNext, WriterNext;
      StepKeepsConserved(secret, l, st);
      StepKeepsWireOk(secret, l, st);
      if OfWriter(st) {
        WriterKeepsOrder(secret, l, st);
      } else {
        ReaderKeepsOrder(secret, l, st);
      }
    }
  }

  lemma StepKeepsWireOk(secret: Option<Cipher>, l: Link, st: LinkStep)
    requires WireOk(secret, l) && LinkEnabled(secret, l, st) && !st.WriteOut?
    ensures WireOk(secret, LinkNext(secret, l, st))
  {
    StepLeavesWire(secret, l, st);
    hide LinkNext, LinkEnabled, EncodeAll, Lost;
  }

  lemma StepLeavesWire(secret: Option<Cipher>, l: Link, st: LinkStep)
    requires LinkEnabled(secret, l, st) && !st.WriteOut?
    ensures var l' := LinkNext(secret, l, st);
            l'.wire == l.wire && l'.written == l.written && Lost(l'.writer) == Lost(l.writer)
  {
    hide WriterNext, ReaderNext;
  }

  lemma StepKeepsConserved(secret: Option<Cipher>, l: Link, st: LinkStep)
    requires Conserved(l) && LinkEnabled(secret, l, st) && !st.WriteOut?
    ensures Conserved(LinkNext(secret, l, st))
  {
    hide EncodeFrame;
    if st.Take? && l.queue != [] {
      assert l.queue == [l.queue[0]] + l.queue[1..];
    }
  }

  /** Queueing keeps the invariants on a connection whose `crypto()` has finished. */
  lemma EnqueueKeepsLinkOk(secret: Option<Cipher>, l: Link, data: Bytes)
    requires LinkOk(secret, l) && l.cryptoDone && EnqueueEnabled(l)
    ensures LinkOk(secret, Enqueue(l, data))
  {
    hide EncodeAll;
    assert Messages(l.written) + InFlight(l.writer) + (l.queue + [data])
        == Messages(l.written) + InFlight(l.writer) + l.queue + [data];
  }

  /** What never reverts in a connection's life. */
  ghost predicate Later(l: Link, l': Link) {
    && (l.isClosed ==> l'.isClosed)
    && (!l.streamOpen ==> !l'.streamOpen)
    && (CleanedUp(l) ==> CleanedUp(l'))
    && (l.cryptoDone ==> l'.cryptoDone)
    && l.accepted <= l'.accepted
    && l.wire <= l'.wire
  }

  lemma LinkStepIsLater(secret: Option<Cipher>, l: Link, st: LinkStep)
    requires LinkEnabled(secret, l, st)
    ensures Later(l, LinkNext(secret, l, st))
  {
    if st.WriteOut? {
      hide EncodeFrame;
    } else {
      hide WriteState;
    }
  }

  /** How far the writer is from its end once the stream is closed. */
  function WriterRank(w: Writer): nat {
    match w
    case Waiting => 4
    case Holding(_) => 3
    case HoldingNil => 3
    case Failing(_) => 2
    case Closing(_) => 1
    case Finished(_) => 0
  }

  /** Raising the close signal never blocks: nobody has raised it before. */
  lemma StopNeverBlocks(secret: Option<Cipher>, l: Link)
    requires LinkOk(secret, l) && l.reader.Flagged?
    ensures LinkEnabled(secret, l, StopSignal)
  {
  }

  /** Once `Stop` has raised the signal it stays up until the writer takes it: a waiting writer can stop at once. */
  lemma SignalWaitsForWriter(secret: Option<Cipher>, l: Link)
    requires LinkOk(secret, l) && (l.reader.Signalled? || l.reader.Stopped?) && l.writer.Waiting?
    ensures LinkEnabled(secret, l, WriterStop)
  {
  }

  /** The signal is there once: it can be raised only while it is down, and it is down again when the writer took it. */
  lemma SignalTakenOnce(secret: Option<Cipher>, l: Link)
    requires LinkOk(secret, l)
    ensures LinkEnabled(secret, l, StopSignal) <==> l.reader.Flagged?
    ensures LinkEnabled(secret, l, StopSignal) ==> l.signals == 0 && LinkNext(secret, l, StopSignal).signals == 1
    ensures LinkEnabled(secret, l, WriterStop) ==> l.signals == 1 && LinkNext(secret, l, WriterStop).signals == 0
  {
  }

  /**
   * The nil that a receive from the closed queue gives is never written: the stream is closed by then. On an open one
   * it would have been an empty frame.
   */
  lemma NilNeverWritten(secret: Option<Cipher>, l: Link, nonce: Nonce, taken: nat)
    requires l.writer.HoldingNil?
    ensures LinkOk(secret, l) ==>
              WriteState(secret, l, nonce, taken).writer.Failing? && WriteState(secret, l, nonce, taken).wire == l.wire
    ensures l.streamOpen && taken >= |EncodeFrame(CurrentCipher(secret, l), nonce, [])| ==>
              WriteState(secret, l, nonce, taken).wire == l.wire + EncodeFrame(CurrentCipher(secret, l), nonce, [])
  {
    hide EncodeFrame, EncodeAll, Conserved, WireOk;
  }

  /** A raised signal blocks whoever would raise it again: its channel holds one element. */
  lemma RaisedSignalBlocks(secret: Option<Cipher>, l: Link)
    requires l.signals > 0
    ensures !LinkEnabled(secret, l, StopSignal)
  {
  }

  /** A message is written whole, and the writer goes on, if and only if the open stream takes all of its frame. */
  lemma WrittenExactly(secret: Option<Cipher>, l: Link, nonce: Nonce, taken: nat)
    requires LinkOk(secret, l) && l.writer.Holding?
    ensures var l', frame := WriteState(secret, l, nonce, taken), EncodeFrame(secret, nonce, l.writer.message);
            && (l'.writer.Waiting? <==> l.streamOpen && taken >= |frame|)
            && (l'.writer.Waiting? ==>
                  l'.wire == l.wire + frame && l'.written == l.written + [Outgoing(l.writer.message, nonce)])
            && (!l'.writer.Waiting? ==> l'.writer.Failing? && l'.written == l.written)
            && (!l.streamOpen ==> l'.wire == l.wire)
  {
    hide Conserved, WireOk, ExitOrder;
    assert CurrentCipher(secret, l) == secret by { AcceptedWhenReady(secret, l); }
    hide EncodeFrame;
  }

  lemma AcceptedWhenReady(secret: Option<Cipher>, l: Link)
    requires LinkOk(secret, l) && l.writer.Holding?
    ensures CurrentCipher(secret, l) == secret
  {
    assert l.accepted != [];
    hide EncodeAll, EncodeFrame;
  }

  /** How many steps the writer still has to take to write out what is queued. */
  function DrainRank(l: Link): nat {
    2 * |l.queue| + if l.writer.Holding? then 1 else 0
  }

  /** Before `Stop`, with a stream that takes everything, the writer has a step while anything is left to write. */
  lemma DrainHasStep(secret: Option<Cipher>, l: Link, nonce: Nonce)
    requires LinkOk(secret, l) && l.queueOpen && (l.writer.Waiting? || l.writer.Holding?) && DrainRank(l) > 0
    ensures LinkEnabled(secret, l, if l.writer.Waiting? then Take else WriteOut(nonce, 0))
  {
  }

  /** Such a step brings it nearer to its end and loses nothing; at the end everything accepted is on the wire. */
  lemma DrainStep(secret: Option<Cipher>, l: Link, st: LinkStep)
    requires LinkOk(secret, l) && l.streamOpen && l.signals == 0 && l.queueOpen
    requires l.writer.Waiting? || l.writer.Holding?
    requires LinkEnabled(secret, l, st) && OfWriter(st)
    requires st.WriteOut? && l.writer.Holding? ==> st.taken >= |EncodeFrame(secret, st.nonce, l.writer.message)|
    ensures var l' := LinkNext(secret, l, st);
            && (l'.writer.Waiting? || l'.writer.Holding?) && l'.streamOpen && l'.signals == 0 && l'.queueOpen
            && DrainRank(l') < DrainRank(l)
  {
    if st.WriteOut? {
      WrittenExactly(secret, l, st.nonce, st.taken);
    }
    hide EncodeFrame, EncodeAll, Conserved, WireOk;
  }

  lemma Drained(secret: Option<Cipher>, l: Link)
    requires LinkOk(secret, l) && (l.writer.Waiting? || l.writer.Holding?) && DrainRank(l) == 0
    ensures Messages(l.written) == l.accepted && l.wire == EncodeAll(secret, l.written)
  {
    WireIsWritten(secret, l);
    hide EncodeAll, Messages;
    assert Messages([]) == [] by { MessagesAppend([], []); }
  }

  /** A third message waits: the queue has room for two. */
  lemma QueueHoldsTwo(l: Link)
    ensures EnqueueEnabled(l) <==> !l.queueOpen || |l.queue| <= 1
  {
  }

  lemma StoppedLink(secret: Option<Cipher>, l: Link)
    requires LinkOk(secret, l) && l.reader.Stopped?
    ensures !l.queueOpen && !l.streamOpen
  {
  }

  lemma StoppedWriterMoves(secret: Option<Cipher>, l: Link, st: LinkStep)
    requires !l.streamOpen && LinkEnabled(secret, l, st) && OfWriter(st)
    ensures var l' := LinkNext(secret, l, st); WriterRank(l'.writer) < WriterRank(l.writer) && l'.wire == l.wire
  {
    hide WriteState, ReaderNext;
  }

  /**
   * After `Stop` the writer always has a step to take, and every step it takes brings it nearer to its end, so it
   * ends within four steps, whatever is still queued; none of them puts a byte on the wire.
   */
  lemma StopEndsWriter(secret: Option<Cipher>, l: Link, nonce: Nonce)
    requires LinkOk(secret, l) && l.reader.Stopped?
    ensures !l.writer.Finished? ==>
              exists st :: st in {Take, WriteOut(nonce, 0), WriterClose, WriterFlag} && LinkEnabled(secret, l, st)
    ensures forall st :: LinkEnabled(secret, l, st) && OfWriter(st) ==>
              var l' := LinkNext(secret, l, st);
              WriterRank(l'.writer) < WriterRank(l.writer) && l'.wire == l.wire
  {
    StoppedLink(secret, l);
    hide LinkOk, LinkNext, WriterNext;
    forall st | LinkEnabled(secret, l, st) && OfWriter(st)
      ensures var l' := LinkNext(secret, l, st); WriterRank(l'.writer) < WriterRank(l.writer) && l'.wire == l.wire
    {
      StoppedWriterMoves(secret, l, st);
    }
    match l.writer {
      case Waiting => assert LinkEnabled(secret, l, Take);
      case Holding(_) => assert LinkEnabled(secret, l, WriteOut(nonce, 0));
      case HoldingNil => assert LinkEnabled(secret, l, WriteOut(nonce, 0));
      case Failing(_) => assert LinkEnabled(secret, l, WriterClose);
      case Closing(_) => assert LinkEnabled(secret, l, WriterFlag);
      case Finished(_) =>
    }
  }

  /** How far a connection with a full queue is from accepting a message, or dropping it. */
  function BlockedRank(l: Link): nat {
    10 * (match l.writer
          case Holding(_) => 4
          case HoldingNil => 4
          case Waiting => 3
          case Failing(_) => 2
          case Closing(_) => 1
          case Finished(_) => 0)
    + match l.reader
      case Starting => 8
      case Pinging(_, _) => 8
      case Reading => 7
      case Leaving => 6
      case Cleaned => 5
      case StreamClosed => 4
      case Flagged => 3
      case Signalled => 2
      case Stopped => 1
  }

  /** While the queue is full, every step of the connection's own goroutines ends that or brings its end nearer. */
  lemma BlockedStepsProgress(secret: Option<Cipher>, l: Link, st: LinkStep)
    requires |l.queue| == QUEUE_SIZE && l.queueOpen && LinkEnabled(secret, l, st)
    ensures var l' := LinkNext(secret, l, st); EnqueueEnabled(l') || BlockedRank(l') < BlockedRank(l)
  {
    hide EncodeFrame;
  }

  /**
   * While the queue is full the writer has a step, or has finished with the stream closed and the flag set, and then
   * the reader has not stopped yet: it has a step, or is in a ping handler or about to clean up.
   */
  lemma BlockedCanMove(secret: Option<Cipher>, l: Link, nonce: Nonce)
    requires LinkOk(secret, l) && !EnqueueEnabled(l)
    ensures !l.writer.Finished? ==> exists st :: OfWriter(st) && LinkEnabled(secret, l, st)
    ensures l.writer.Finished? ==> !l.streamOpen && l.isClosed
    ensures !l.reader.Stopped?
    ensures l.reader.Pinging? || l.reader.Leaving? || exists st :: !OfWriter(st) && LinkEnabled(secret, l, st)
  {
    hide EncodeFrame, EncodeAll, Messages, Conserved, WireOk;
    var writerStep :=
      if l.writer.Waiting? then Take
      else if l.writer.Failing? then WriterClose
      else if l.writer.Closing? then WriterFlag
      else WriteOut(nonce, 0);
    assert !l.writer.Finished? ==> OfWriter(writerStep) && LinkEnabled(secret, l, writerStep);
    var readerStep :=
      if l.reader.Starting? then CryptoOk
      else if l.reader.Cleaned? then ReaderClose
      else if l.reader.StreamClosed? then ReaderFlag
      else if l.reader.Flagged? then StopSignal
      else if l.reader.Signalled? then StopClose
      else ReadFail;
    assert !l.reader.Pinging? && !l.reader.Leaving? ==> !OfWriter(readerStep) && LinkEnabled(secret, l, readerStep);
  }

  /**
   * End to end: however much of the wire reaches the client, its read loop delivers a prefix of the messages
   * that `Write` accepted, in order, and stops with a short read.
   */
  lemma ClientReadsAcceptedPrefix(secret: Option<Cipher>, l: Link, k: nat)
    requires LinkOk(secret, l) && k <= |l.wire|
    requires forall i :: 0 <= i < |l.accepted| ==> Fits(secret, l.accepted[i])
    ensures var (got, end) := DecodeAll(secret, l.wire[..k]);
            got <= l.accepted && end.Short?
  {
    hide DecodeAll, EncodeAll;
    var sent := l.written + Lost(l.writer);
    MessagesAppend(l.written, Lost(l.writer));
    assert Messages([]) == [];
    assert Messages(sent) <= l.accepted;
    forall i | 0 <= i < |sent| ensures Fits(secret, sent[i].message) {
      assert Messages(sent)[i] == l.accepted[i];
    }
    StreamCut(secret, secret, sent, k);
    assert l.wire[..k] == EncodeAll(secret, sent)[..k];
  }
}
