/**
 The child-process stream (internal/backend/stream.go and run in internal/backend/backend.go) as a
 state machine: the process, the reader goroutine, the consuming loop and its deferred close meet
 over an unbuffered channel, under two nested cancellable contexts. A run is any interleaving of
 the steps below. A step is one atomic action; its guard is Enabled and its effect is Apply.
 */
module Stream {
  import opened Wrappers
  import opened Text
  import opened Lengths

  /** A line without the newline that ends it. */
  type Line = string

  predicate IsLine(l: Line) { '\n' !in l }

  predicate Blank(l: Line) { Trim(l) == "" }

  datatype Process = Running | Exited(clean: bool) | Killed

  /** Where the reader goroutine is; the flags are the error values it carries. */
  datatype Reader =
    | Scanning
    | Offering(line: Line)
    | Stopped(readErr: bool)
    | Waiting(readErr: bool)
    | OfferingEnd(readErr: bool, exitErr: bool)
    | ClosingEvents
    | ClosingDone
    | Finished

  datatype Event = LineEvent(line: Line) | EndEvent(readErr: bool, exitErr: bool)

  /** Where run is: in its loop, past its last look at the context, or on its way out with its result. */
  datatype Consumer =
    | Selecting
    | Got(event: Event)
    | Checking
    | Leaving(ok: bool)
    | ClosingPipe(ok: bool)
    | Joining(ok: bool)
    | Returned(ok: bool)

  /**
   written holds the complete lines in the pipe, torn the piece of a line a killed process left,
   readable how many lines a closed pipe may still yield from the scanner's buffer.
   */
  datatype State = State(
    maxRows: nat,
    process: Process, outputOpen: bool, written: seq<Line>, torn: Option<Line>,
    consumed: nat, tornRead: bool, total: nat, readable: Option<nat>,
    timedOut: bool, cancelled: bool,
    reader: Reader, waits: nat, eventsClosed: nat, doneClosed: nat,
    consumer: Consumer, handled: seq<Line>, sameIdentity: bool)

  datatype Step =
    | Write(line: Line) | EndOutput | Exit(clean: bool) | Kill(fragment: Option<Line>)
    | ScanLine | ScanTorn | ScanEnd | ScanError | DropLine
    | StartWait | WaitReturns(err: bool) | DropEnd | CloseEvents | CloseDone
    | Receive | ReceiveClosed | NoticeTimeout | Decide(handlerOk: bool) | CheckIdentity(identityOk: bool)
    | CancelStream | ClosePipe | Join
    | Timeout

  function Start(maxRows: nat): State {
    State(maxRows, Running, true, [], None, 0, false, 0, None, false, false, Scanning, 0, 0, 0, Selecting, [], false)
  }

  /** The stream's context is a child of run's: either cancellation ends it. */
  predicate ContextDone(s: State) { s.timedOut || s.cancelled }

  function Available(s: State): nat {
    if s.readable.Some? && s.readable.value < |s.written| then s.readable.value else |s.written|
  }

  predicate Enabled(s: State, step: Step) {
    match step
    case Write(l) => s.process.Running? && s.outputOpen && IsLine(l)
    case EndOutput => s.process.Running? && s.outputOpen
    case Exit(_) => s.process.Running?
    case Kill(f) => s.process.Running? && (f.Some? ==> s.outputOpen && IsLine(f.value))
    case ScanLine => s.reader.Scanning? && s.consumed < Available(s)
    case ScanTorn => s.reader.Scanning? && s.readable.None? && s.consumed == |s.written| && s.torn.Some? && !s.tornRead
    case ScanEnd =>
      && s.reader.Scanning? && s.readable.None? && !s.outputOpen && s.consumed == |s.written|
      && (s.torn.Some? ==> s.tornRead)
    case ScanError => s.reader.Scanning?
    case DropLine => s.reader.Offering? && ContextDone(s)
    case StartWait => s.reader.Stopped?
    case WaitReturns(err) => s.reader.Waiting? && !s.process.Running? && (s.process != Exited(true) ==> err)
    case DropEnd => s.reader.OfferingEnd? && ContextDone(s)
    case CloseEvents => s.reader.ClosingEvents?
    case CloseDone => s.reader.ClosingDone?
    case Receive => s.consumer.Selecting? && (s.reader.Offering? || s.reader.OfferingEnd?)
    case ReceiveClosed => s.consumer.Selecting? && s.eventsClosed > 0
    case NoticeTimeout => s.consumer.Selecting? && s.timedOut
    case Decide(_) => s.consumer.Got?
    case CheckIdentity(_) => s.consumer.Checking?
    case CancelStream => s.consumer.Leaving?
    case ClosePipe => s.consumer.ClosingPipe?
    case Join => s.consumer.Joining? && s.doneClosed > 0
    case Timeout => true
  }

  /** The scanner gives up on a line too long for its buffer; blank lines count, but are not offered. */
  function Scanned(s: State, l: Line): State {
    var total := s.total + ByteLen(l) + 1;
    s.(total := total, reader := AfterScan(total, l))
  }

  function AfterScan(total: nat, l: Line): Reader {
    if ByteLen(l) >= MAX_LINE || total > MAX_OUTPUT then Stopped(true) else if Blank(l) then Scanning else Offering(l)
  }

  /** Does the consuming loop go on after this line? */
  predicate Handles(s: State, handlerOk: bool)
    requires s.consumer.Got? && s.consumer.event.LineEvent?
  {
    !s.timedOut && |s.handled| < s.maxRows && handlerOk
  }

  /** Does the final event lead to the identity check? */
  predicate EndsWell(s: State)
    requires s.consumer.Got? && s.consumer.event.EndEvent?
  {
    !s.timedOut && !s.consumer.event.readErr && !s.consumer.event.exitErr
  }

  /** One turn of the consuming loop, after an event was received. */
  function Decided(s: State, handlerOk: bool): State
    requires s.consumer.Got?
  {
    match s.consumer.event
    case LineEvent(l) =>
      if Handles(s, handlerOk) then s.(consumer := Selecting, handled := s.handled + [l])
      else s.(consumer := Leaving(false))
    case EndEvent(_, _) => s.(consumer := if EndsWell(s) then Checking else Leaving(false))
  }

  function Apply(s: State, step: Step): State
    requires Enabled(s, step)
  {
    match step
    case Write(l) => s.(written := s.written + [l])
    case EndOutput => s.(outputOpen := false)
    case Exit(clean) => s.(process := Exited(clean), outputOpen := false)
    case Kill(f) => s.(process := Killed, outputOpen := false, torn := f)
    case ScanLine => Scanned(s.(consumed := s.consumed + 1), s.written[s.consumed])
    case ScanTorn => Scanned(s.(tornRead := true), s.torn.value)
    case ScanEnd => s.(reader := Stopped(false))
    case ScanError => s.(reader := Stopped(true))
    case DropLine => s.(reader := Stopped(false))
    case StartWait =>
      var killing := (s.reader.readErr || ContextDone(s)) && s.process.Running?;
      s.(reader := Waiting(s.reader.readErr),
         process := if killing then Killed else s.process,
         outputOpen := s.outputOpen && !killing)
    case WaitReturns(err) => s.(reader := OfferingEnd(s.reader.readErr, err), waits := s.waits + 1)
    case DropEnd => s.(reader := ClosingEvents)
    case CloseEvents => s.(reader := ClosingDone, eventsClosed := s.eventsClosed + 1)
    case CloseDone => s.(reader := Finished, doneClosed := s.doneClosed + 1)
    case Receive =>
      if s.reader.Offering? then s.(reader := Scanning, consumer := Got(LineEvent(s.reader.line)))
      else s.(reader := ClosingEvents, consumer := Got(EndEvent(s.reader.readErr, s.reader.exitErr)))
    case ReceiveClosed => s.(consumer := Leaving(false))
    case NoticeTimeout => s.(consumer := Leaving(false))
    case Decide(handlerOk) => Decided(s, handlerOk)
    case CheckIdentity(identityOk) => s.(consumer := Leaving(identityOk), sameIdentity := identityOk)
    case CancelStream => s.(cancelled := true, consumer := ClosingPipe(s.consumer.ok))
    case ClosePipe => s.(readable := Some(|s.written|), consumer := Joining(s.consumer.ok))
    case Join => s.(consumer := Returned(s.consumer.ok))
    case Timeout => s.(timedOut := true)
  }

  ghost predicate ValidRun(s: State, steps: seq<Step>)
    decreases |steps|
  {
    steps == [] || (Enabled(s, steps[0]) && ValidRun(Apply(s, steps[0]), steps[1..]))
  }

  function Run(s: State, steps: seq<Step>): State
    requires ValidRun(s, steps)
    decreases |steps|
  {
    if steps == [] then s else Run(Apply(s, steps[0]), steps[1..])
  }

  // --------------------------------------------------------------- invariant

  function NonBlank(lines: seq<Line>): seq<Line> {
    if lines == [] then []
    else NonBlank(lines[..|lines| - 1]) + if Blank(lines[|lines| - 1]) then [] else [lines[|lines| - 1]]
  }

  /** The lines with their newlines. */
  function Size(lines: seq<Line>): nat {
    if lines == [] then 0 else Size(lines[..|lines| - 1]) + ByteLen(lines[|lines| - 1]) + 1
  }

  predicate ShortLines(lines: seq<Line>) { forall l | l in lines :: ByteLen(l) < MAX_LINE }

  /** What the scanner has been given so far. */
  function ScannedLines(s: State): seq<Line>
    requires s.consumed <= |s.written|
  {
    s.written[..s.consumed] + if s.tornRead && s.torn.Some? then [s.torn.value] else []
  }

  predicate Active(c: Consumer) { c.Selecting? || c.Got? }

  predicate Succeeding(c: Consumer) { (c.Leaving? || c.ClosingPipe? || c.Joining? || c.Returned?) && c.ok }

  predicate DoneReading(r: Reader) { (r.Stopped? || r.Waiting? || r.OfferingEnd?) && !r.readErr }

  predicate PastScanning(r: Reader) { r.ClosingEvents? || r.ClosingDone? || r.Finished? }

  function WithConsumer(s: State): seq<Line> {
    if s.consumer.Got? && s.consumer.event.LineEvent? then [s.consumer.event.line] else []
  }

  function WithReader(s: State): seq<Line> { if s.reader.Offering? then [s.reader.line] else [] }

  /** Nothing the process wrote is still unread, and every line was handed on, in order. */
  ghost predicate EverythingRead(s: State) {
    && s.consumed == |s.written| && !s.outputOpen && (s.torn.Some? ==> s.tornRead) && s.total <= MAX_OUTPUT
    && ShortLines(ScannedLines(s))
    && s.handled + WithConsumer(s) == NonBlank(ScannedLines(s))
  }

  ghost predicate ProcessFacts(s: State) {
    && s.consumed <= |s.written| && s.total == Size(ScannedLines(s))
    && (s.tornRead ==> s.torn.Some? && s.consumed == |s.written|)
    && (s.torn.Some? ==> s.process == Killed)
    && (!s.process.Running? ==> !s.outputOpen)
  }

  ghost predicate ShutdownFacts(s: State) {
    && s.waits == (if s.reader.OfferingEnd? || PastScanning(s.reader) then 1 else 0)
    && s.eventsClosed == (if s.reader.ClosingDone? || s.reader.Finished? then 1 else 0)
    && s.doneClosed == (if s.reader.Finished? then 1 else 0)
    && (s.reader.OfferingEnd? || PastScanning(s.reader) ==> !s.process.Running?)
    && (s.cancelled <==> s.consumer.ClosingPipe? || s.consumer.Joining? || s.consumer.Returned?)
    && (s.readable.Some? <==> s.consumer.Joining? || s.consumer.Returned?)
    && (s.readable.Some? ==> s.readable.value <= |s.written|)
    && (s.consumer.Returned? ==> s.reader.Finished?)
  }

  ghost predicate DeliveryFacts(s: State)
    requires ProcessFacts(s)
  {
    && |s.handled| <= s.maxRows
    && (Active(s.consumer) && (s.reader.Scanning? || s.reader.Offering?) ==>
          && s.total <= MAX_OUTPUT && ShortLines(ScannedLines(s))
          && s.handled + WithConsumer(s) + WithReader(s) == NonBlank(ScannedLines(s)))
    && (Active(s.consumer) && DoneReading(s.reader) ==> s.timedOut || EverythingRead(s))
    && (s.reader.OfferingEnd? && !s.reader.exitErr ==> s.process == Exited(true))
    && (s.consumer.Got? && s.consumer.event.EndEvent? ==>
          && PastScanning(s.reader)
          && (!s.consumer.event.exitErr ==> s.process == Exited(true))
          && (!s.consumer.event.readErr ==> s.timedOut || EverythingRead(s)))
    && (s.consumer.Checking? || Succeeding(s.consumer) ==>
          PastScanning(s.reader) && s.process == Exited(true) && EverythingRead(s))
    && (Succeeding(s.consumer) ==> s.sameIdentity)
  }

  ghost predicate Inv(s: State) { ProcessFacts(s) && ShutdownFacts(s) && DeliveryFacts(s) }

  lemma NonBlankAppend(lines: seq<Line>, l: Line)
    ensures NonBlank(lines + [l]) == NonBlank(lines) + if Blank(l) then [] else [l]
    ensures Size(lines + [l]) == Size(lines) + ByteLen(l) + 1
    ensures ShortLines(lines + [l]) <==> ShortLines(lines) && ByteLen(l) < MAX_LINE
  {
    assert (lines + [l])[..|lines|] == lines;
    assert l in lines + [l] && forall k | k in lines :: k in lines + [l];
  }

  /** One more line was scanned. */
  ghost predicate Extends(t: State, s: State, l: Line)
    requires s.consumed <= |s.written| && t.consumed <= |t.written|
  {
    ScannedLines(t) == ScannedLines(s) + [l]
  }

  lemma PrefixGrows(lines: seq<Line>, n: nat)
    requires n < |lines|
    ensures lines[..n + 1] == lines[..n] + [lines[n]]
  {
  }

  lemma ScanLineExtends(s: State)
    requires ProcessFacts(s) && Enabled(s, ScanLine)
    ensures ProcessFacts(Apply(s, ScanLine)) && Extends(Apply(s, ScanLine), s, s.written[s.consumed])
  {
    var t, read, l := Apply(s, ScanLine), s.written[..s.consumed], s.written[s.consumed];
    OneMoreScanned(s, t, l);
    NonBlankAppend(read, l);
    assert ScannedLines(s) == read;
  }

  lemma OneMoreScanned(s: State, t: State, l: Line)
    requires s.consumed < |s.written| && l == s.written[s.consumed] && !s.tornRead
    requires t.written == s.written && t.consumed == s.consumed + 1 && !t.tornRead
    ensures ScannedLines(t) == ScannedLines(s) + [l]
  {
    PrefixGrows(s.written, s.consumed);
    NoTail(s.written[..s.consumed]);
    NoTail(t.written[..t.consumed]);
  }

  lemma NoTail(lines: seq<Line>)
    ensures lines + [] == lines
  {
  }

  lemma ScanTornExtends(s: State)
    requires ProcessFacts(s) && Enabled(s, ScanTorn)
    ensures ProcessFacts(Apply(s, ScanTorn)) && Extends(Apply(s, ScanTorn), s, s.torn.value)
  {
    var read := s.written[..s.consumed];
    NoTail(read);
    NonBlankAppend(read, s.torn.value);
  }

  lemma ProcessKeepsProcess(s: State, step: Step)
    requires ProcessFacts(s) && Enabled(s, step) && IsProcessStep(step)
    ensures ProcessFacts(Apply(s, step))
  {
    assert ScannedLines(Apply(s, step)) == ScannedLines(s);
  }

  lemma StepKeepsProcess(s: State, step: Step)
    requires ProcessFacts(s) && Enabled(s, step)
    ensures ProcessFacts(Apply(s, step))
  {
    if IsProcessStep(step) {
      ProcessKeepsProcess(s, step);
    } else if step.ScanLine? {
      ScanLineExtends(s);
    } else if step.ScanTorn? {
      ScanTornExtends(s);
    } else if step.Decide? {
      DecideFrame(s, step.handlerOk);
      assert ScannedLines(Apply(s, step)) == ScannedLines(s);
    } else {
      OthersKeepProcess(s, step);
    }
  }

  lemma OthersKeepProcess(s: State, step: Step)
    requires ProcessFacts(s) && Enabled(s, step) && (IsReaderStep(step) || IsLeavingStep(step) || step.Receive?)
    ensures ProcessFacts(Apply(s, step))
  {
    assert ScannedLines(Apply(s, step)) == ScannedLines(s);
  }

  lemma ReaderKeepsShutdown(s: State, step: Step)
    requires ShutdownFacts(s) && Enabled(s, step) && IsReaderStep(step)
    ensures ShutdownFacts(Apply(s, step))
  {
  }

  lemma ScanKeepsShutdown(s: State, step: Step)
    requires ShutdownFacts(s) && Enabled(s, step) && (step.ScanLine? || step.ScanTorn?)
    ensures ShutdownFacts(Apply(s, step))
  {
    var t := Apply(s, step);
    assert t.reader.Stopped? || t.reader.Scanning? || t.reader.Offering?;
  }

  lemma ProcessKeepsShutdown(s: State, step: Step)
    requires ShutdownFacts(s) && Enabled(s, step) && IsProcessStep(step)
    ensures ShutdownFacts(Apply(s, step))
  {
  }

  lemma ReceiveKeepsShutdown(s: State)
    requires ShutdownFacts(s) && Enabled(s, Receive)
    ensures ShutdownFacts(Apply(s, Receive))
  {
  }

  /** What a turn of the loop may change: its own place, and the lines handled. */
  predicate OnlyDecided(s: State, t: State) { t.(consumer := s.consumer, handled := s.handled) == s }

  lemma DecideLine(s: State, handlerOk: bool)
    requires s.consumer.Got? && s.consumer.event.LineEvent?
    ensures var t := Decided(s, handlerOk);
            && OnlyDecided(s, t) && (t.consumer.Selecting? || t.consumer == Leaving(false))
            && (t.consumer.Selecting? ==> |t.handled| <= s.maxRows && t.handled == s.handled + WithConsumer(s))
            && (!t.consumer.Selecting? ==> t.handled == s.handled)
  {
  }

  lemma DecideEnd(s: State, handlerOk: bool)
    requires s.consumer.Got? && s.consumer.event.EndEvent?
    ensures var t := Decided(s, handlerOk);
            && OnlyDecided(s, t) && (t.consumer.Checking? || t.consumer == Leaving(false)) && t.handled == s.handled
            && (t.consumer.Checking? ==> !s.timedOut && s.consumer.event == EndEvent(false, false))
  {
  }

  lemma DecideFrame(s: State, handlerOk: bool)
    requires s.consumer.Got?
    ensures var t := Decided(s, handlerOk);
            && OnlyDecided(s, t)
            && (t.consumer.Selecting? || t.consumer.Checking? || t.consumer == Leaving(false))
            && (t.consumer.Selecting? ==> |t.handled| <= s.maxRows && t.handled == s.handled + WithConsumer(s))
            && (!t.consumer.Selecting? ==> t.handled == s.handled)
            && (t.consumer.Checking? ==> !s.timedOut && s.consumer.event == EndEvent(false, false))
  {
    if s.consumer.event.LineEvent? {
      DecideLine(s, handlerOk);
    } else {
      DecideEnd(s, handlerOk);
    }
  }

  lemma DecideKeepsShutdown(s: State, t: State)
    requires ShutdownFacts(s) && s.consumer.Got?
    requires t.consumer.Selecting? || t.consumer.Checking? || t.consumer.Leaving?
    requires OnlyDecided(s, t)
    ensures ShutdownFacts(t)
  {
  }

  lemma LeavingKeepsShutdown(s: State, step: Step)
    requires ShutdownFacts(s) && Enabled(s, step) && IsLeavingStep(step)
    ensures ShutdownFacts(Apply(s, step))
  {
  }

  /** A newly scanned line is offered, or blank, or the read has failed on the output bound. */
  lemma ScanKeepsDelivery(s: State, t: State, l: Line)
    requires Inv(s) && s.reader.Scanning? && ProcessFacts(t)
    requires t.handled == s.handled && t.consumer == s.consumer && t.maxRows == s.maxRows
    requires t.reader == AfterScan(t.total, l)
    requires Extends(t, s, l)
    ensures DeliveryFacts(t)
  {
    NonBlankAppend(ScannedLines(s), l);
    assert WithReader(s) == [] && WithConsumer(t) == WithConsumer(s);
    if Active(s.consumer) && !t.reader.Stopped? {
      assert WithReader(t) == if Blank(l) then [] else [l];
      assert t.handled + WithConsumer(t) + WithReader(t) == NonBlank(ScannedLines(s)) + WithReader(t);
    }
  }

  predicate IsReaderStep(step: Step) {
    || step.ScanEnd? || step.ScanError? || step.DropLine? || step.StartWait? || step.WaitReturns? || step.DropEnd?
    || step.CloseEvents? || step.CloseDone?
  }

  predicate IsLeavingStep(step: Step) {
    || step.ReceiveClosed? || step.NoticeTimeout? || step.CheckIdentity?
    || step.CancelStream? || step.ClosePipe? || step.Join?
  }

  lemma ReaderKeepsDelivery(s: State, step: Step)
    requires Inv(s) && Enabled(s, step) && IsReaderStep(step) && ProcessFacts(Apply(s, step))
    ensures DeliveryFacts(Apply(s, step))
  {
    assert ScannedLines(Apply(s, step)) == ScannedLines(s);
  }

  predicate IsProcessStep(step: Step) { step.Write? || step.EndOutput? || step.Exit? || step.Kill? || step.Timeout? }

  lemma ProcessKeepsDelivery(s: State, step: Step)
    requires Inv(s) && Enabled(s, step) && IsProcessStep(step) && ProcessFacts(Apply(s, step))
    ensures DeliveryFacts(Apply(s, step))
  {
    assert ScannedLines(Apply(s, step)) == ScannedLines(s);
  }

  lemma Swapped(a: seq<Line>, b: seq<Line>)
    ensures a + [] + b == a + b && a + b + [] == a + b
  {
  }

  lemma ReceiveKeepsDelivery(s: State, t: State)
    requires Inv(s) && Enabled(s, Receive) && t == Apply(s, Receive) && ProcessFacts(t)
    ensures DeliveryFacts(t)
  {
    if s.reader.Offering? {
      ReceiveLine(s, t);
    } else {
      ReceiveEnd(s, t);
    }
  }

  lemma ReceiveLine(s: State, t: State)
    requires Inv(s) && Enabled(s, Receive) && s.reader.Offering? && t == Apply(s, Receive) && ProcessFacts(t)
    ensures DeliveryFacts(t)
  {
    assert WithConsumer(s) == [] && ScannedLines(t) == ScannedLines(s);
    assert WithConsumer(t) == WithReader(s) && WithReader(t) == [];
    Swapped(s.handled, WithReader(s));
  }

  lemma ReceiveEnd(s: State, t: State)
    requires Inv(s) && Enabled(s, Receive) && !s.reader.Offering? && t == Apply(s, Receive) && ProcessFacts(t)
    ensures DeliveryFacts(t)
  {
    assert ScannedLines(t) == ScannedLines(s) && WithConsumer(t) == WithConsumer(s) == [];
  }

  lemma DecideKeepsDelivery(s: State, t: State)
    requires Inv(s) && s.consumer.Got? && ProcessFacts(t)
    requires OnlyDecided(s, t)
    requires t.consumer.Selecting? || t.consumer.Checking? || t.consumer == Leaving(false)
    requires t.consumer.Selecting? ==> |t.handled| <= s.maxRows && t.handled == s.handled + WithConsumer(s)
    requires !t.consumer.Selecting? ==> t.handled == s.handled
    requires t.consumer.Checking? ==> !s.timedOut && s.consumer.event == EndEvent(false, false)
    ensures DeliveryFacts(t)
  {
    assert ScannedLines(t) == ScannedLines(s) && WithReader(t) == WithReader(s) && WithConsumer(t) == [];
    assert t.handled + [] == t.handled;
  }

  lemma LeavingKeepsDelivery(s: State, step: Step)
    requires Inv(s) && Enabled(s, step) && IsLeavingStep(step)
    ensures ProcessFacts(Apply(s, step)) && DeliveryFacts(Apply(s, step))
  {
    assert ScannedLines(Apply(s, step)) == ScannedLines(s);
  }

  lemma StepKeepsShutdown(s: State, step: Step)
    requires ShutdownFacts(s) && Enabled(s, step)
    ensures ShutdownFacts(Apply(s, step))
  {
    if IsReaderStep(step) {
      ReaderKeepsShutdown(s, step);
    } else if IsProcessStep(step) {
      ProcessKeepsShutdown(s, step);
    } else if step.Receive? {
      ReceiveKeepsShutdown(s);
    } else if step.Decide? {
      DecideFrame(s, step.handlerOk);
      DecideKeepsShutdown(s, Apply(s, step));
    } else if IsLeavingStep(step) {
      LeavingKeepsShutdown(s, step);
    } else {
      ScanKeepsShutdown(s, step);
    }
  }

  lemma StepKeepsDelivery(s: State, step: Step)
    requires Inv(s) && Enabled(s, step) && ProcessFacts(Apply(s, step))
    ensures DeliveryFacts(Apply(s, step))
  {
    if step.ScanLine? {
      ScanLineExtends(s);
      ScanKeepsDelivery(s, Apply(s, step), s.written[s.consumed]);
    } else if step.ScanTorn? {
      ScanTornExtends(s);
      ScanKeepsDelivery(s, Apply(s, step), s.torn.value);
    } else if IsReaderStep(step) {
      ReaderKeepsDelivery(s, step);
    } else if IsProcessStep(step) {
      ProcessKeepsDelivery(s, step);
    } else if step.Receive? {
      ReceiveKeepsDelivery(s, Apply(s, step));
    } else if step.Decide? {
      DecideFrame(s, step.handlerOk);
      DecideKeepsDelivery(s, Apply(s, step));
    } else {
      LeavingKeepsDelivery(s, step);
    }
  }

  lemma StepKeepsInv(s: State, step: Step)
    requires Inv(s) && Enabled(s, step)
    ensures Inv(Apply(s, step))
  {
    StepKeepsProcess(s, step);
    StepKeepsShutdown(s, step);
    StepKeepsDelivery(s, step);
  }

  lemma {:induction false} RunKeepsInv(s: State, steps: seq<Step>)
    requires Inv(s) && ValidRun(s, steps)
    ensures Inv(Run(s, steps))
    decreases |steps|
  {
    if steps != [] {
      StepKeepsInv(s, steps[0]);
      RunKeepsInv(Apply(s, steps[0]), steps[1..]);
    }
  }

  // ------------------------------------------------------------ completeness

  /**
   Success means everything: in every interleaving, if run returns without error then the process
   ended by itself and cleanly, every non-blank line it ever wrote was handled once and in order,
   there were at most maxRows of them, the output was within its bound, the process was waited for
   once, and the database identity was unchanged after the last line. Every line was shorter than
   the scanner's buffer.
   */
  lemma SuccessMeansWholeOutput(maxRows: nat, steps: seq<Step>)
    requires ValidRun(Start(maxRows), steps) && Run(Start(maxRows), steps).consumer == Returned(true)
    ensures var s := Run(Start(maxRows), steps);
            && s.process == Exited(true) && s.handled == NonBlank(s.written) && |s.handled| <= maxRows
            && Size(s.written) <= MAX_OUTPUT && ShortLines(s.written) && s.waits == 1 && s.sameIdentity
  {
    RunKeepsInv(Start(maxRows), steps);
    var s := Run(Start(maxRows), steps);
    MaxRowsIsConstant(Start(maxRows), steps);
    assert ScannedLines(s) == s.written;
  }

  /** Once run is on its way out with an error, it does not return success. */
  lemma {:induction false} FailureStays(s: State, steps: seq<Step>)
    requires ValidRun(s, steps)
    requires s.consumer.Leaving? || s.consumer.ClosingPipe? || s.consumer.Joining? || s.consumer.Returned?
    requires !s.consumer.ok
    ensures Run(s, steps).consumer != Returned(true)
    decreases |steps|
  {
    if steps != [] {
      FailureStays(Apply(s, steps[0]), steps[1..]);
    }
  }

  /** Every line that the loop decided on was taken by the handler, and the last identity check passed. */
  ghost predicate AllTaken(s: State, steps: seq<Step>)
    requires ValidRun(s, steps)
    decreases |steps|
  {
    steps != [] ==>
      && (steps[0].Decide? && s.consumer.event.LineEvent? ==> steps[0].handlerOk)
      && (steps[0].CheckIdentity? ==> steps[0].identityOk)
      && AllTaken(Apply(s, steps[0]), steps[1..])
  }

  /** Success also means that the handler took every line: one that it refuses fails the whole run. */
  lemma {:induction false} SuccessMeansAllTaken(s: State, steps: seq<Step>)
    requires ValidRun(s, steps) && Run(s, steps).consumer == Returned(true)
    ensures AllTaken(s, steps)
    decreases |steps|
  {
    if steps != [] {
      var step, next := steps[0], Apply(s, steps[0]);
      if step.Decide? && s.consumer.event.LineEvent? && !step.handlerOk {
        FailureStays(next, steps[1..]);
      }
      if step.CheckIdentity? && !step.identityOk {
        FailureStays(next, steps[1..]);
      }
      SuccessMeansAllTaken(next, steps[1..]);
    }
  }

  lemma {:induction false} MaxRowsIsConstant(s: State, steps: seq<Step>)
    requires ValidRun(s, steps)
    ensures Run(s, steps).maxRows == s.maxRows
    decreases |steps|
  {
    if steps != [] {
      StepKeepsMaxRows(s, steps[0]);
      MaxRowsIsConstant(Apply(s, steps[0]), steps[1..]);
    }
  }

  lemma StepKeepsMaxRows(s: State, step: Step)
    requires Enabled(s, step)
    ensures Apply(s, step).maxRows == s.maxRows
  {
    if step.Decide? {
      DecideFrame(s, step.handlerOk);
    }
  }

  /** Run has looked at its context for the last time, and found nothing wrong. */
  predicate PastContextCheck(s: State) { s.consumer.Checking? || Succeeding(s.consumer) }

  lemma TimeoutStaysFailure(s: State, step: Step)
    requires Enabled(s, step) && s.timedOut && !PastContextCheck(s)
    ensures Apply(s, step).timedOut && !PastContextCheck(Apply(s, step))
  {
    if step.Decide? {
      DecideFrame(s, step.handlerOk);
    }
  }

  /** Once the context has timed out before the last event's context check, no continuation succeeds. */
  lemma {:induction false} TimeoutNeverLooksLikeSuccess(s: State, steps: seq<Step>)
    requires Inv(s) && ValidRun(s, steps) && s.timedOut && !PastContextCheck(s)
    ensures !PastContextCheck(Run(s, steps)) && Run(s, steps).consumer != Returned(true)
    decreases |steps|
  {
    if steps != [] {
      StepKeepsInv(s, steps[0]);
      TimeoutStaysFailure(s, steps[0]);
      TimeoutNeverLooksLikeSuccess(Apply(s, steps[0]), steps[1..]);
    }
  }

  /** A timeout after that check goes unnoticed: during the identity check, say, success is still returned. */
  lemma LateTimeoutIsMissed(s: State) returns (steps: seq<Step>)
    requires Inv(s) && s.consumer.Checking? && s.reader.ClosingEvents? && s.timedOut
    ensures ValidRun(s, steps) && Run(s, steps).consumer == Returned(true) && Run(s, steps).handled == s.handled
  {
    assert ValidRun(s, []) && Run(s, []) == s;
    Then(s, [], CheckIdentity(true));
    steps := CleanClose(s, [] + [CheckIdentity(true)]);
  }

  // The converse: every output within the bounds can be delivered.

  /** The process runs, and all it has written so far is handled. */
  predicate CaughtUp(s: State) {
    && s.process.Running? && s.outputOpen && s.torn.None? && !s.tornRead && s.readable.None? && !ContextDone(s)
    && s.reader.Scanning? && s.consumer.Selecting? && s.consumed == |s.written|
  }

  /** The handler takes every line, and the identity check passes. */
  predicate Accepting(steps: seq<Step>) {
    forall step | step in steps :: (step.Decide? ==> step.handlerOk) && (step.CheckIdentity? ==> step.identityOk)
  }

  lemma {:induction false} Then(s: State, steps: seq<Step>, step: Step)
    requires ValidRun(s, steps) && Enabled(Run(s, steps), step)
    ensures ValidRun(s, steps + [step]) && Run(s, steps + [step]) == Apply(Run(s, steps), step)
    decreases |steps|
  {
    if steps == [] {
      assert [] + [step] == [step] && [step][1..] == [];
    } else {
      assert (steps + [step])[0] == steps[0] && (steps + [step])[1..] == steps[1..] + [step];
      Then(Apply(s, steps[0]), steps[1..], step);
    }
  }

  /** A line is written, scanned and, unless blank, handed over and handled. */
  lemma OneMoreLine(s: State, steps: seq<Step>, l: Line) returns (more: seq<Step>)
    requires ValidRun(s, steps) && CaughtUp(Run(s, steps))
    requires IsLine(l) && ByteLen(l) < MAX_LINE && Run(s, steps).total + ByteLen(l) + 1 <= MAX_OUTPUT
    requires !Blank(l) ==> |Run(s, steps).handled| < Run(s, steps).maxRows
    ensures ValidRun(s, more) && (Accepting(steps) ==> Accepting(more))
    ensures var t, u := Run(s, steps), Run(s, more);
            u == t.(written := t.written + [l], consumed := t.consumed + 1, total := t.total + ByteLen(l) + 1,
                    handled := if Blank(l) then t.handled else t.handled + [l])
  {
    Then(s, steps, Write(l));
    more := steps + [Write(l)];
    Then(s, more, ScanLine);
    more := more + [ScanLine];
    if !Blank(l) {
      Then(s, more, Receive);
      more := more + [Receive];
      Then(s, more, Decide(true));
      more := more + [Decide(true)];
    }
  }

  /** At most maxRows non-blank lines, each short enough for the scanner, and all within the output bound. */
  ghost predicate WithinBounds(maxRows: nat, lines: seq<Line>) {
    && (forall l | l in lines :: IsLine(l))
    && |NonBlank(lines)| <= maxRows && ShortLines(lines) && Size(lines) <= MAX_OUTPUT
  }

  lemma BoundsOfPrefix(maxRows: nat, init: seq<Line>, l: Line)
    requires WithinBounds(maxRows, init + [l])
    ensures WithinBounds(maxRows, init) && IsLine(l) && ByteLen(l) < MAX_LINE
            && Size(init) + ByteLen(l) + 1 <= MAX_OUTPUT
    ensures NonBlank(init + [l]) == NonBlank(init) + if Blank(l) then [] else [l]
  {
    NonBlankAppend(init, l);
    assert l in init + [l];
  }

  lemma {:induction false} AllLines(maxRows: nat, lines: seq<Line>) returns (steps: seq<Step>)
    requires WithinBounds(maxRows, lines)
    ensures ValidRun(Start(maxRows), steps) && Accepting(steps) && CaughtUp(Run(Start(maxRows), steps))
    ensures var t := Run(Start(maxRows), steps);
            t.written == lines && t.handled == NonBlank(lines) && t.total == Size(lines) && t.maxRows == maxRows
  {
    if lines == [] {
      steps := [];
    } else {
      var init, l := lines[..|lines| - 1], lines[|lines| - 1];
      assert lines == init + [l];
      BoundsOfPrefix(maxRows, init, l);
      NonBlankAppend(init, l);
      steps := AllLines(maxRows, init);
      steps := OneMoreLine(Start(maxRows), steps, l);
      NoTail(NonBlank(init));
    }
  }

  /** The process ends cleanly, and all that it wrote is read. */
  lemma CleanExit(s: State, steps: seq<Step>) returns (more: seq<Step>)
    requires ValidRun(s, steps) && CaughtUp(Run(s, steps))
    ensures ValidRun(s, more) && (Accepting(steps) ==> Accepting(more))
    ensures var t, u := Run(s, steps), Run(s, more);
            && u.written == t.written && u.handled == t.handled && !u.timedOut
            && u.consumer.Selecting? && u.reader == OfferingEnd(false, false)
  {
    Then(s, steps, Exit(true));
    more := steps + [Exit(true)];
    Then(s, more, ScanEnd);
    more := more + [ScanEnd];
    Then(s, more, StartWait);
    more := more + [StartWait];
    Then(s, more, WaitReturns(false));
    more := more + [WaitReturns(false)];
  }

  /** Its end is received, and run leaves its loop with success. */
  lemma CleanEnd(s: State, steps: seq<Step>) returns (more: seq<Step>)
    requires ValidRun(s, steps) && CaughtUp(Run(s, steps))
    ensures ValidRun(s, more) && (Accepting(steps) ==> Accepting(more))
    ensures var t, u := Run(s, steps), Run(s, more);
            u.written == t.written && u.handled == t.handled && u.consumer == Leaving(true) && u.reader.ClosingEvents?
  {
    more := CleanExit(s, steps);
    Then(s, more, Receive);
    more := more + [Receive];
    Then(s, more, Decide(true));
    more := more + [Decide(true)];
    Then(s, more, CheckIdentity(true));
    more := more + [CheckIdentity(true)];
  }

  lemma CleanClose(s: State, steps: seq<Step>) returns (more: seq<Step>)
    requires ValidRun(s, steps) && Run(s, steps).consumer == Leaving(true) && Run(s, steps).reader.ClosingEvents?
    ensures ValidRun(s, more) && (Accepting(steps) ==> Accepting(more))
    ensures var t, u := Run(s, steps), Run(s, more);
            u.written == t.written && u.handled == t.handled && u.consumer == Returned(true)
  {
    more := ShutPipe(s, steps);
    Then(s, more, CloseEvents);
    more := more + [CloseEvents];
    Then(s, more, CloseDone);
    more := more + [CloseDone];
    Then(s, more, Join);
    more := more + [Join];
  }

  lemma ShutPipe(s: State, steps: seq<Step>) returns (more: seq<Step>)
    requires ValidRun(s, steps) && Run(s, steps).consumer == Leaving(true) && Run(s, steps).reader.ClosingEvents?
    ensures ValidRun(s, more) && (Accepting(steps) ==> Accepting(more))
    ensures var t, u := Run(s, steps), Run(s, more);
            && u.written == t.written && u.handled == t.handled
            && u.consumer == Joining(true) && u.reader.ClosingEvents?
  {
    Then(s, steps, CancelStream);
    more := steps + [CancelStream];
    Then(s, more, ClosePipe);
    more := more + [ClosePipe];
  }

  /** Every output of at most maxRows non-blank lines and within both bounds has a run that succeeds with it. */
  lemma EveryBoundedOutputCanSucceed(maxRows: nat, lines: seq<Line>) returns (steps: seq<Step>)
    requires WithinBounds(maxRows, lines)
    ensures ValidRun(Start(maxRows), steps) && Accepting(steps)
    ensures var s := Run(Start(maxRows), steps);
            s.consumer == Returned(true) && s.written == lines && s.handled == NonBlank(lines)
  {
    steps := AllLines(maxRows, lines);
    steps := CleanEnd(Start(maxRows), steps);
    steps := CleanClose(Start(maxRows), steps);
  }

  // ---------------------------------------------------------------- shutdown

  /** The steps of the program itself; the process's output and the clock are its environment. */
  predicate IsOwnStep(step: Step) { !(step.Write? || step.EndOutput? || step.Timeout?) }

  function Remaining(s: State): nat { if s.consumed < Available(s) then Available(s) - s.consumed else 0 }

  function ReaderRank(s: State): nat {
    match s.reader
    case Scanning => 8 + 2 * Remaining(s)
    case Offering(_) => 7 + 2 * Remaining(s)
    case Stopped(_) => 6
    case Waiting(_) => 5
    case OfferingEnd(_, _) => 4
    case ClosingEvents => 3
    case ClosingDone => 2
    case Finished => 1
  }

  /** How many of its own steps the program can still take once close has shut the pipe. */
  function StepsLeft(s: State): nat {
    if s.consumer.Returned? then 0 else ReaderRank(s) + if s.process.Running? then 1 else 0
  }

  lemma OwnStepsRunOut(s: State, step: Step)
    requires Inv(s) && Enabled(s, step) && (s.consumer.Joining? || s.consumer.Returned?)
    ensures var t := Apply(s, step);
            && (t.consumer.Joining? || t.consumer.Returned?) && StepsLeft(t) <= StepsLeft(s)
            && (IsOwnStep(step) && s.consumer.Joining? ==> StepsLeft(t) < StepsLeft(s))
  {
    if IsReaderStep(step) {
      ReaderStepsRunOut(s, step);
    } else if IsProcessStep(step) {
      ProcessStepsRunOut(s, step);
    } else if step.ScanLine? || step.ScanTorn? {
      ScansRunOut(s, step);
    }
  }

  lemma ReaderStepsRunOut(s: State, step: Step)
    requires Inv(s) && Enabled(s, step) && IsReaderStep(step) && (s.consumer.Joining? || s.consumer.Returned?)
    ensures Apply(s, step).consumer == s.consumer && StepsLeft(Apply(s, step)) <= StepsLeft(s)
    ensures s.consumer.Joining? ==> StepsLeft(Apply(s, step)) < StepsLeft(s)
  {
    ReaderStepsMoveOn(s, step);
  }

  /** The reader's own steps lead on, and start no process. */
  lemma ReaderStepsMoveOn(s: State, step: Step)
    requires Enabled(s, step) && IsReaderStep(step)
    ensures ReaderRank(Apply(s, step)) < ReaderRank(s) && Apply(s, step).consumer == s.consumer
    ensures Apply(s, step).process.Running? ==> s.process.Running?
  {
    assert Remaining(Apply(s, step)) == Remaining(s);
  }

  lemma ProcessStepsRunOut(s: State, step: Step)
    requires Inv(s) && Enabled(s, step) && IsProcessStep(step) && (s.consumer.Joining? || s.consumer.Returned?)
    ensures Apply(s, step).consumer == s.consumer && StepsLeft(Apply(s, step)) <= StepsLeft(s)
    ensures IsOwnStep(step) && s.consumer.Joining? ==> StepsLeft(Apply(s, step)) < StepsLeft(s)
  {
    assert Remaining(Apply(s, step)) == Remaining(s);
  }

  lemma ScansRunOut(s: State, step: Step)
    requires Inv(s) && Enabled(s, step) && (step.ScanLine? || step.ScanTorn?)
    requires s.consumer.Joining? || s.consumer.Returned?
    ensures Apply(s, step).consumer == s.consumer && StepsLeft(Apply(s, step)) <= StepsLeft(s)
    ensures s.consumer.Joining? ==> StepsLeft(Apply(s, step)) < StepsLeft(s)
  {
  }

  /** Until close returns, some step of the program can be taken: nothing blocks for ever. */
  lemma CloseNeverBlocks(s: State) returns (step: Step)
    requires Inv(s) && (s.consumer.Leaving? || s.consumer.ClosingPipe? || s.consumer.Joining?)
    ensures Enabled(s, step) && IsOwnStep(step)
  {
    if s.consumer.Leaving? {
      step := CancelStream;
    } else if s.consumer.ClosingPipe? {
      step := ClosePipe;
    } else {
      match s.reader
      case Scanning => step := ScanError;
      case Offering(_) => step := DropLine;
      case Stopped(_) => step := StartWait;
      case Waiting(_) => step := if s.process.Running? then Kill(None) else WaitReturns(true);
      case OfferingEnd(_, _) => step := DropEnd;
      case ClosingEvents => step := CloseEvents;
      case ClosingDone => step := CloseDone;
      case Finished => step := Join;
    }
  }

  function OwnSteps(steps: seq<Step>): nat {
    if steps == [] then 0 else (if IsOwnStep(steps[0]) then 1 else 0) + OwnSteps(steps[1..])
  }

  /**
   Close returns: after the pipe is shut, any run in which the program takes as many of its own
   steps as it has left ends with run returned, the reader gone, both channels closed once and the
   process waited for once. With CloseNeverBlocks, this is termination under weak fairness.
   */
  lemma {:induction false} CloseReturns(s: State, steps: seq<Step>)
    requires Inv(s) && s.consumer.Joining? && ValidRun(s, steps) && OwnSteps(steps) >= StepsLeft(s)
    ensures var t := Run(s, steps);
            t.consumer.Returned? && t.reader.Finished? && t.eventsClosed == 1 && t.doneClosed == 1 && t.waits == 1
  {
    RunKeepsInv(s, steps);
    StepsAreSpent(s, steps);
  }

  lemma {:induction false} StepsAreSpent(s: State, steps: seq<Step>)
    requires Inv(s) && (s.consumer.Joining? || s.consumer.Returned?) && ValidRun(s, steps)
    ensures Run(s, steps).consumer.Joining? || Run(s, steps).consumer.Returned?
    ensures Run(s, steps).consumer.Joining? ==> StepsLeft(Run(s, steps)) + OwnSteps(steps) <= StepsLeft(s)
    ensures s.consumer.Returned? ==> Run(s, steps).consumer.Returned?
    decreases |steps|
  {
    if steps != [] {
      StepKeepsInv(s, steps[0]);
      OwnStepsRunOut(s, steps[0]);
      StepsAreSpent(Apply(s, steps[0]), steps[1..]);
    }
  }

  /** A process whose output was given up is never waited for while it runs: it is killed first. */
  predicate KilledFirst(s: State) { s.reader.Waiting? && s.reader.readErr ==> !s.process.Running? }

  /** Nor is one whose stream is cancelled or has timed out when the waiting begins. */
  lemma StepKillsFirst(s: State, step: Step)
    requires Enabled(s, step) && KilledFirst(s)
    ensures KilledFirst(Apply(s, step))
    ensures step.StartWait? && ContextDone(s) ==> !Apply(s, step).process.Running?
  {
    if step.Decide? {
      DecideFrame(s, step.handlerOk);
    }
  }

  lemma {:induction false} GivenUpIsKilled(s: State, steps: seq<Step>)
    requires ValidRun(s, steps) && KilledFirst(s)
    ensures KilledFirst(Run(s, steps))
    decreases |steps|
  {
    if steps != [] {
      StepKillsFirst(s, steps[0]);
      GivenUpIsKilled(Apply(s, steps[0]), steps[1..]);
    }
  }

  /** At no moment of any run has a channel been closed, or the process waited for, more than once. */
  lemma NothingHappensTwice(maxRows: nat, steps: seq<Step>)
    requires ValidRun(Start(maxRows), steps)
    ensures var s := Run(Start(maxRows), steps);
            && s.waits <= 1 && s.eventsClosed <= 1 && s.doneClosed <= 1
            && (s.doneClosed == 1 ==> s.eventsClosed == 1 && s.waits == 1 && !s.process.Running?)
  {
    RunKeepsInv(Start(maxRows), steps);
  }
}
