/**
 Collect over the stream (internal/backend/collection.go and run in internal/backend/backend.go): the
 line handler inside the consuming loop, in every interleaving with the process and the reader.
 */
module CollectStream {
  import opened Wrappers
  import opened Text
  import opened Lengths
  import opened Collection
  import MessageStore
  import S = Stream

  /** What the JSON decoder makes of a line that is not blank. */
  type Decoder = string -> Option<Event>

  function AsLine(decode: Decoder, l: string): OutputLine {
    if S.Blank(l) then BlankLine(ByteLen(l)) else JsonLine(ByteLen(l), decode(l))
  }

  function AsLines(decode: Decoder, ls: seq<string>): seq<OutputLine> {
    seq(|ls|, i requires 0 <= i < |ls| => AsLine(decode, ls[i]))
  }

  /** Does the handler, after the lines it has taken, take this one? */
  predicate Takes(decode: Decoder, handled: seq<string>, l: string) {
    FeedAll(AsLines(decode, handled + [l])).Some?
  }

  /** Every line that the loop decides on is decided by the handler. */
  ghost predicate HandlerDecides(decode: Decoder, s: S.State, steps: seq<S.Step>)
    requires S.ValidRun(s, steps)
    decreases |steps|
  {
    steps != [] ==>
      && (steps[0].Decide? && s.consumer.event.LineEvent? ==>
            (steps[0].handlerOk <==> Takes(decode, s.handled, s.consumer.event.line)))
      && HandlerDecides(decode, S.Apply(s, steps[0]), steps[1..])
  }

  /** What Collect returns once run has returned. */
  function Collected(decode: Decoder, s: S.State, after: int, through: int, limit: int): Option<CollectionPage> {
    if s.consumer != S.Returned(true) then None
    else
      match FeedAll(AsLines(decode, s.handled))
      case None => None
      case Some(r) => if r.checkpoint && ValidPage(r.page, after, through, limit) then Some(r.page) else None
  }

  // ------------------------------------------------------------ lines as output

  /** One more line, on both sides. */
  lemma AsLinesAppend(decode: Decoder, ls: seq<string>, l: string)
    ensures AsLines(decode, ls + [l]) == AsLines(decode, ls) + [AsLine(decode, l)]
    ensures FeedAll(AsLines(decode, ls + [l])) ==
            match FeedAll(AsLines(decode, ls)) { case None => None case Some(r) => FeedLine(r, AsLine(decode, l)) }
    ensures OutputSize(AsLines(decode, ls + [l])) == OutputSize(AsLines(decode, ls)) + ByteLen(l) + 1
    ensures EventCount(AsLines(decode, ls + [l])) == EventCount(AsLines(decode, ls)) + if S.Blank(l) then 0 else 1
  {
    assert AsLines(decode, ls + [l])[..|ls|] == AsLines(decode, ls);
  }

  /** Blank lines matter to the handler no more than to the loop, and everything is counted alike. */
  lemma {:induction false} SameOutput(decode: Decoder, ls: seq<string>)
    ensures FeedAll(AsLines(decode, S.NonBlank(ls))) == FeedAll(AsLines(decode, ls))
    ensures OutputSize(AsLines(decode, ls)) == S.Size(ls)
    ensures EventCount(AsLines(decode, ls)) == |S.NonBlank(ls)|
    decreases |ls|
  {
    if ls != [] {
      var init, l := ls[..|ls| - 1], ls[|ls| - 1];
      SameOutput(decode, init);
      assert ls == init + [l];
      AsLinesAppend(decode, init, l);
      S.NonBlankAppend(init, l);
      if S.Blank(l) {
        S.NoTail(S.NonBlank(init));
      } else {
        AsLinesAppend(decode, S.NonBlank(init), l);
      }
    }
  }

  lemma SameBounds(decode: Decoder, ls: seq<string>)
    ensures WithinStream(AsLines(decode, ls)) <==> S.ShortLines(ls) && S.Size(ls) <= MAX_OUTPUT
  {
    SameOutput(decode, ls);
    SameShortLines(decode, ls);
  }

  lemma SameShortLines(decode: Decoder, ls: seq<string>)
    ensures (forall l | l in AsLines(decode, ls) :: l.size < MAX_LINE) <==> S.ShortLines(ls)
  {
    var out := AsLines(decode, ls);
    assert forall i | 0 <= i < |ls| :: out[i] in out && ls[i] in ls && out[i].size == ByteLen(ls[i]);
  }

  // ------------------------------------------------------------------ soundness

  /**
   In every interleaving in which run returns success, Collect returns what the whole output amounts to,
   though the handler saw it line by line while the process was still writing.
   */
  lemma CollectReadsTheWholeOutput(decode: Decoder, steps: seq<S.Step>, after: int, through: int, limit: nat)
    requires S.ValidRun(S.Start(limit + 1), steps) && S.Run(S.Start(limit + 1), steps).consumer == S.Returned(true)
    ensures var s := S.Run(S.Start(limit + 1), steps);
            Collected(decode, s, after, through, limit) ==
            CollectLines(AsLines(decode, s.written), true, after, through, limit)
  {
    var s := S.Run(S.Start(limit + 1), steps);
    S.SuccessMeansWholeOutput(limit + 1, steps);
    SameOutput(decode, s.written);
    SameBounds(decode, s.written);
  }

  /** When the process writes the lines of a page, Collect returns exactly that page or fails. */
  lemma CollectReturnsThePrintedPage(decode: Decoder, steps: seq<S.Step>, p: MessageStore.SafePage,
                                     after: int, through: int, limit: nat)
    requires S.ValidRun(S.Start(limit + 1), steps)
    requires AsLines(decode, S.Run(S.Start(limit + 1), steps).written) == Lines(p)
    requires Collected(decode, S.Run(S.Start(limit + 1), steps), after, through, limit).Some?
    ensures Collected(decode, S.Run(S.Start(limit + 1), steps), after, through, limit) == Some(Received(p))
    ensures ValidPage(Received(p), after, through, limit)
  {
    CollectReadsTheWholeOutput(decode, steps, after, through, limit);
    PrintedPageIsRead(p);
  }

  // --------------------------------------------------------------- completeness

  lemma {:induction false} HandledGrows(s: S.State, steps: seq<S.Step>)
    requires S.ValidRun(s, steps)
    ensures s.handled <= S.Run(s, steps).handled
    decreases |steps|
  {
    if steps != [] {
      StepHandles(s, steps[0]);
      HandledGrows(S.Apply(s, steps[0]), steps[1..]);
    }
  }

  lemma StepHandles(s: S.State, step: S.Step)
    requires S.Enabled(s, step)
    ensures s.handled <= S.Apply(s, step).handled
  {
    if step.Decide? {
      S.DecideFrame(s, step.handlerOk);
    }
  }

  /** In a run that succeeds, a line that is decided on is handled. */
  lemma DecidedIsHandled(s: S.State, steps: seq<S.Step>)
    requires S.ValidRun(s, steps) && steps != [] && steps[0].Decide? && s.consumer.event.LineEvent?
    requires S.Run(s, steps).consumer == S.Returned(true)
    ensures s.handled + [s.consumer.event.line] <= S.Run(s, steps).handled
  {
    var next := S.Apply(s, steps[0]);
    S.DecideLine(s, steps[0].handlerOk);
    if next.consumer == S.Leaving(false) {
      S.FailureStays(next, steps[1..]);
    }
    HandledGrows(next, steps[1..]);
  }

  lemma {:induction false} AcceptingIsTheHandler(decode: Decoder, s: S.State, steps: seq<S.Step>)
    requires S.ValidRun(s, steps) && S.Accepting(steps) && S.Run(s, steps).consumer == S.Returned(true)
    requires FeedAll(AsLines(decode, S.Run(s, steps).handled)).Some?
    ensures HandlerDecides(decode, s, steps)
    decreases |steps|
  {
    if steps != [] {
      assert steps[0] in steps && forall step | step in steps[1..] :: step in steps;
      AcceptingIsTheHandler(decode, S.Apply(s, steps[0]), steps[1..]);
      if steps[0].Decide? && s.consumer.event.LineEvent? {
        DecidedIsHandled(s, steps);
        PrefixIsTaken(decode, s.handled + [s.consumer.event.line], S.Run(s, steps).handled);
      }
    }
  }

  lemma PrefixIsTaken(decode: Decoder, a: seq<string>, b: seq<string>)
    requires a <= b && FeedAll(AsLines(decode, b)).Some?
    ensures FeedAll(AsLines(decode, a)).Some?
  {
    assert AsLines(decode, b)[..|a|] == AsLines(decode, a);
    PrefixDecides(AsLines(decode, b), |a|);
  }

  /** Whatever Collect may make of an output, some run with the handler in its loop makes of it. */
  lemma CollectCanReadIt(decode: Decoder, ls: seq<string>, after: int, through: int, limit: nat)
    returns (steps: seq<S.Step>)
    requires forall l | l in ls :: S.IsLine(l)
    requires CollectLines(AsLines(decode, ls), true, after, through, limit).Some?
    ensures S.ValidRun(S.Start(limit + 1), steps) && HandlerDecides(decode, S.Start(limit + 1), steps)
    ensures var s := S.Run(S.Start(limit + 1), steps);
            && s.written == ls
            && Collected(decode, s, after, through, limit) ==
               CollectLines(AsLines(decode, ls), true, after, through, limit)
  {
    SameOutput(decode, ls);
    SameBounds(decode, ls);
    steps := S.EveryBoundedOutputCanSucceed(limit + 1, ls);
    AcceptingIsTheHandler(decode, S.Start(limit + 1), steps);
    CollectReadsTheWholeOutput(decode, steps, after, through, limit);
  }
}
