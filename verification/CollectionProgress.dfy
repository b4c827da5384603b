/**
 How far whole runs of collection get: answers that are too long and how to ask for less, how many
 successes a cycle takes, that it can be completed, and what a new cursor key does to a client.
 */
module CollectionProgress {
  import opened Lists
  import opened Wrappers
  import opened Text
  import opened Policy
  import opened Clock
  import opened Lengths
  import opened PageSizes
  import opened MessageStore
  import opened Collection
  import opened Cursor
  import opened Broker
  import opened Answers
  import opened CollectionRun
  import opened CollectionDelivery

  /** How many rows a request may read, given the limit it asks for. */
  function PageLimit(cfg: Config, requested: int): int {
    match NormalizeLimit(requested, 50, cfg.maxResults)
    case None => 0
    case Some(limit) => if limit < cfg.maxCollectionScan then limit else cfg.maxCollectionScan
  }

  // ------------------------------------------------------------------ answers

  lemma {:induction false} GatherAtMost<T, U>(s: seq<T>, f: T -> seq<U>)
    requires forall x | x in s :: |f(x)| <= 1
    ensures |Gather(s, f)| <= |s|
  {
    if s != [] {
      assert s[|s| - 1] in s && forall x | x in s[..|s| - 1] :: x in s;
      GatherAtMost(s[..|s| - 1], f);
    }
  }

  /** Whatever the broker shows of a decoded row is bounded. */
  lemma DecodedIsModest(w: World, p: Policy, id: int, r: SafeRow, m: Message)
    requires Sound(w) && DecodeRow(w.db, Some(w.cfg.backendAccount), id) == Ok(r) && r.id == id && id in w.db.messages
    requires ShowsAs(w, p, ReceivedRow(r), m)
    ensures Modest(m)
  {
    ShownRowIff(w.db, Some(w.cfg.backendAccount), id, r.message, r.chat);
    var row := ReceivedRow(r);
    AdmissibleIsModest(w.cfg, w.generation, row.message.value, row.chat.value, p, m);
  }

  lemma AdmittedIsModest(w: World, p: Policy, id: int, r: SafeRow)
    requires Sound(w) && DecodeRow(w.db, Some(w.cfg.backendAccount), id) == Ok(r) && r.id == id && id in w.db.messages
    ensures forall m | m in AdmitRow(w.cfg, w.generation, p, ReceivedRow(r)) :: Modest(m)
    ensures |AdmitRow(w.cfg, w.generation, p, ReceivedRow(r))| <= 1
  {
    forall m | m in AdmitRow(w.cfg, w.generation, p, ReceivedRow(r)) ensures Modest(m) {
      AdmittedIff(w, p, ReceivedRow(r), m);
      DecodedIsModest(w, p, id, r, m);
    }
  }

  lemma PageIsModest(w: World, p: Policy, q: Query)
    requires Sound(w) && q.account == Some(w.cfg.backendAccount) && Page(w.db, q, w.now).Ok?
    ensures var ms := Admit(w.cfg, w.generation, p, Received(Page(w.db, q, w.now).value).rows);
            |ms| <= q.limit && forall m | m in ms :: Modest(m)
  {
    var rows := Page(w.db, q, w.now).value.rows;
    PageRowsAreDecoded(w.db, q, w.now);
    PageRowsExist(w.db, q, w.now);
    forall i | 0 <= i < |rows|
      ensures forall m | m in AdmitRow(w.cfg, w.generation, p, ReceivedRow(rows[i])) :: Modest(m)
      ensures |AdmitRow(w.cfg, w.generation, p, ReceivedRow(rows[i]))| <= 1
    {
      AdmittedIsModest(w, p, rows[i].id, rows[i]);
    }
    ModestRows(w.cfg, w.generation, p, Page(w.db, q, w.now).value);
  }

  lemma ModestRows(cfg: Config, generation: string, p: Policy, page: SafePage)
    requires forall i | 0 <= i < |page.rows| ::
               && |AdmitRow(cfg, generation, p, ReceivedRow(page.rows[i]))| <= 1
               && forall m | m in AdmitRow(cfg, generation, p, ReceivedRow(page.rows[i])) :: Modest(m)
    ensures var ms := Admit(cfg, generation, p, Received(page).rows);
            |ms| <= |page.rows| && forall m | m in ms :: Modest(m)
  {
    var rows, f := Received(page).rows, Admitter(cfg, generation, p);
    forall row | row in rows ensures |f(row)| <= 1 && forall m | m in f(row) :: Modest(m) {
      var i :| 0 <= i < |rows| && rows[i] == row;
    }
    GatherAtMost(rows, f);
    forall m: Message | m in Gather(rows, f) ensures Modest(m) {
      GatherMeaning(rows, f, m);
    }
  }

  lemma PageRowsExist(db: Database, q: Query, now: int)
    requires Page(db, q, now).Ok?
    ensures forall i | 0 <= i < |Page(db, q, now).value.rows| :: Page(db, q, now).value.rows[i].id in db.messages
  {
    RawIdsInScope(db, q, now);
    var p := Page(db, q, now).value;
    forall i | 0 <= i < |p.rows| ensures p.rows[i].id in db.messages {
      assert p.rows[i].id == RawIds(db, q, now)[i] && RawIds(db, q, now)[i] in RawIds(db, q, now);
    }
  }

  /** The answer behind a handled request, named. */
  lemma HandledIsAnswer(w: World, s: Step) returns (call: Call, page: SafePage)
    requires Settled(w) && s.CollectPage? && Handled(w, s).Ok?
    ensures Plan(w.cfg, w.generation, Request(w, s.limit)) == Ok(call) && Here(w) == Some(call.cursor)
    ensures GoodCall(call.cursor.row, call.through, call.limit, call.notBefore)
    ensures call.limit == PageLimit(w.cfg, s.limit)
    ensures Page(w.db, QueryOf(w, call), w.now) == Ok(page) && WithinStream(Lines(page))
    ensures s.reloaded.Some? && Handled(w, s).value == AnswerTo(w, s.reloaded.value, s.nonce, page)
    ensures ValidPage(Received(page), call.cursor.row, call.through, call.limit) && page.through < INT64_END
  {
    HandledIff(w, s);
    PlanIsNextCall(w, s.limit);
    call := NextCall(w, NormalizeLimit(s.limit, 50, w.cfg.maxResults).value);
    page := Page(w.db, QueryOf(w, call), w.now).value;
    AnswerExistsIff(w, s.host, call);
    BoundaryIs64Bit(w, call);
  }

  lemma BoundaryIs64Bit(w: World, call: Call)
    requires Settled(w) && Here(w) == Some(call.cursor) && (call.through == 0 || call.through == call.cursor.through)
    requires call.notBefore.Some? ==> call.notBefore.value.Stamp?
    requires Page(w.db, QueryOf(w, call), w.now).Ok?
    ensures Page(w.db, QueryOf(w, call), w.now).value.through < INT64_END
  {
    UpperIsBounded(w, QueryOf(w, call));
  }

  lemma AnswerTokenFits(w: World, s: Step)
    requires Settled(w) && s.CollectPage? && Handled(w, s).Ok?
    ensures TokenLen(Handled(w, s).value.cursor) <= MAX_TOKEN
  {
    var call, page := HandledIsAnswer(w, s);
    EmittedCursorIsWellFormed(w.cfg, w.generation, Request(w, s.limit), Received(page));
    ShortNamesFit(NextCursor(call.cursor, Received(page)).(version := 2));
  }

  /** An answer to a request for up to twenty rows is never too long, whatever the messages. */
  lemma SmallAnswersFit(w: World, s: Step)
    requires Settled(w) && s.CollectPage? && Handled(w, s).Ok?
    requires ValidId(s.request) && PageLimit(w.cfg, s.limit) <= ALWAYS_FIT
    ensures CollectLen(s.request, Handled(w, s).value) <= MAX_RESPONSE
  {
    var call, page := HandledIsAnswer(w, s);
    PageIsModest(w, s.reloaded.value, QueryOf(w, call));
    AnswerTokenFits(w, s);
    FewMessagesFit(s.request, Handled(w, s).value);
  }

  /**
   With chats the broker could show, requests for up to twenty rows never fail on a length: whatever the
   messages and the members, they succeed whenever the producer returns a page.
   */
  lemma SmallRequestsSucceedIff(w: World, s: Step)
    requires Settled(w) && s.CollectPage? && 1 <= s.limit <= ALWAYS_FIT
    requires forall c | c in w.db.chats :: ModestNames(w.db.chats[c])
    ensures Response(w, s).Ok? <==>
              && Admitted(w, s)
              && var call := NextCall(w, s.limit);
              && GoodCall(call.cursor.row, call.through, call.limit, call.notBefore)
              && Page(w.db, QueryOf(w, call), w.now).Ok?
  {
    HandledIff(w, s);
    if Handled(w, s).Ok? && Admitted(w, s) {
      SmallAnswersFit(w, s);
    }
    var call := NextCall(w, s.limit);
    if GoodCall(call.cursor.row, call.through, call.limit, call.notBefore) && Page(w.db, QueryOf(w, call), w.now).Ok? {
      SmallPagesFit(w.db, QueryOf(w, call), w.now);
    }
  }

  /** A request that fails on the length of its answer fails on nothing else, and asked for many rows. */
  lemma TooLargeAsksForMany(w: World, s: Step)
    requires Settled(w) && s.CollectPage? && Response(w, s) == Err(ResponseTooLarge)
    ensures Handled(w, s).Ok? && Admitted(w, s) && PageLimit(w.cfg, s.limit) > ALWAYS_FIT
  {
    HandledIff(w, s);
    if PageLimit(w.cfg, s.limit) <= ALWAYS_FIT {
      SmallAnswersFit(w, s);
    }
  }

  lemma LessIsPlanned(w: World, s: Step, limit: int, call: Call)
    requires Settled(w) && s.CollectPage? && 1 <= limit <= PageLimit(w.cfg, s.limit)
    requires NormalizeLimit(s.limit, 50, w.cfg.maxResults).Some?
    requires call == NextCall(w, NormalizeLimit(s.limit, 50, w.cfg.maxResults).value)
    ensures NormalizeLimit(limit, 50, w.cfg.maxResults) == Some(limit) && NextCall(w, limit) == call.(limit := limit)
  {
  }

  lemma LessFits(w: World, call: Call, limit: int)
    requires Settled(w) && Here(w) == Some(call.cursor) && (call.through == 0 || call.through == call.cursor.through)
    requires call.notBefore.Some? ==> call.notBefore.value.Stamp?
    requires Page(w.db, QueryOf(w, call), w.now).Ok? && WithinStream(Lines(Page(w.db, QueryOf(w, call), w.now).value))
    requires 1 <= limit <= call.limit
    ensures var page := Page(w.db, QueryOf(w, call.(limit := limit)), w.now);
            page.Ok? && WithinStream(Lines(page.value))
  {
    SmallerPagesFit(w.db, QueryOf(w, call), w.now, limit);
    assert QueryOf(w, call.(limit := limit)) == QueryOf(w, call).(limit := limit);
  }

  lemma LessIsHandled(w: World, s: Step, limit: int)
    requires Settled(w) && s.CollectPage? && Handled(w, s).Ok? && 1 <= limit <= PageLimit(w.cfg, s.limit)
    ensures Handled(w, s.(limit := limit)).Ok?
  {
    HandledIff(w, s);
    var call := NextCall(w, NormalizeLimit(s.limit, 50, w.cfg.maxResults).value);
    LessIsPlanned(w, s, limit, call);
    LessFits(w, call, limit);
    HandledIff(w, s.(limit := limit));
  }

  /** Such a request succeeds when it asks for less. */
  lemma AskingForLessSucceeds(w: World, s: Step, limit: int)
    requires Settled(w) && s.CollectPage? && Response(w, s) == Err(ResponseTooLarge) && 1 <= limit <= ALWAYS_FIT
    ensures Response(w, s.(limit := limit)).Ok?
  {
    TooLargeAsksForMany(w, s);
    LessIsHandled(w, s, limit);
    HandledIff(w, s);
    SmallAnswersAreSent(w, s.(limit := limit));
  }

  lemma SmallAnswersAreSent(w: World, s: Step)
    requires Settled(w) && s.CollectPage? && Handled(w, s).Ok? && ValidId(s.request) && s.host.inTime
    requires 1 <= s.limit <= ALWAYS_FIT
    ensures Response(w, s).Ok?
  {
    SmallAnswersFit(w, s);
  }

  // ------------------------------------------------------- the length of a cycle

  /** A success that does not complete its cycle has read as many rows as it was allowed. */
  lemma SuccessIsFull(w: World, s: Step)
    requires Settled(w) && Succeeds(w, s)
    ensures Here(Apply(w, s)).Some?
    ensures !Here(Apply(w, s)).value.complete ==> Row(Apply(w, s)) >= Row(w) + PageLimit(w.cfg, s.limit)
  {
    var call, page := HandledIsAnswer(w, s);
    var received := Received(page);
    SuccessMovesTheCursor(w, s, call, received);
    if !page.complete {
      PositionsOutrunRows(received, call.cursor.row, call.through, call.limit, |received.rows| - 1);
    }
  }

  ghost function Successes(w: World, steps: seq<Step>): nat
    decreases |steps|
  {
    if steps == [] then 0
    else (if Succeeds(w, steps[0]) then 1 else 0) + Successes(Apply(w, steps[0]), steps[1..])
  }

  /** Every request that is planned at all may read at least so many rows. */
  predicate LimitsAtLeast(cfg: Config, steps: seq<Step>, least: nat) {
    forall s | s in steps && s.CollectPage? && PageLimit(cfg, s.limit) > 0 :: PageLimit(cfg, s.limit) >= least
  }

  /** What n successes of a cycle amount to, from a position up to a boundary and in the world they lead to. */
  ghost predicate Progress(n: nat, least: nat, from: int, upper: int, v: World) {
    && Here(v).Some?
    && if Here(v).value.complete then n > 0 && (n - 1) * least < upper - from
       else n * least <= Row(v) - from < upper - from
  }

  lemma OneMoreSuccess(n: nat, least: nat, a: int, b: int, upper: int, v: World)
    requires Progress(n, least, b, upper, v) && a + least <= b && a < upper
    ensures Progress(n + 1, least, a, upper, v)
  {
    OneMoreOf(n, least);
  }

  /** One step of a pending cycle adds to what the later ones amount to. */
  lemma StepOfProgress(w: World, s: Step, least: nat, n: nat, v: World)
    requires Settled(w) && Enabled(w, s) && Here(w).value.through != 0 && !Here(w).value.complete
    requires s.CollectPage? && PageLimit(w.cfg, s.limit) > 0 ==> PageLimit(w.cfg, s.limit) >= least
    requires Here(Apply(w, s)).Some? && !Here(Apply(w, s)).value.complete
    requires Progress(n, least, Row(Apply(w, s)), Here(Apply(w, s)).value.through, v)
    ensures Progress(n + if Succeeds(w, s) then 1 else 0, least, Row(w), Here(w).value.through, v)
  {
    PendingStep(w, s, least);
    if Succeeds(w, s) {
      OneMoreSuccess(n, least, Row(w), Row(Apply(w, s)), Here(w).value.through, v);
    }
  }

  lemma LastOfProgress(w: World, s: Step, least: nat)
    requires Settled(w) && Enabled(w, s) && Here(w).value.through != 0 && !Here(w).value.complete
    requires s.CollectPage? && PageLimit(w.cfg, s.limit) > 0 ==> PageLimit(w.cfg, s.limit) >= least
    ensures Progress(if Succeeds(w, s) then 1 else 0, least, Row(w), Here(w).value.through, Apply(w, s))
  {
    PendingStep(w, s, least);
  }

  lemma LimitsOfRest(cfg: Config, steps: seq<Step>, least: nat)
    requires steps != [] && LimitsAtLeast(cfg, steps, least)
    ensures LimitsAtLeast(cfg, steps[1..], least)
    ensures steps[0].CollectPage? && PageLimit(cfg, steps[0].limit) > 0 ==> PageLimit(cfg, steps[0].limit) >= least
  {
    assert steps[0] in steps && forall t | t in steps[1..] :: t in steps;
  }

  lemma Unrolled(w: World, steps: seq<Step>)
    requires steps != []
    ensures Run(w, steps) == Run(Apply(w, steps[0]), steps[1..])
    ensures Successes(w, steps) == (if Succeeds(w, steps[0]) then 1 else 0) + Successes(Apply(w, steps[0]), steps[1..])
    ensures |steps| == 1 ==>
              Run(w, steps) == Apply(w, steps[0]) && Successes(w, steps) == if Succeeds(w, steps[0]) then 1 else 0
  {
  }

  /**
   However rows come and go, and whatever fails or is lost: a pending cycle from row a to boundary U
   with limits of at least L is complete after ceil((U - a) / L) successes, or sooner.
   */
  lemma {:induction false} PendingCycleIsShort(w: World, steps: seq<Step>, least: nat)
    requires Settled(w) && ValidRun(w, steps) && Here(w).value.through != 0 && !Here(w).value.complete
    requires PendingThroughout(w, steps) && LimitsAtLeast(w.cfg, steps, least)
    ensures Progress(Successes(w, steps), least, Row(w), Here(w).value.through, Run(w, steps))
    decreases |steps|
  {
    if steps == [] {
      PendingIsBelow(w);
    } else {
      var s, next, rest := steps[0], Apply(w, steps[0]), steps[1..];
      LimitsOfRest(w.cfg, steps, least);
      Unrolled(w, steps);
      if rest == [] {
        LastOfProgress(w, s, least);
      } else {
        PendingStep(w, s, least);
        PendingCycleIsShort(next, rest, least);
        StepOfProgress(w, s, least, Successes(next, rest), Run(next, rest));
      }
    }
  }

  lemma OneMoreOf(n: nat, k: nat)
    ensures (n + 1) * k == n * k + k && (n > 0 ==> n * k == (n - 1) * k + k)
  {
  }

  lemma PendingIsBelow(w: World)
    requires Settled(w) && Here(w).value.through != 0 && !Here(w).value.complete
    ensures Row(w) < Here(w).value.through
  {
  }

  lemma PendingStep(w: World, s: Step, least: nat)
    requires Settled(w) && Enabled(w, s) && Here(w).value.through != 0 && !Here(w).value.complete
    requires s.CollectPage? && PageLimit(w.cfg, s.limit) > 0 ==> PageLimit(w.cfg, s.limit) >= least
    ensures var v := Apply(w, s);
            && Settled(v) && v.cfg == w.cfg
            && Here(v).value.through == Here(w).value.through && Row(w) < Here(w).value.through
            && (Succeeds(w, s) && !Here(v).value.complete ==> Row(w) + least <= Row(v) < Here(w).value.through)
            && (!Succeeds(w, s) ==> Here(v) == Here(w))
  {
    PendingIsBelow(w);
    if Succeeds(w, s) {
      SuccessAdvances(w, s);
      SuccessIsFull(w, s);
      SuccessKeepsTheRest(w, s);
      var call, page := HandledIsAnswer(w, s);
    } else {
      OtherStepsKeepTheClient(w, s);
      HorizonOnlyEnds(w, s);
    }
  }

  // -------------------------------------------------------- a cycle can complete

  /** Nothing stands in the way of reading the table: every row decodes, and every chat could be shown. */
  ghost predicate Readable(w: World) {
    && BoundedCollection(w.cfg) && w.db.hasReactions && w.db.hasAccounts && w.db.hasDateIndex
    && (forall id | id in w.db.messages :: DecodeRow(w.db, Some(w.cfg.backendAccount), id).Ok?)
    && forall c | c in w.db.chats :: ModestNames(w.db.chats[c])
  }

  predicate NextIsGood(w: World, limit: int)
    requires Here(w).Some?
  {
    var call := NextCall(w, limit);
    GoodCall(call.cursor.row, call.through, call.limit, call.notBefore)
  }

  /** A request that meets no failure on its way. */
  function PlainRequest(limit: int, p: Policy): Step { CollectPage("r", limit, 0, GOOD_HOST, Some(p), true) }

  lemma PlainRequestSucceeds(w: World, limit: int, p: Policy)
    requires Settled(w) && Readable(w) && w.policy.Some? && 1 <= limit <= ALWAYS_FIT && limit <= w.cfg.maxResults
    requires NextIsGood(w, limit)
    ensures Succeeds(w, PlainRequest(limit, p))
  {
    var call := NextCall(w, limit);
    var q := QueryOf(w, call);
    GoodCallsHaveGoodBounds(call.cursor.row, call.through, call.limit, w.cfg.backendAccount, call.notBefore);
    assert w.cfg.backendAccount in [w.cfg.instance, w.cfg.account, w.cfg.backendAccount];
    assert Trim("") == "";
    ReadablePage(w.db, q, w.now);
    SmallRequestsSucceedIff(w, PlainRequest(limit, p));
    TrimFixed("r");
    assert "r"[1..] == "";
  }

  lemma ReadablePage(db: Database, q: Query, now: int)
    requires GoodBounds(q) && SupportedSchema(db, q)
    requires forall id | id in db.messages :: DecodeRow(db, q.account, id).Ok?
    ensures Page(db, q, now).Ok?
  {
    RawIdsInScope(db, q, now);
    var taken := Limited(RawIds(db, q, now), q.limit);
    assert forall id | id in taken :: id in RawIds(db, q, now);
  }

  lemma NextCallIsGood(w: World, s: Step, limit: int)
    requires Settled(w) && Succeeds(w, s) && 1 <= limit <= 1000
    ensures Here(Apply(w, s)).Some?
    ensures NextIsGood(Apply(w, s), limit)
  {
    SuccessAdvances(w, s);
    PositionAfter(w, s);
    HereIsDecoded(Apply(w, s), Response(w, s).value.cursor);
    assert w.cfg.maxResults <= w.cfg.maxCollectionScan;
  }

  /** The moments from which the next page can be read. */
  ghost predicate CanRead(w: World, p: Policy, limit: int) {
    && Settled(w) && Readable(w) && w.policy == Some(p) && 1 <= limit <= ALWAYS_FIT && limit <= w.cfg.maxResults
    && NextIsGood(w, limit)
  }

  /** How far the cycle has to go. */
  function Distance(w: World): int
    requires Here(w).Some?
  {
    Boundary(w) - Row(w)
  }

  lemma PlainStep(w: World, p: Policy, limit: int)
    requires CanRead(w, p, limit)
    ensures var s := PlainRequest(limit, p);
            && Succeeds(w, s) && CanRead(Apply(w, s), p, limit)
            && (!Completes(w, s) ==> 0 < Distance(Apply(w, s)) && Distance(Apply(w, s)) + limit <= Distance(w))
  {
    var s := PlainRequest(limit, p);
    PlainRequestSucceeds(w, limit, p);
    SuccessKeepsTheRest(w, s);
    PolicyAfter(w, s);
    PageStepKeepsTheCycle(w, s, p);
    NextCallIsGood(w, s, limit);
    SuccessIsFull(w, s);
    SuccessMovesOn(w, s);
  }

  /** How many pages of a limit a distance takes at most; PagesAreCeiling says what number that is. */
  function MostPages(limit: nat, distance: int): nat
    requires limit > 0
    decreases distance
  {
    if distance <= limit then 1 else 1 + MostPages(limit, distance - limit)
  }

  lemma {:induction false} PagesAreCeiling(limit: nat, distance: int)
    requires limit > 0 && distance > 0
    ensures (MostPages(limit, distance) - 1) * limit < distance <= MostPages(limit, distance) * limit
    decreases distance
  {
    if distance > limit {
      PagesAreCeiling(limit, distance - limit);
      OneMoreOf(MostPages(limit, distance - limit), limit);
    }
  }

  lemma {:induction false} FartherTakesMore(limit: nat, near: int, far: int)
    requires limit > 0 && near <= far
    ensures MostPages(limit, near) <= MostPages(limit, far)
    decreases far
  {
    if near > limit {
      FartherTakesMore(limit, near - limit, far - limit);
    }
  }

  /**
   From every settled moment at which the table can be read, requests for up to twenty rows complete the
   cycle, in no more pages than the distance to the boundary takes.
   */
  lemma {:induction false} CycleCanComplete(w: World, p: Policy, limit: int) returns (steps: seq<Step>)
    requires CanRead(w, p, limit)
    ensures OnlyPages(steps, p) && FullCycle(w, steps)
    ensures 1 <= |steps| <= MostPages(limit, Distance(w))
    decreases Distance(w)
  {
    var s := PlainRequest(limit, p);
    PlainStep(w, p, limit);
    if Completes(w, s) {
      OneStepCycle(w, s, p);
      return [s];
    }
    var next := Apply(w, s);
    var rest := CycleCanComplete(next, p, limit);
    PrefixedCycle(w, s, rest, p);
    OnePageFewer(limit, Distance(next), Distance(w));
    return [s] + rest;
  }

  lemma OneStepCycle(w: World, s: Step, p: Policy)
    requires Completes(w, s) && s.CollectPage? && s.reloaded == Some(p)
    ensures FullCycle(w, [s]) && OnlyPages([s], p)
  {
  }

  lemma PrefixedCycle(w: World, s: Step, rest: seq<Step>, p: Policy)
    requires s.CollectPage? && s.reloaded == Some(p)
    requires !Completes(w, s) && FullCycle(Apply(w, s), rest) && OnlyPages(rest, p)
    ensures FullCycle(w, [s] + rest) && OnlyPages([s] + rest, p)
  {
    assert ([s] + rest)[1..] == rest;
  }

  lemma OnePageFewer(limit: nat, near: int, far: int)
    requires limit > 0 && 0 < near && near + limit <= far
    ensures 1 + MostPages(limit, near) <= MostPages(limit, far)
  {
    FartherTakesMore(limit, near, far - limit);
  }

  /** A completed cycle has examined everything that was in scope when it began. */
  lemma {:induction false} FullCycleExaminesAll(w: World, steps: seq<Step>, p: Policy, id: int)
    requires Settled(w) && OnlyPages(steps, p) && FullCycle(w, steps) && id in Scoped(w) && Row(w) < id <= Boundary(w)
    ensures id in Run(w, steps).client.log
  {
    FullCycleEndsAtBoundary(w, steps, p);
    PagesAreUndisturbed(w, steps, p, id);
    PagesKeepTheTable(w, steps, p);
    SelectedRowsAreExamined(w, steps, id);
  }

  /** And it has delivered exactly what the table owes the policy for it. */
  lemma FullCycleDeliversWhatIsOwed(w: World, steps: seq<Step>, p: Policy, id: int, m: Message)
    requires Settled(w) && w.policy == Some(p) && OnlyPages(steps, p) && FullCycle(w, steps) && InOrder(w)
    requires Row(w) < id && m.rowId == id
    ensures m in Run(w, steps).client.delivered <==>
            id <= Boundary(w) && InScope(w, id) && exists s, chat :: Owed(w, p, id, s, chat, m)
  {
    FullCycleIsOneScan(w, steps, p);
    var ids := IdsIn(Scoped(w), Row(w), Boundary(w));
    IdsInMembers(Scoped(w), Row(w), Boundary(w));
    ScanDelivers(w, p, ids, id, m);
    RowIsNatural(w);
    ScannedIsOwedIff(w, p, id, m);
    InScopeIff(w, id);
    assert m !in w.client.delivered;
  }

  lemma {:induction false} PagesAreUndisturbed(w: World, steps: seq<Step>, p: Policy, id: int)
    requires OnlyPages(steps, p)
    ensures ValidRun(w, steps) && UndisturbedThroughout(w, steps, id)
    decreases |steps|
  {
    if steps != [] {
      assert steps[0] in steps && forall t | t in steps[1..] :: t in steps;
      PagesAreUndisturbed(Apply(w, steps[0]), steps[1..], p, id);
    }
  }

  lemma {:induction false} PagesKeepTheTable(w: World, steps: seq<Step>, p: Policy)
    requires OnlyPages(steps, p)
    ensures Run(w, steps).db == w.db
    decreases |steps|
  {
    if steps != [] {
      assert steps[0] in steps && forall t | t in steps[1..] :: t in steps;
      PageStep(w, steps[0]);
      PagesKeepTheTable(Apply(w, steps[0]), steps[1..], p);
    }
  }

  /** A cycle that is not pending ends at or above the newest row there is. */
  lemma NewCycleReachesTheNewest(w: World, id: int)
    requires Settled(w) && id in w.db.messages && (Here(w).value.complete || Here(w).value.through == 0)
    ensures id <= Boundary(w)
  {
  }

  /**
   New messages are always reached: from every settled moment with no boundary pending and no horizon, at
   which the table can be read, there are steps that leave every row above the position in the log.
   */
  lemma NewRowsAreReached(w: World, p: Policy, limit: int) returns (steps: seq<Step>)
    requires CanRead(w, p, limit) && (Here(w).value.complete || Here(w).value.through == 0) && Horizon(w).None?
    ensures OnlyPages(steps, p) && ValidRun(w, steps) && FullCycle(w, steps)
    ensures 1 <= |steps| <= MostPages(limit, Distance(w))
    ensures forall id | id in w.db.messages && Row(w) < id :: id in Run(w, steps).client.log
    ensures forall id | id in w.db.messages :: id <= Row(Run(w, steps))
  {
    steps := CycleCanComplete(w, p, limit);
    PagesAreUndisturbed(w, steps, p, 0);
    FullCycleEndsAtBoundary(w, steps, p);
    forall id | id in w.db.messages ensures id <= Boundary(w) && (Row(w) < id ==> id in Run(w, steps).client.log) {
      NewCycleReachesTheNewest(w, id);
      if Row(w) < id {
        FullCycleExaminesAll(w, steps, p, id);
      }
    }
  }

  lemma PolicyAfter(w: World, s: Step)
    requires Succeeds(w, s)
    ensures Apply(w, s).policy == s.reloaded
  {
    SuccessIsAfter(w, s, Response(w, s), PageRows(w, s));
  }

  // ------------------------------------------------------------- a new cursor key

  /** The client holds a cursor sealed under another key or for another instance. */
  predicate Stranded(w: World) {
    && w.client.position.Held? && w.client.position.token.Sealed?
    && (w.client.position.token.key != w.cfg.key || w.client.position.token.instance != w.cfg.instance)
  }

  lemma StrandedHere(w: World)
    requires Stranded(w)
    ensures Here(w).None?
  {
  }

  lemma StrandedStep(w: World, s: Step)
    requires Stranded(w)
    ensures Apply(w, s).client == w.client && Apply(w, s).cfg == w.cfg
  {
    if s.CollectPage? {
      assert Plan(w.cfg, w.generation, Request(w, s.limit)).Err?;
      assert Handled(w, s).Err? && Response(w, s).Err?;
    }
  }

  lemma {:induction false} StrandedStays(w: World, steps: seq<Step>)
    requires Stranded(w)
    ensures Stranded(Run(w, steps)) && Run(w, steps).client == w.client && Here(Run(w, steps)).None?
    decreases |steps|
  {
    StrandedHere(w);
    if steps != [] {
      StrandedStep(w, steps[0]);
      StrandedStays(Apply(w, steps[0]), steps[1..]);
    }
  }

  /**
   When the broker comes back with another key, sealed cursors and no others are lost: a client that
   holds one gets no further in any run, every other client goes on from where it was.
   */
  lemma NewKeyStrandsIff(w: World, key: nat, steps: seq<Step>)
    requires Settled(w) && key != w.cfg.key
    ensures var v := w.(cfg := w.cfg.(key := key));
            if w.client.position.Held? && w.client.position.token.Sealed?
            then Run(v, steps).client == w.client && Here(Run(v, steps)).None?
            else Settled(v) && Here(v) == Here(w)
  {
    var v := w.(cfg := w.cfg.(key := key));
    if w.client.position.Held? && w.client.position.token.Sealed? {
      StrandedStays(v, steps);
    }
  }
}
