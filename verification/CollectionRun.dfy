/**
 Whole runs of bounded collection: one client paging through one message table with the broker,
 the adapter and the producer in between, while rows, chats and the join table change, the clock
 moves, the policy changes, requests fail or lose their answer, and the broker restarts.

 Hypotheses, stated in Enabled and Settled: new row ids exceed every id ever used; the join table has
 no duplicate rows; the clock does not go back; the cursor key survives restarts; the two names are
 short enough for cursors; row and chat ids fit 64 bits. Results about a row that must stay as it is
 say so (UndisturbedThroughout).
 */
module CollectionRun {
  import opened Lists
  import opened Wrappers
  import opened Text
  import opened Policy
  import opened Clock
  import opened Lengths
  import opened MessageStore
  import opened Collection
  import opened Cursor
  import opened Broker
  import opened Answers

  /** What the client sends next: its first request, or the cursor of its last success. */
  datatype Position = Initial(after: int, notBefore: Option<TimeText>) | Held(token: Token)

  /** The client, with the ids of all rows its successful pages examined and the messages they showed. */
  datatype Client = Client(position: Position, log: seq<int>, delivered: seq<Message>)

  datatype World = World(
    cfg: Config, generation: string, db: Database, top: int, now: int, policy: Option<Policy>, client: Client)

  /**
   A row's join rows are part of it, so a join row that comes or goes changes its row. A collection step
   loads the policy again after the read; its answer may be lost.
   */
  datatype Step =
    | InsertRow(id: int, row: MessageRow)
    | ChangeRow(id: int, row: MessageRow)
    | DeleteRow(id: int)
    | AddChat(id: int, chat: ChatRow)
    | ChangeChat(id: int, chat: ChatRow)
    | DropChat(id: int)
    | Tick(now: int)
    | ChangePolicy(policy: Option<Policy>)
    | Restart
    | CollectPage(request: string, limit: int, nonce: nat, host: Host, reloaded: Option<Policy>, delivered: bool)

  // ------------------------------------------------------------- transitions

  function Request(w: World, limit: int): Params {
    match w.client.position
    case Initial(after, notBefore) => Params(None, after, w.generation, limit, notBefore)
    case Held(token) => Params(Some(token), 0, "", limit, None)
  }

  function Producer(w: World, host: Host): Backend { RealBackend(w.db, w.now, w.cfg, host) }

  /** What the broker's handler answers. */
  function Handled(w: World, s: Step): Result<CollectResult, Failure>
    requires s.CollectPage?
  {
    CollectResponse(w.cfg, w.generation, Request(w, s.limit), w.policy, Producer(w, s.host), s.reloaded, s.nonce)
  }

  /** What the broker sends. */
  function Response(w: World, s: Step): Result<CollectResult, Failure>
    requires s.CollectPage?
  {
    CollectSent(s.request, s.host.inTime, Handled(w, s))
  }

  /** The rows of the page behind a successful response. */
  function PageRows(w: World, s: Step): seq<CollectionRow>
    requires s.CollectPage?
  {
    match Plan(w.cfg, w.generation, Request(w, s.limit))
    case Err(_) => []
    case Ok(call) =>
      match Producer(w, s.host)(call.cursor.row, call.through, call.limit, call.notBefore)
      case Err(_) => []
      case Ok(page) => page.rows
  }

  function Ids(rows: seq<CollectionRow>): seq<int> { seq(|rows|, i requires 0 <= i < |rows| => rows[i].rowId) }

  /** The client after a success: the new cursor, the rows examined and the messages shown. */
  function Advanced(c: Client, r: CollectResult, rows: seq<CollectionRow>): Client {
    Client(Held(r.cursor), c.log + Ids(rows), c.delivered + r.messages)
  }

  /** An answer that is an error, or is lost, leaves the client alone. */
  function AfterCollect(w: World, r: Result<CollectResult, Failure>, rows: seq<CollectionRow>,
                        reloaded: Option<Policy>, delivered: bool): World
  {
    w.(policy := reloaded, client := if r.Ok? && delivered then Advanced(w.client, r.value, rows) else w.client)
  }

  predicate Enabled(w: World, s: Step) {
    match s
    case InsertRow(id, row) => w.top < id < INT64_END && Distinct(row.links)
    case ChangeRow(id, row) => id in w.db.messages && Distinct(row.links)
    case AddChat(id, _) => id !in w.db.chats && id < INT64_END
    case ChangeChat(id, _) => id in w.db.chats
    case Tick(now) => w.now <= now
    case _ => true
  }

  function Apply(w: World, s: Step): World {
    match s
    case InsertRow(id, row) => w.(db := w.db.(messages := w.db.messages[id := row]), top := id)
    case ChangeRow(id, row) => w.(db := w.db.(messages := w.db.messages[id := row]))
    case DeleteRow(id) => w.(db := w.db.(messages := map k | k in w.db.messages && k != id :: w.db.messages[k]))
    case AddChat(id, chat) => w.(db := w.db.(chats := w.db.chats[id := chat]))
    case ChangeChat(id, chat) => w.(db := w.db.(chats := w.db.chats[id := chat]))
    case DropChat(id) => w.(db := w.db.(chats := map k | k in w.db.chats && k != id :: w.db.chats[k]))
    case Tick(now) => w.(now := now)
    case ChangePolicy(p) => w.(policy := p)
    case Restart => w
    case CollectPage(_, _, _, _, reloaded, delivered) =>
      AfterCollect(w, Response(w, s), PageRows(w, s), reloaded, delivered)
  }

  ghost predicate ValidRun(w: World, steps: seq<Step>)
    decreases |steps|
  {
    steps == [] || (Enabled(w, steps[0]) && ValidRun(Apply(w, steps[0]), steps[1..]))
  }

  function Run(w: World, steps: seq<Step>): World
    decreases |steps|
  {
    if steps == [] then w else Run(Apply(w, steps[0]), steps[1..])
  }

  // --------------------------------------------------------------- invariant

  /** The cursor the next request starts from. */
  function Here(w: World): Option<Cursor> {
    match StartCursor(w.cfg, w.generation, Request(w, 0))
    case Err(_) => None
    case Ok(c) => Some(c)
  }

  function Row(w: World): int { if Here(w).Some? then Here(w).value.row else 0 }

  /** The date horizon in force for the next page, if any. */
  function Horizon(w: World): Option<int> {
    match Here(w)
    case None => None
    case Some(c) =>
      if c.complete || c.notBefore.None? || c.notBefore.value.Malformed? then None else Some(c.notBefore.value.instant)
  }

  /** The rows the next page is about. */
  function Scoped(w: World): set<int> {
    Scope(w.db, Query(0, None, 1, Some(w.cfg.backendAccount), Horizon(w)), w.now)
  }

  /** The configuration can be used, and the table keeps to the hypotheses. */
  ghost predicate Sound(w: World) {
    && ValidConfig(w.cfg) && w.generation != "" && NamesLen(w.cfg.account, w.generation) <= MAX_NAMES
    && UniqueLinks(w.db) && w.top < INT64_END && (forall id | id in w.db.messages :: id <= w.top)
    && forall c | c in w.db.chats :: c < INT64_END
  }

  /** What holds at every moment of every run. */
  ghost predicate Settled(w: World) {
    && Sound(w) && Here(w).Some?
    && var c := Here(w).value;
    && c.account == w.cfg.account && c.generation == w.generation
    && 0 <= c.row < INT64_END && 0 <= c.through < INT64_END && (c.notBefore.Some? ==> c.notBefore.value.Stamp?)
    && (c.through <= c.row || c.through <= w.top)
    && Ascending(w.client.log) && (forall id | id in w.client.log :: id <= c.row)
  }

  /** Every first request a client may make starts a settled run: a row position, or a date at row zero. */
  lemma FirstRequestIsSettled(w: World, after: int, notBefore: Option<TimeText>)
    requires Sound(w) && 0 <= after < INT64_END && (notBefore.Some? ==> after == 0 && Parses(notBefore.value))
    requires w.client == Client(Initial(after, notBefore), [], [])
    ensures Settled(w) && Row(w) == after
  {
  }

  /** So does an old cursor without a date: collection resumes at its very row. */
  lemma LegacyCursorIsSettled(w: World, c: Cursor, length: nat)
    requires Sound(w)
    requires LegacyForm(c) && c.row < INT64_END && c.notBefore.None? && 0 < length <= MAX_TOKEN
    requires c.account == w.cfg.account && c.generation == w.generation
    requires w.client == Client(Held(Legacy(c, length)), [], [])
    ensures Settled(w) && Row(w) == c.row && Horizon(w).None?
  {
  }

  // ---------------------------------------------------------------- one step

  ghost predicate Succeeds(w: World, s: Step) { s.CollectPage? && s.delivered && Response(w, s).Ok? }

  /** A step that is not a delivered success leaves the client exactly where it was. */
  lemma OtherStepsKeepTheClient(w: World, s: Step)
    requires Settled(w) && Enabled(w, s) && !Succeeds(w, s)
    ensures Settled(Apply(w, s)) && Apply(w, s).client == w.client && Here(Apply(w, s)) == Here(w)
  {
  }

  /** The call behind a success, and the response it made. */
  lemma SuccessHasAnswer(w: World, s: Step) returns (call: Call, page: CollectionPage)
    requires Succeeds(w, s)
    ensures Plan(w.cfg, w.generation, Request(w, s.limit)) == Ok(call)
    ensures Producer(w, s.host)(call.cursor.row, call.through, call.limit, call.notBefore) == Ok(page)
    ensures ValidPage(page, call.cursor.row, call.through, call.limit) && PageRows(w, s) == page.rows
    ensures s.reloaded.Some?
    ensures Response(w, s) == Ok(CollectResult(
              Admit(w.cfg, w.generation, s.reloaded.value, page.rows),
              Encode(w.cfg.key, w.cfg.instance, s.nonce, NextCursor(call.cursor, page)), !page.complete, page.complete))
  {
    call := Plan(w.cfg, w.generation, Request(w, s.limit)).value;
    page := Producer(w, s.host)(call.cursor.row, call.through, call.limit, call.notBefore).value;
  }

  lemma PlanStartsHere(w: World, limit: int, call: Call)
    requires Plan(w.cfg, w.generation, Request(w, limit)) == Ok(call)
    ensures Here(w) == Some(call.cursor)
    ensures call.notBefore == (if call.cursor.complete then None else call.cursor.notBefore)
    ensures call.through == (if call.cursor.complete then 0 else call.cursor.through)
  {
  }

  /** The producer's page that answered the call. */
  lemma AnswerIsThePage(w: World, host: Host, call: Call, page: CollectionPage) returns (q: Query)
    requires Here(w) == Some(call.cursor)
    requires call.notBefore == (if call.cursor.complete then None else call.cursor.notBefore)
    requires Producer(w, host)(call.cursor.row, call.through, call.limit, call.notBefore) == Ok(page)
    ensures GoodCall(call.cursor.row, call.through, call.limit, call.notBefore)
    ensures q == CallQuery(call.cursor.row, call.through, call.limit, w.cfg.backendAccount, call.notBefore)
    ensures Page(w.db, q, w.now).Ok? && Scope(w.db, q, w.now) == Scoped(w)
    ensures page == Received(Page(w.db, q, w.now).value)
  {
    ProcessCollectIsThePage(w.db, w.now, w.cfg.backendAccount, BoundedCollection(w.cfg), host,
                            call.cursor.row, call.through, call.limit, call.notBefore);
    q := CallQuery(call.cursor.row, call.through, call.limit, w.cfg.backendAccount, call.notBefore);
  }

  /** The cursor a success hands out is the one the next request starts from. */
  lemma SuccessMovesTheCursor(w: World, s: Step, call: Call, page: CollectionPage)
    requires Settled(w) && Succeeds(w, s)
    requires Plan(w.cfg, w.generation, Request(w, s.limit)) == Ok(call)
    requires GoodCall(call.cursor.row, call.through, call.limit, call.notBefore)
    requires ValidPage(page, call.cursor.row, call.through, call.limit) && page.scanned <= page.through < INT64_END
    requires Response(w, s).value.cursor == Encode(w.cfg.key, w.cfg.instance, s.nonce, NextCursor(call.cursor, page))
    ensures Here(Apply(w, s)) == Some(NextCursor(call.cursor, page).(version := 2))
    ensures var c := NextCursor(call.cursor, page);
            && c.account == w.cfg.account && c.generation == w.generation
            && (if c.complete then c.row == c.through && c.notBefore.None? else 0 < c.row < c.through)
  {
    var c := NextCursor(call.cursor, page).(version := 2);
    EmittedCursorIsWellFormed(w.cfg, w.generation, Request(w, s.limit), page);
    ShortNamesFit(c);
    EmittedCursorDecodesIff(w.cfg, w.generation, Request(w, s.limit), page, s.nonce);
    PositionAfter(w, s);
    HereIsDecoded(Apply(w, s), Encode(w.cfg.key, w.cfg.instance, s.nonce, NextCursor(call.cursor, page)));
  }

  lemma PositionAfter(w: World, s: Step)
    requires Succeeds(w, s)
    ensures Apply(w, s).client.position == Held(Response(w, s).value.cursor) && Apply(w, s).cfg == w.cfg
  {
    SuccessIsAfter(w, s, Response(w, s), PageRows(w, s));
  }

  lemma HereIsDecoded(w: World, token: Token)
    requires w.client.position == Held(token)
    ensures Here(w) == Decode(w.cfg.key, w.cfg.instance, token)
  {
  }

  lemma PageStep(w: World, s: Step)
    requires s.CollectPage?
    ensures Apply(w, s) == AfterCollect(w, Response(w, s), PageRows(w, s), s.reloaded, s.delivered)
  {
  }

  /** The world after a success, with the answer and its rows named. */
  lemma SuccessIsAfter(w: World, s: Step, r: Result<CollectResult, Failure>, rows: seq<CollectionRow>)
    requires Succeeds(w, s) && r == Response(w, s) && rows == PageRows(w, s)
    ensures Apply(w, s) == w.(policy := s.reloaded, client := Advanced(w.client, r.value, rows))
  {
    PageStep(w, s);
  }

  /** The page that answers a call covers its scope exactly, up to the pinned or captured boundary. */
  lemma AnswerCovers(w: World, call: Call, q: Query)
    requires Settled(w) && Some(call.cursor) == Here(w)
    requires GoodCall(call.cursor.row, call.through, call.limit, call.notBefore)
    requires q == CallQuery(call.cursor.row, call.through, call.limit, w.cfg.backendAccount, call.notBefore)
    requires call.through == 0 || call.through == Here(w).value.through
    requires Page(w.db, q, w.now).Ok? && Scope(w.db, q, w.now) == Scoped(w)
    ensures var page := Received(Page(w.db, q, w.now).value);
            && Ids(page.rows) == IdsIn(Scoped(w), Row(w), page.scanned) && Row(w) <= page.scanned <= page.through
            && (page.complete <==> IdsIn(Scoped(w), page.scanned, page.through) == [])
            && (page.complete <==> page.scanned == page.through)
            && page.through == Upper(w.db, q)
            && page.through < INT64_END && (page.through <= Row(w) || page.through <= w.top)
  {
    PageCovers(w.db, q, w.now);
    UpperIsBounded(w, q);
  }

  lemma PageCovers(db: Database, q: Query, now: int)
    requires Page(db, q, now).Ok? && UniqueLinks(db)
    ensures var page, scope := Received(Page(db, q, now).value), Scope(db, q, now);
            && Ids(page.rows) == IdsIn(scope, q.after, page.scanned) && q.after <= page.scanned <= page.through
            && (page.complete <==> IdsIn(scope, page.scanned, page.through) == [])
            && (page.complete <==> page.scanned == page.through)
            && page.through == Upper(db, q)
  {
    if q.notBefore.Some? {
      UniqueLinksJoinOnce(db, q, now);
    }
    PageIsExact(db, q, now);
    var p := Page(db, q, now).value;
    assert Ids(Received(p).rows) == RowIds(p.rows);
  }

  /** What the page behind a success covers, and the cursor it leads to. */
  lemma SuccessCovers(w: World, s: Step) returns (page: CollectionPage)
    requires Settled(w) && Succeeds(w, s)
    ensures PageRows(w, s) == page.rows
    ensures Ids(page.rows) == IdsIn(Scoped(w), Row(w), page.scanned) && Row(w) <= page.scanned <= page.through
    ensures page.complete <==> IdsIn(Scoped(w), page.scanned, page.through) == []
    ensures page.complete <==> page.scanned == page.through
    ensures var c := Here(w).value;
            && page.through == (if !c.complete && c.through != 0 then c.through
                                else Upper(w.db, Query(c.row, None, 1, None, None)))
            && page.through < INT64_END && (page.through <= c.row || page.through <= w.top)
    ensures Here(Apply(w, s)) == Some(NextCursor(Here(w).value, page).(version := 2))
    ensures !page.complete ==> 0 < page.scanned
  {
    var call;
    call, page := SuccessHasAnswer(w, s);
    PlanStartsHere(w, s.limit, call);
    var q := AnswerIsThePage(w, s.host, call, page);
    AnswerCovers(w, call, q);
    SuccessMovesTheCursor(w, s, call, page);
  }

  lemma SuccessKeepsLog(w: World, s: Step)
    requires Settled(w) && Succeeds(w, s)
    ensures var v := Apply(w, s);
            && v.client.log == w.client.log + IdsIn(Scoped(w), Row(w), Row(v))
            && Ascending(v.client.log) && forall id | id in v.client.log :: id <= Row(v)
  {
    var page := SuccessCovers(w, s);
    LogShows(w, s);
    RowAfter(w, s, page);
    LogGrows(w.client.log, Scoped(w), Row(w), page.scanned);
  }

  lemma RowAfter(w: World, s: Step, page: CollectionPage)
    requires Settled(w) && Here(Apply(w, s)) == Some(NextCursor(Here(w).value, page).(version := 2))
    ensures Row(Apply(w, s)) == page.scanned
  {
  }

  lemma SuccessStaysSettled(w: World, s: Step)
    requires Settled(w) && Succeeds(w, s)
    ensures Settled(Apply(w, s))
  {
    var page := SuccessCovers(w, s);
    SuccessKeepsLog(w, s);
    SuccessKeepsTheRest(w, s);
  }

  lemma SuccessKeepsTheRest(w: World, s: Step)
    requires Succeeds(w, s)
    ensures var v := Apply(w, s);
            v.cfg == w.cfg && v.generation == w.generation && v.db == w.db && v.top == w.top && v.now == w.now
  {
    SuccessIsAfter(w, s, Response(w, s), PageRows(w, s));
  }

  /**
   A success moves the cursor forward over exactly the rows in scope between the old and the new
   position, adds them to the log in order, shows the admitted ones under the policy loaded after
   the read, keeps boundary and horizon while pending, and clears the horizon on completion at
   exactly the boundary.
   */
  lemma SuccessAdvances(w: World, s: Step)
    requires Settled(w) && Succeeds(w, s)
    ensures var v, c := Apply(w, s), Here(w).value;
            && Settled(v)
            && var d := Here(v).value;
            && c.row <= d.row && (d.row == c.row || d.row <= w.top)
            && v.client.log == w.client.log + IdsIn(Scoped(w), c.row, d.row)
            && s.reloaded.Some?
            && v.client.delivered == w.client.delivered + Admit(w.cfg, w.generation, s.reloaded.value, PageRows(w, s))
            && (d.complete ==> d.row == d.through && Horizon(v).None?)
            && (!d.complete ==> 0 < d.row < d.through && Horizon(v) == Horizon(w))
            && (!c.complete && c.through != 0 ==> d.through == c.through)
            && (c.complete || c.through == 0 ==> d.through == Upper(w.db, Query(c.row, None, 1, None, None)))
            && (d.complete <==> IdsIn(Scoped(w), d.row, d.through) == [])
  {
    SuccessStaysSettled(w, s);
    SuccessMovesOn(w, s);
    SuccessKeepsLog(w, s);
    SuccessDelivers(w, s);
  }

  /** The part of this about the cursor. */
  lemma SuccessMovesOn(w: World, s: Step)
    requires Settled(w) && Succeeds(w, s)
    ensures var v, c := Apply(w, s), Here(w).value;
            && Here(v).Some?
            && var d := Here(v).value;
            && c.row <= d.row && (d.row == c.row || d.row <= w.top)
            && (d.complete ==> d.row == d.through && Horizon(v).None?)
            && (!d.complete ==> 0 < d.row < d.through && Horizon(v) == Horizon(w))
            && (!c.complete && c.through != 0 ==> d.through == c.through)
            && (c.complete || c.through == 0 ==> d.through == Upper(w.db, Query(c.row, None, 1, None, None)))
            && (d.complete <==> IdsIn(Scoped(w), d.row, d.through) == [])
  {
    var page := SuccessCovers(w, s);
    CompleteHasNoHorizonLeft(w, page);
  }

  lemma SuccessDelivers(w: World, s: Step)
    requires Settled(w) && Succeeds(w, s)
    ensures s.reloaded.Some?
    ensures Apply(w, s).client.delivered == w.client.delivered + Response(w, s).value.messages
    ensures Response(w, s).value.messages == Admit(w.cfg, w.generation, s.reloaded.value, PageRows(w, s))
  {
    var call, page := SuccessHasAnswer(w, s);
    DeliveredGrows(w, s);
  }

  lemma DeliveredGrows(w: World, s: Step)
    requires Succeeds(w, s)
    ensures Apply(w, s).client.delivered == w.client.delivered + Response(w, s).value.messages
  {
    SuccessIsAfter(w, s, Response(w, s), PageRows(w, s));
  }

  /** Each message a success delivers is admissible under the policy loaded after its read, and its row is examined. */
  lemma DeliveredIsAdmissible(w: World, s: Step, i: nat) returns (k: nat)
    requires Settled(w) && Succeeds(w, s) && i < |Response(w, s).value.messages|
    ensures k < |PageRows(w, s)| && s.reloaded.Some?
    ensures var row, m := PageRows(w, s)[k], Response(w, s).value.messages[i];
            && row.message.Some? && row.chat.Some? && m.rowId == row.rowId
            && Admissible(w.cfg, w.generation, row.message.value, row.chat.value, s.reloaded.value, m)
  {
    var call, page := SuccessHasAnswer(w, s);
    k := CollectedIsAdmissible(w.cfg, w.generation, s.reloaded.value, page.rows, i);
  }

  /** A complete cursor already starts an ordinary cycle, so carrying its (absent) horizon is harmless. */
  lemma CompleteHasNoHorizonLeft(w: World, page: CollectionPage)
    requires Settled(w)
    ensures Here(w).value.complete ==> Here(w).value.notBefore.None?
  {
  }

  lemma UpperIsBounded(w: World, q: Query)
    requires Settled(w) && q.after == Row(w) && (q.through.Some? ==> q.through.value == Here(w).value.through)
    ensures Upper(w.db, q) < INT64_END && (Upper(w.db, q) <= Row(w) || Upper(w.db, q) <= w.top)
  {
    var m := MaxRow(w.db.messages.Keys);
    if w.db.messages.Keys != {} {
      assert m in w.db.messages;
    }
  }

  lemma LogGrows(log: seq<int>, ids: set<int>, lo: int, hi: int)
    requires Ascending(log) && (forall id | id in log :: id <= lo) && lo <= hi
    ensures Ascending(log + IdsIn(ids, lo, hi)) && forall id | id in log + IdsIn(ids, lo, hi) :: id <= hi
  {
    IdsInMembers(ids, lo, hi);
    IdsInAscending(ids, lo, hi);
    var more := IdsIn(ids, lo, hi);
    assert forall i | 0 <= i < |log| :: log[i] in log;
    assert forall i | 0 <= i < |more| :: more[i] in more;
  }

  /** The call that the next request makes, for a limit the configuration admits. */
  function NextCall(w: World, limit: int): Call
    requires Here(w).Some?
  {
    var c := Here(w).value;
    Call(c, if c.complete then 0 else c.through,
         if limit < w.cfg.maxCollectionScan then limit else w.cfg.maxCollectionScan,
         if c.complete then None else c.notBefore)
  }

  /** The query behind a call. */
  function QueryOf(w: World, call: Call): Query
    requires call.notBefore.Some? ==> call.notBefore.value.Stamp?
  {
    CallQuery(call.cursor.row, call.through, call.limit, w.cfg.backendAccount, call.notBefore)
  }

  /** The answer that a page of the producer makes, under a policy. */
  function AnswerTo(w: World, p: Policy, nonce: nat, page: SafePage): CollectResult
    requires Here(w).Some?
  {
    CollectResult(Admit(w.cfg, w.generation, p, Received(page).rows),
                  Encode(w.cfg.key, w.cfg.instance, nonce, NextCursor(Here(w).value, Received(page))),
                  !page.complete, page.complete)
  }

  const GOOD_HOST := Host(true, true, true, true)

  /** All that a request needs besides its page. */
  predicate Admitted(w: World, s: Step)
    requires s.CollectPage?
  {
    && ValidId(s.request) && NormalizeLimit(s.limit, 50, w.cfg.maxResults).Some?
    && BoundedCollection(w.cfg) && s.host == GOOD_HOST && w.policy.Some? && s.reloaded.Some?
  }

  /**
   A collection request succeeds exactly when its id and limit are admitted, the release has the collect
   command, the files keep their identity, the process runs to its end in time, both policies load, the
   horizon still parses, the producer returns a page whose lines are short enough for the stream, and
   the answer is short enough for the transport.
   */
  lemma CollectSucceedsIff(w: World, s: Step)
    requires Settled(w) && s.CollectPage?
    ensures Response(w, s).Ok? <==>
              && Admitted(w, s)
              && var call := NextCall(w, NormalizeLimit(s.limit, 50, w.cfg.maxResults).value);
              && GoodCall(call.cursor.row, call.through, call.limit, call.notBefore)
              && var page := Page(w.db, QueryOf(w, call), w.now);
              && page.Ok? && WithinStream(Lines(page.value))
              && CollectLen(s.request, AnswerTo(w, s.reloaded.value, s.nonce, page.value)) <= MAX_RESPONSE
  {
    HandledIff(w, s);
  }

  /** The part of this that the handler decides, and its answer. */
  lemma HandledIff(w: World, s: Step)
    requires Settled(w) && s.CollectPage?
    ensures Handled(w, s).Ok? <==>
              && NormalizeLimit(s.limit, 50, w.cfg.maxResults).Some?
              && BoundedCollection(w.cfg) && s.host.sameBefore && s.host.runs && s.host.sameAfter
              && w.policy.Some? && s.reloaded.Some?
              && var call := NextCall(w, NormalizeLimit(s.limit, 50, w.cfg.maxResults).value);
              && GoodCall(call.cursor.row, call.through, call.limit, call.notBefore)
              && var page := Page(w.db, QueryOf(w, call), w.now);
              && page.Ok? && WithinStream(Lines(page.value))
    ensures Handled(w, s).Ok? ==>
              var call := NextCall(w, NormalizeLimit(s.limit, 50, w.cfg.maxResults).value);
              Handled(w, s).value == AnswerTo(w, s.reloaded.value, s.nonce, Page(w.db, QueryOf(w, call), w.now).value)
  {
    if NormalizeLimit(s.limit, 50, w.cfg.maxResults).Some? {
      PlanIsNextCall(w, s.limit);
      AnswerExistsIff(w, s.host, NextCall(w, NormalizeLimit(s.limit, 50, w.cfg.maxResults).value));
    }
  }

  lemma PlanIsNextCall(w: World, limit: int)
    requires Settled(w) && NormalizeLimit(limit, 50, w.cfg.maxResults).Some?
    ensures Plan(w.cfg, w.generation, Request(w, limit)) ==
            Ok(NextCall(w, NormalizeLimit(limit, 50, w.cfg.maxResults).value))
  {
  }

  lemma AnswerExistsIff(w: World, host: Host, call: Call)
    requires Settled(w)
    ensures var page := Producer(w, host)(call.cursor.row, call.through, call.limit, call.notBefore);
            && (page.Ok? <==>
                  && BoundedCollection(w.cfg) && host.sameBefore && host.runs && host.sameAfter
                  && GoodCall(call.cursor.row, call.through, call.limit, call.notBefore)
                  && Page(w.db, QueryOf(w, call), w.now).Ok?
                  && WithinStream(Lines(Page(w.db, QueryOf(w, call), w.now).value)))
            && (page.Ok? ==>
                  && page.value == Received(Page(w.db, QueryOf(w, call), w.now).value)
                  && ValidPage(page.value, call.cursor.row, call.through, call.limit))
  {
    var account, bounded := w.cfg.backendAccount, BoundedCollection(w.cfg);
    ProcessCollectIff(w.db, w.now, account, bounded, host, call.cursor.row, call.through, call.limit, call.notBefore);
    if Producer(w, host)(call.cursor.row, call.through, call.limit, call.notBefore).Ok? {
      ProcessCollectIsThePage(w.db, w.now, account, bounded, host,
                              call.cursor.row, call.through, call.limit, call.notBefore);
    } else if GoodCall(call.cursor.row, call.through, call.limit, call.notBefore) {
      GoodPagesAreAccepted(w, call);
    }
  }

  lemma GoodPagesAreAccepted(w: World, call: Call)
    requires Settled(w) && GoodCall(call.cursor.row, call.through, call.limit, call.notBefore)
    ensures var q := QueryOf(w, call);
            Page(w.db, q, w.now).Ok? && WithinStream(Lines(Page(w.db, q, w.now).value)) ==>
              CollectLines(Lines(Page(w.db, q, w.now).value), true, call.cursor.row, call.through, call.limit) ==
              Some(Received(Page(w.db, q, w.now).value))
  {
    var q := QueryOf(w, call);
    if Page(w.db, q, w.now).Ok? {
      GoodCallsHaveGoodBounds(call.cursor.row, call.through, call.limit, w.cfg.backendAccount, call.notBefore);
      if q.notBefore.Some? {
        UniqueLinksJoinOnce(w.db, q, w.now);
      }
      ProducerAndReaderAgree(w.db, q, w.now);
    }
  }

  lemma StepKeepsSettled(w: World, s: Step)
    requires Settled(w) && Enabled(w, s)
    ensures Settled(Apply(w, s)) && Row(w) <= Row(Apply(w, s)) && w.client.log <= Apply(w, s).client.log
  {
    if Succeeds(w, s) {
      SuccessAdvances(w, s);
    } else {
      OtherStepsKeepTheClient(w, s);
    }
  }

  lemma {:induction false} RunKeepsSettled(w: World, steps: seq<Step>)
    requires Settled(w) && ValidRun(w, steps)
    ensures Settled(Run(w, steps)) && Row(w) <= Row(Run(w, steps)) && w.client.log <= Run(w, steps).client.log
    decreases |steps|
  {
    if steps != [] {
      StepKeepsSettled(w, steps[0]);
      RunKeepsSettled(Apply(w, steps[0]), steps[1..]);
    }
  }

  // ---------------------------------------------------------------- coverage

  /** The world in which a position was read past, just before the page that did it. */
  ghost function ReachedIn(w: World, steps: seq<Step>, id: int): Option<World>
    decreases |steps|
  {
    if steps == [] then None
    else if Row(w) < id <= Row(Apply(w, steps[0])) then Some(w)
    else ReachedIn(Apply(w, steps[0]), steps[1..], id)
  }

  /**
   Coverage, over every run: a position above the start has been passed exactly when some page read
   past it, and its row is in the log exactly when it was in scope in the world of that page. With
   the log strictly ascending, each such row is examined exactly once.
   */
  lemma {:induction false} ExaminedIffInScopeWhenReached(w: World, steps: seq<Step>, id: int)
    requires Settled(w) && ValidRun(w, steps) && Row(w) < id
    ensures var v, at := Run(w, steps), ReachedIn(w, steps, id);
            && Ascending(v.client.log)
            && (id <= Row(v) <==> at.Some?)
            && (id in v.client.log <==> at.Some? && id in Scoped(at.value))
    decreases |steps|
  {
    if steps != [] {
      var next := Apply(w, steps[0]);
      StepKeepsSettled(w, steps[0]);
      RunKeepsSettled(next, steps[1..]);
      if id <= Row(next) {
        SuccessWhenMoving(w, steps[0]);
        IdsInMembers(Scoped(w), Row(w), Row(next));
        LaterLogsAddAbove(next, steps[1..], id);
      } else {
        ExaminedIffInScopeWhenReached(next, steps[1..], id);
      }
    }
  }

  lemma SuccessWhenMoving(w: World, s: Step)
    requires Settled(w) && Enabled(w, s) && Row(w) < Row(Apply(w, s))
    ensures Succeeds(w, s) && Apply(w, s).client.log == w.client.log + IdsIn(Scoped(w), Row(w), Row(Apply(w, s)))
    ensures Row(Apply(w, s)) <= w.top
  {
    if Succeeds(w, s) {
      SuccessAdvances(w, s);
    } else {
      OtherStepsKeepTheClient(w, s);
    }
  }

  lemma {:induction false} LaterLogsAddAbove(w: World, steps: seq<Step>, id: int)
    requires Settled(w) && ValidRun(w, steps) && id <= Row(w)
    ensures id in Run(w, steps).client.log <==> id in w.client.log
    decreases |steps|
  {
    if steps != [] {
      var next := Apply(w, steps[0]);
      StepKeepsSettled(w, steps[0]);
      if Succeeds(w, steps[0]) {
        SuccessAdvances(w, steps[0]);
        IdsInMembers(Scoped(w), Row(w), Row(next));
      } else {
        OtherStepsKeepTheClient(w, steps[0]);
      }
      LaterLogsAddAbove(next, steps[1..], id);
    }
  }

  /** A row that survives a run, at an id already used when the run starts, was there all along. */
  lemma {:induction false} SurvivorsWereThere(w: World, steps: seq<Step>, id: int)
    requires Settled(w) && ValidRun(w, steps) && id <= w.top && id in Run(w, steps).db.messages
    ensures id in w.db.messages
    decreases |steps|
  {
    if steps != [] {
      StepKeepsSettled(w, steps[0]);
      SurvivorsWereThere(Apply(w, steps[0]), steps[1..], id);
    }
  }

  lemma OrdinaryStaysOrdinary(w: World, s: Step)
    requires Settled(w) && Enabled(w, s) && Horizon(w).None?
    ensures Horizon(Apply(w, s)).None?
  {
    if Succeeds(w, s) {
      SuccessAdvances(w, s);
    } else {
      OtherStepsKeepTheClient(w, s);
    }
  }

  /** Without a date horizon, every retained row up to the final position was examined. */
  lemma {:induction false} RetainedRowsAreExamined(w: World, steps: seq<Step>, id: int)
    requires Settled(w) && ValidRun(w, steps) && Horizon(w).None?
    requires Row(w) < id <= Row(Run(w, steps)) && id in Run(w, steps).db.messages
    ensures id in Run(w, steps).client.log
    decreases |steps|
  {
    var next := Apply(w, steps[0]);
    StepKeepsSettled(w, steps[0]);
    if id <= Row(next) {
      SuccessWhenMoving(w, steps[0]);
      SurvivorsWereThere(w, steps, id);
      IdsInMembers(Scoped(w), Row(w), Row(next));
      LaterLogsAddAbove(next, steps[1..], id);
    } else {
      OrdinaryStaysOrdinary(w, steps[0]);
      RetainedRowsAreExamined(next, steps[1..], id);
    }
  }

  // ------------------------------------------------- bootstrap and hand-over

  /** The step changes neither the row nor a chat it is joined to; it may delete the row. */
  ghost predicate Undisturbed(w: World, s: Step, id: int) {
    match s
    case ChangeRow(k, _) => k != id
    case ChangeChat(c, _) => id in w.db.messages ==> c !in w.db.messages[id].links
    case DropChat(c) => id in w.db.messages ==> c !in w.db.messages[id].links
    case _ => true
  }

  ghost predicate UndisturbedThroughout(w: World, steps: seq<Step>, id: int)
    decreases |steps|
  {
    steps == [] || (Undisturbed(w, steps[0], id) && UndisturbedThroughout(Apply(w, steps[0]), steps[1..], id))
  }

  lemma UndisturbedStays(w: World, s: Step, id: int)
    requires Settled(w) && Enabled(w, s) && Undisturbed(w, s, id) && id in Apply(w, s).db.messages && id <= w.top
    ensures id in w.db.messages && Apply(w, s).db.messages[id] == w.db.messages[id]
    ensures forall c | c in w.db.messages[id].links && c in w.db.chats ::
              c in Apply(w, s).db.chats && Apply(w, s).db.chats[c] == w.db.chats[c]
  {
  }

  /** A row that a date query selected stays selected by it, with the same content, while it exists. */
  lemma SelectedStays(w: World, s: Step, threshold: int, id: int)
    requires Settled(w) && Enabled(w, s) && Undisturbed(w, s, id) && id in Apply(w, s).db.messages && id <= w.top
    requires Selected(w.db, w.cfg.backendAccount, threshold, w.now + PLAUSIBLE_GRACE, id)
    ensures Apply(w, s).cfg == w.cfg && Apply(w, s).db.messages[id] == w.db.messages[id] && id <= Apply(w, s).top
    ensures Selected(Apply(w, s).db, w.cfg.backendAccount, threshold, Apply(w, s).now + PLAUSIBLE_GRACE, id)
  {
    UndisturbedStays(w, s, id);
    var chat := w.db.messages[id].links[0];
    assert chat in w.db.messages[id].links;
  }

  /** A row in scope stays in scope while it is as it was: time only widens the window, completion lifts it. */
  lemma SelectionPersists(w: World, s: Step, id: int)
    requires Settled(w) && Enabled(w, s) && Undisturbed(w, s, id)
    requires id in Scoped(w) && id in Apply(w, s).db.messages && id <= w.top
    ensures id in Scoped(Apply(w, s))
  {
    var v := Apply(w, s);
    HorizonOnlyEnds(w, s);
    if Horizon(v).Some? {
      SelectedStays(w, s, Horizon(w).value, id);
    }
  }

  lemma HorizonOnlyEnds(w: World, s: Step)
    requires Settled(w) && Enabled(w, s)
    ensures Horizon(Apply(w, s)).Some? ==> Horizon(Apply(w, s)) == Horizon(w)
    ensures Apply(w, s).cfg == w.cfg
  {
    if Succeeds(w, s) {
      SuccessMovesOn(w, s);
    } else {
      OtherStepsKeepTheClient(w, s);
    }
  }

  /** Every row in scope when the run starts, and as it was at the end, is examined once it is passed. */
  lemma {:induction false} SelectedRowsAreExamined(w: World, steps: seq<Step>, id: int)
    requires Settled(w) && ValidRun(w, steps) && id in Scoped(w) && UndisturbedThroughout(w, steps, id)
    requires Row(w) < id <= Row(Run(w, steps)) && id in Run(w, steps).db.messages
    ensures id in Run(w, steps).client.log
    decreases |steps|
  {
    var next := Apply(w, steps[0]);
    StepKeepsSettled(w, steps[0]);
    assert id in w.db.messages;
    if id <= Row(next) {
      SuccessWhenMoving(w, steps[0]);
      IdsInMembers(Scoped(w), Row(w), Row(next));
      LaterLogsAddAbove(next, steps[1..], id);
    } else {
      SurvivorsWereThere(next, steps[1..], id);
      SelectionPersists(w, steps[0], id);
      SelectedRowsAreExamined(next, steps[1..], id);
    }
  }

  /** Every row above the boundary of a pending bootstrap is left to the ordinary cycles, which examine it. */
  lemma {:induction false} LaterRowsAreExamined(w: World, steps: seq<Step>, id: int)
    requires Settled(w) && ValidRun(w, steps)
    requires Here(w).value.through != 0 && !Here(w).value.complete && Here(w).value.through < id
    requires Row(w) < id <= Row(Run(w, steps)) && id in Run(w, steps).db.messages
    ensures id in Run(w, steps).client.log
    decreases |steps|
  {
    var next := Apply(w, steps[0]);
    StepKeepsSettled(w, steps[0]);
    if Succeeds(w, steps[0]) {
      SuccessAdvances(w, steps[0]);
    } else {
      OtherStepsKeepTheClient(w, steps[0]);
    }
    if Here(next).value.complete {
      RetainedRowsAreExamined(next, steps[1..], id);
    } else {
      LaterRowsAreExamined(next, steps[1..], id);
    }
  }

  /** No step but the last completes the cycle. */
  ghost predicate PendingThroughout(w: World, steps: seq<Step>)
    decreases |steps|
  {
    steps != [] ==>
      var next := Apply(w, steps[0]);
      && (steps[1..] == [] || (Here(next).Some? && !Here(next).value.complete))
      && PendingThroughout(next, steps[1..])
  }

  /** Boundary and horizon of a pending cycle never change; completion is exactly at the boundary. */
  lemma {:induction false} PendingCycleIsPinned(w: World, steps: seq<Step>)
    requires Settled(w) && ValidRun(w, steps) && Here(w).value.through != 0 && !Here(w).value.complete
    requires PendingThroughout(w, steps)
    ensures Here(Run(w, steps)).Some? && Here(Run(w, steps)).value.through == Here(w).value.through
    ensures var d := Here(Run(w, steps)).value;
            if d.complete then d.row == d.through && Horizon(Run(w, steps)).None?
            else Horizon(Run(w, steps)) == Horizon(w)
    decreases |steps|
  {
    if steps != [] {
      var next, rest := Apply(w, steps[0]), steps[1..];
      StepKeepsSettled(w, steps[0]);
      if Succeeds(w, steps[0]) {
        SuccessAdvances(w, steps[0]);
      } else {
        OtherStepsKeepTheClient(w, steps[0]);
      }
      if rest != [] {
        PendingCycleIsPinned(next, rest);
      }
    }
  }

  // ---------------------------------------------------- paging refines a scan

  /** One row of the table, as the broker would receive it. */
  ghost function ScanRow(w: World, id: int): CollectionRow {
    match DecodeRow(w.db, Some(w.cfg.backendAccount), id)
    case Ok(r) => ReceivedRow(r)
    case Err(_) => CollectionRow(id, None, None)
  }

  ghost function ScanRows(w: World, ids: seq<int>): seq<CollectionRow> {
    seq(|ids|, i requires 0 <= i < |ids| => ScanRow(w, ids[i]))
  }

  /** One scan of everything in scope between two positions, filtered by one policy. */
  ghost function OneShot(w: World, p: Policy, lo: int, hi: int): seq<Message> {
    Admit(w.cfg, w.generation, p, ScanRows(w, IdsIn(Scoped(w), lo, hi)))
  }

  lemma ScanRowsConcat(w: World, a: seq<int>, b: seq<int>)
    ensures ScanRows(w, a + b) == ScanRows(w, a) + ScanRows(w, b)
  {
  }

  lemma OneShotSplits(w: World, p: Policy, lo: int, mid: int, hi: int)
    requires lo <= mid <= hi
    ensures OneShot(w, p, lo, hi) == OneShot(w, p, lo, mid) + OneShot(w, p, mid, hi)
  {
    IdsInSplit(Scoped(w), lo, mid, hi);
    var a, b := IdsIn(Scoped(w), lo, mid), IdsIn(Scoped(w), mid, hi);
    ScanRowsConcat(w, a, b);
    AdmitConcat(w.cfg, w.generation, p, ScanRows(w, a), ScanRows(w, b));
  }

  /** The rows of the page behind a success are those in scope between the two positions. */
  lemma SuccessReadsTheScan(w: World, s: Step)
    requires Settled(w) && Succeeds(w, s)
    ensures Ids(PageRows(w, s)) == IdsIn(Scoped(w), Row(w), Row(Apply(w, s)))
  {
    SuccessAdvances(w, s);
    var ids := IdsIn(Scoped(w), Row(w), Row(Apply(w, s)));
    LogShows(w, s);
    SameTail(w.client.log, Ids(PageRows(w, s)), ids);
  }

  lemma LogShows(w: World, s: Step)
    requires Succeeds(w, s)
    ensures Apply(w, s).client.log == w.client.log + Ids(PageRows(w, s))
  {
    SuccessIsAfter(w, s, Response(w, s), PageRows(w, s));
  }

  lemma SameTail(log: seq<int>, a: seq<int>, b: seq<int>)
    requires log + a == log + b
    ensures a == b
  {
    assert (log + a)[|log|..] == a && (log + b)[|log|..] == b;
  }

  lemma SuccessIsAScan(w: World, s: Step)
    requires Settled(w) && Succeeds(w, s)
    ensures PageRows(w, s) == ScanRows(w, IdsIn(Scoped(w), Row(w), Row(Apply(w, s))))
  {
    var call, page := SuccessHasAnswer(w, s);
    PlanStartsHere(w, s.limit, call);
    var q := AnswerIsThePage(w, s.host, call, page);
    SuccessReadsTheScan(w, s);
    PageIsAScan(w, q);
  }

  lemma PageIsAScan(w: World, q: Query)
    requires q.account == Some(w.cfg.backendAccount) && Page(w.db, q, w.now).Ok?
    ensures var rows := Received(Page(w.db, q, w.now).value).rows; rows == ScanRows(w, Ids(rows))
  {
    var p := Page(w.db, q, w.now).value;
    PageRowsAreDecoded(w.db, q, w.now);
    forall i | 0 <= i < |p.rows| ensures Received(p).rows[i] == ScanRow(w, Ids(Received(p).rows)[i]) {
      assert Ids(Received(p).rows)[i] == p.rows[i].id;
    }
  }

  lemma PageRowsAreDecoded(db: Database, q: Query, now: int)
    requires Page(db, q, now).Ok?
    ensures forall i | 0 <= i < |Page(db, q, now).value.rows| ::
              DecodeRow(db, q.account, Page(db, q, now).value.rows[i].id) == Ok(Page(db, q, now).value.rows[i])
  {
  }

  /** Only collection requests, all reading and keeping the same policy; limits, losses and failures are free. */
  ghost predicate OnlyPages(steps: seq<Step>, p: Policy) {
    forall s | s in steps :: s.CollectPage? && s.reloaded == Some(p)
  }

  /** No page but the last leaves the kind of cycle the run started in. */
  ghost predicate OneKindOfCycle(w: World, steps: seq<Step>)
    decreases |steps|
  {
    steps != [] ==>
      && (steps[1..] == [] || Horizon(Apply(w, steps[0])) == Horizon(w))
      && OneKindOfCycle(Apply(w, steps[0]), steps[1..])
  }

  lemma PageStepIsAScan(w: World, s: Step, p: Policy)
    requires Settled(w) && s.CollectPage? && s.reloaded == Some(p)
    ensures var v := Apply(w, s);
            && Settled(v) && Row(w) <= Row(v) && v.(client := w.client) == w.(policy := Some(p))
            && v.client.delivered == w.client.delivered + OneShot(w, p, Row(w), Row(v))
  {
    if Succeeds(w, s) {
      SuccessAdvances(w, s);
      SuccessIsAScan(w, s);
    } else {
      OtherStepsKeepTheClient(w, s);
      assert IdsIn(Scoped(w), Row(w), Row(w)) == [];
    }
  }

  lemma SameScan(w: World, v: World, p: Policy, lo: int, hi: int)
    requires v.(client := w.client) == w && (Horizon(v) == Horizon(w) || hi <= lo)
    ensures OneShot(v, p, lo, hi) == OneShot(w, p, lo, hi)
  {
    if lo < hi {
      assert Scoped(v) == Scoped(w);
    } else {
      assert IdsIn(Scoped(v), lo, hi) == [] == IdsIn(Scoped(w), lo, hi);
    }
    var ids := IdsIn(Scoped(w), lo, hi);
    assert ScanRows(v, ids) == ScanRows(w, ids);
  }

  lemma Glue(before: seq<Message>, a: seq<Message>, b: seq<Message>, ab: seq<Message>)
    requires ab == a + b
    ensures before + a + b == before + ab
  {
  }

  /**
   Paging refines one scan: on a fixed table and policy, whatever the limits and whichever pages
   fail or are lost, the messages delivered between two positions are those of a single scan.
   */
  lemma {:induction false} PagingRefinesOneScan(w: World, steps: seq<Step>, p: Policy)
    requires Settled(w) && w.policy == Some(p) && OnlyPages(steps, p) && OneKindOfCycle(w, steps)
    ensures Row(w) <= Row(Run(w, steps))
    ensures Run(w, steps).client.delivered == w.client.delivered + OneShot(w, p, Row(w), Row(Run(w, steps)))
    decreases |steps|
  {
    if steps == [] {
      assert IdsIn(Scoped(w), Row(w), Row(w)) == [];
    } else {
      var s, next, rest := steps[0], Apply(w, steps[0]), steps[1..];
      assert s in steps && forall t | t in rest :: t in steps;
      PageStepIsAScan(w, s, p);
      PagingRefinesOneScan(next, rest, p);
      var end := Run(next, rest);
      assert rest == [] ==> end == next;
      SameScan(w, next, p, Row(next), Row(end));
      OneShotSplits(w, p, Row(w), Row(next), Row(end));
      Glue(w.client.delivered, OneShot(w, p, Row(w), Row(next)), OneShot(next, p, Row(next), Row(end)),
           OneShot(w, p, Row(w), Row(end)));
    }
  }

  /** The step is a success that completes its cycle. */
  ghost predicate Completes(w: World, s: Step) {
    Succeeds(w, s) && Here(Apply(w, s)).Some? && Here(Apply(w, s)).value.complete
  }

  /** The last step, and no other, completes the cycle. */
  ghost predicate FullCycle(w: World, steps: seq<Step>)
    decreases |steps|
  {
    && steps != []
    && (if |steps| == 1 then Completes(w, steps[0])
        else !Completes(w, steps[0]) && FullCycle(Apply(w, steps[0]), steps[1..]))
  }

  /** Where the cycle ends that the next success begins or continues. */
  function Boundary(w: World): int
    requires Here(w).Some?
  {
    var c := Here(w).value;
    if !c.complete && c.through != 0 then c.through else Upper(w.db, Query(c.row, None, 1, None, None))
  }

  lemma PageStepKeepsTheCycle(w: World, s: Step, p: Policy)
    requires Settled(w) && s.CollectPage? && s.reloaded == Some(p)
    ensures Settled(Apply(w, s))
    ensures Completes(w, s) ==> Row(Apply(w, s)) == Boundary(w)
    ensures !Completes(w, s) ==> Boundary(Apply(w, s)) == Boundary(w) && Horizon(Apply(w, s)) == Horizon(w)
  {
    if Succeeds(w, s) {
      SuccessAdvances(w, s);
    } else {
      OtherStepsKeepTheClient(w, s);
    }
  }

  lemma {:induction false} FullCycleEndsAtBoundary(w: World, steps: seq<Step>, p: Policy)
    requires Settled(w) && OnlyPages(steps, p) && FullCycle(w, steps)
    ensures OneKindOfCycle(w, steps) && Row(Run(w, steps)) == Boundary(w)
    decreases |steps|
  {
    var next, rest := Apply(w, steps[0]), steps[1..];
    assert steps[0] in steps && forall t | t in rest :: t in steps;
    PageStepKeepsTheCycle(w, steps[0], p);
    if rest == [] {
      assert Run(next, rest) == next;
    } else {
      FullCycleEndsAtBoundary(next, rest, p);
    }
  }

  /**
   A whole cycle, in pages of any limits, with any failures and losses on the way: it ends exactly at
   its boundary and delivers what one scan of everything in scope up to the boundary would.
   */
  lemma FullCycleIsOneScan(w: World, steps: seq<Step>, p: Policy)
    requires Settled(w) && w.policy == Some(p) && OnlyPages(steps, p) && FullCycle(w, steps)
    ensures Row(Run(w, steps)) == Boundary(w)
    ensures Run(w, steps).client.delivered == w.client.delivered + OneShot(w, p, Row(w), Boundary(w))
  {
    FullCycleEndsAtBoundary(w, steps, p);
    PagingRefinesOneScan(w, steps, p);
  }

  /** Two ways of paging through a whole cycle deliver the same messages. */
  lemma LimitsNeverMatter(w: World, a: seq<Step>, b: seq<Step>, p: Policy)
    requires Settled(w) && w.policy == Some(p)
    requires OnlyPages(a, p) && FullCycle(w, a) && OnlyPages(b, p) && FullCycle(w, b)
    ensures Run(w, a).client.delivered == Run(w, b).client.delivered
  {
    FullCycleIsOneScan(w, a, p);
    FullCycleIsOneScan(w, b, p);
  }
}
