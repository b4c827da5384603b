/**
 What whole runs of collection deliver, with policies changing from page to page: each message at most
 once, in order, and exactly when its row was admissible as its page was read; and which rows end a
 collection for good.
 */
module CollectionDelivery {
  import opened Lists
  import opened Wrappers
  import opened Text
  import opened Identity
  import opened Policy
  import opened Clock
  import opened Lengths
  import opened MessageStore
  import opened Collection
  import opened Broker
  import opened CollectionRun

  // ------------------------------------------------------------ once, in order

  function Positions(ms: seq<Message>): seq<int> { seq(|ms|, i requires 0 <= i < |ms| => ms[i].rowId) }

  /** The messages delivered so far ascend, and none is beyond the position. */
  ghost predicate InOrder(w: World) {
    Ascending(Positions(w.client.delivered)) && forall m | m in w.client.delivered :: m.rowId <= Row(w)
  }

  lemma AdmittedKeepsItsRow(cfg: Config, generation: string, p: Policy, row: CollectionRow)
    requires RowAgrees(row)
    ensures |AdmitRow(cfg, generation, p, row)| <= 1
    ensures forall m | m in AdmitRow(cfg, generation, p, row) :: m.rowId == row.rowId
  {
    if row.message.Some? && row.chat.Some? && ValidChat(row.chat.value) {
      var x := Expose(cfg, generation, row.message.value, row.chat.value, p);
      if x.Show? {
        ShownIffAdmissible(cfg, generation, row.message.value, row.chat.value, p, x.value);
      }
    }
  }

  /** Rows that yield at most one message each, at their own position. */
  ghost predicate KeepsPositions(f: CollectionRow -> seq<Message>, rows: seq<CollectionRow>) {
    forall r | r in rows :: |f(r)| <= 1 && forall m | m in f(r) :: m.rowId == r.rowId
  }

  lemma {:induction false} GatherAscends(f: CollectionRow -> seq<Message>, rows: seq<CollectionRow>)
    requires Ascending(Ids(rows)) && KeepsPositions(f, rows)
    ensures Ascending(Positions(Gather(rows, f)))
    ensures forall m | m in Gather(rows, f) :: m.rowId in Ids(rows)
  {
    if rows != [] {
      var n := |rows| - 1;
      var before, last := Gather(rows[..n], f), f(rows[n]);
      assert rows[n] in rows && forall r | r in rows[..n] :: r in rows;
      assert Ids(rows)[..n] == Ids(rows[..n]) && Ids(rows)[n] == rows[n].rowId;
      GatherAscends(f, rows[..n]);
      forall m | m in before ensures m.rowId < rows[n].rowId && m.rowId in Ids(rows) {
        var k :| 0 <= k < n && Ids(rows[..n])[k] == m.rowId;
        assert Ids(rows)[k] == m.rowId;
      }
      assert Gather(rows, f) == before + last;
      assert forall i | 0 <= i < |before| :: before[i] in before && Positions(before + last)[i] == Positions(before)[i];
      assert forall i | 0 <= i < |last| :: last[i] in last;
    }
  }

  lemma PageInOrder(w: World, s: Step)
    requires Settled(w) && Succeeds(w, s) && s.reloaded.Some?
    ensures var ms := Admit(w.cfg, w.generation, s.reloaded.value, PageRows(w, s));
            && Ascending(Positions(ms))
            && forall m | m in ms :: Row(w) < m.rowId <= Row(Apply(w, s))
  {
    var call, page := SuccessHasAnswer(w, s);
    var ids := IdsIn(Scoped(w), Row(w), Row(Apply(w, s)));
    SuccessReadsTheScan(w, s);
    IdsInAscending(Scoped(w), Row(w), Row(Apply(w, s)));
    IdsInMembers(Scoped(w), Row(w), Row(Apply(w, s)));
    forall r | r in page.rows {
      AdmittedKeepsItsRow(w.cfg, w.generation, s.reloaded.value, r);
    }
    GatherAscends(Admitter(w.cfg, w.generation, s.reloaded.value), page.rows);
  }

  lemma StepKeepsInOrder(w: World, s: Step)
    requires Settled(w) && Enabled(w, s) && InOrder(w)
    ensures InOrder(Apply(w, s))
  {
    StepKeepsSettled(w, s);
    if Succeeds(w, s) {
      SuccessAdvances(w, s);
      PageInOrder(w, s);
      var more := Admit(w.cfg, w.generation, s.reloaded.value, PageRows(w, s));
      InOrderAppends(w.client.delivered, more, Row(w), Row(Apply(w, s)));
    } else {
      OtherStepsKeepTheClient(w, s);
    }
  }

  lemma InOrderAppends(before: seq<Message>, more: seq<Message>, lo: int, hi: int)
    requires Ascending(Positions(before)) && (forall m | m in before :: m.rowId <= lo) && lo <= hi
    requires Ascending(Positions(more)) && (forall m | m in more :: lo < m.rowId <= hi)
    ensures Ascending(Positions(before + more)) && forall m | m in before + more :: m.rowId <= hi
  {
    assert Positions(before + more) == Positions(before) + Positions(more);
    assert forall i | 0 <= i < |before| :: before[i] in before;
    assert forall i | 0 <= i < |more| :: more[i] in more;
  }

  /** Over every run, the messages delivered ascend strictly by row: none is delivered twice. */
  lemma {:induction false} RunDeliversInOrder(w: World, steps: seq<Step>)
    requires Settled(w) && ValidRun(w, steps) && InOrder(w)
    ensures InOrder(Run(w, steps))
    decreases |steps|
  {
    if steps != [] {
      StepKeepsSettled(w, steps[0]);
      StepKeepsInOrder(w, steps[0]);
      RunDeliversInOrder(Apply(w, steps[0]), steps[1..]);
    }
  }

  // ----------------------------------------------- exactly the admissible rows

  /** The world and the page request that read past a position. */
  datatype Reach = Reach(world: World, step: Step)

  ghost function ReachedBy(w: World, steps: seq<Step>, id: int): Option<Reach>
    decreases |steps|
  {
    if steps == [] then None
    else if Row(w) < id <= Row(Apply(w, steps[0])) then Some(Reach(w, steps[0]))
    else ReachedBy(Apply(w, steps[0]), steps[1..], id)
  }

  /** The row was in scope as its page was read, and shows this message under the policy loaded after the read. */
  ghost predicate Deliverable(w: World, s: Step, id: int, m: Message) {
    && s.CollectPage? && s.reloaded.Some? && id in Scoped(w)
    && ShowsAs(w, s.reloaded.value, ScanRow(w, id), m)
  }

  ghost predicate ShowsAs(w: World, p: Policy, row: CollectionRow, m: Message) {
    && row.message.Some? && row.chat.Some? && ValidChat(row.chat.value)
    && Admissible(w.cfg, w.generation, row.message.value, row.chat.value, p, m)
  }

  lemma AdmittedIff(w: World, p: Policy, row: CollectionRow, m: Message)
    ensures m in AdmitRow(w.cfg, w.generation, p, row) <==> ShowsAs(w, p, row, m)
  {
    if row.message.Some? && row.chat.Some? {
      ShownIffAdmissible(w.cfg, w.generation, row.message.value, row.chat.value, p, m);
    }
  }

  lemma ShownAtItsRow(w: World, p: Policy, id: int, m: Message)
    requires ShowsAs(w, p, ScanRow(w, id), m)
    ensures m.rowId == id && ScanRow(w, id).rowId == id
  {
  }

  /** Filtering a scan keeps a message exactly when the row at its position is scanned and shows it. */
  lemma ScanDelivers(w: World, p: Policy, ids: seq<int>, id: int, m: Message)
    requires m.rowId == id
    ensures m in Admit(w.cfg, w.generation, p, ScanRows(w, ids)) <==> id in ids && ShowsAs(w, p, ScanRow(w, id), m)
  {
    var rows, f := ScanRows(w, ids), Admitter(w.cfg, w.generation, p);
    GatherMeaning(rows, f, m);
    forall row ensures m in f(row) <==> ShowsAs(w, p, row, m) {
      AdmittedIff(w, p, row, m);
    }
    ScanShows(w, p, ids, id, m);
  }

  lemma ScanShows(w: World, p: Policy, ids: seq<int>, id: int, m: Message)
    requires m.rowId == id
    ensures (exists row | row in ScanRows(w, ids) :: ShowsAs(w, p, row, m)) <==>
            id in ids && ShowsAs(w, p, ScanRow(w, id), m)
  {
    var rows := ScanRows(w, ids);
    if row :| row in rows && ShowsAs(w, p, row, m) {
      var i :| 0 <= i < |ids| && rows[i] == row;
      ShownAtItsRow(w, p, ids[i], m);
      assert ids[i] in ids;
    }
    if id in ids {
      var i :| 0 <= i < |ids| && ids[i] == id;
      assert rows[i] == ScanRow(w, id) && rows[i] in rows;
    }
  }

  /** A page delivers exactly the messages its rows show. */
  lemma PageDelivers(w: World, s: Step, id: int, m: Message)
    requires Settled(w) && Succeeds(w, s) && s.reloaded.Some? && m.rowId == id && Row(w) < id <= Row(Apply(w, s))
    ensures m in Admit(w.cfg, w.generation, s.reloaded.value, PageRows(w, s)) <==> Deliverable(w, s, id, m)
  {
    var ids := IdsIn(Scoped(w), Row(w), Row(Apply(w, s)));
    SuccessIsAScan(w, s);
    IdsInMembers(Scoped(w), Row(w), Row(Apply(w, s)));
    ScanDelivers(w, s.reloaded.value, ids, id, m);
  }

  lemma {:induction false} LaterPagesDeliverAbove(w: World, steps: seq<Step>, m: Message)
    requires Settled(w) && ValidRun(w, steps) && m.rowId <= Row(w)
    ensures m in Run(w, steps).client.delivered <==> m in w.client.delivered
    decreases |steps|
  {
    if steps != [] {
      var next := Apply(w, steps[0]);
      StepKeepsSettled(w, steps[0]);
      if Succeeds(w, steps[0]) {
        SuccessAdvances(w, steps[0]);
        PageInOrder(w, steps[0]);
      } else {
        OtherStepsKeepTheClient(w, steps[0]);
      }
      LaterPagesDeliverAbove(next, steps[1..], m);
    }
  }

  /**
   Exactly-once delivery, over every run with policies changing at will: a message at a position above
   the start is delivered exactly when some page read past that position while its row was in scope and
   showed this message under the policy loaded after that read. With RunDeliversInOrder, once.
   */
  lemma {:induction false} DeliveredIffAdmissibleWhenReached(w: World, steps: seq<Step>, id: int, m: Message)
    requires Settled(w) && ValidRun(w, steps) && InOrder(w) && Row(w) < id && m.rowId == id
    ensures var at := ReachedBy(w, steps, id);
            m in Run(w, steps).client.delivered <==> at.Some? && Deliverable(at.value.world, at.value.step, id, m)
    decreases |steps|
  {
    if steps != [] {
      var s, next := steps[0], Apply(w, steps[0]);
      StepKeepsSettled(w, s);
      StepKeepsInOrder(w, s);
      if id <= Row(next) {
        SuccessWhenMoving(w, s);
        SuccessAdvances(w, s);
        PageDelivers(w, s, id, m);
        LaterPagesDeliverAbove(next, steps[1..], m);
      } else {
        DeliveredIffAdmissibleWhenReached(next, steps[1..], id, m);
      }
    }
  }

  // ------------------------------------------------------- from table to client

  function RowConversation(chat: ChatInfo): Conversation {
    Conversation(chat.row.guid, chat.row.identifier, Some(chat.row.isGroup), Some(chat.row.handles))
  }

  /** Each field of the message is that of the table's row and chat; the sender of what was received is a member. */
  ghost predicate TellsOf(w: World, id: int, s: SafeMessage, chat: ChatInfo, m: Message) {
    && m.account == w.cfg.account && m.generation == w.generation
    && m.rowId == id && m.guid == s.guid && m.chatId == chat.id && m.chatGuid == chat.row.guid
    && m.fromMe == s.fromMe && m.text == s.text && m.createdAt == Stamp(s.date, 0)
    && (if s.fromMe then m.sender == "" else Normalize(s.sender) == Some(m.sender) && IsMember(chat, m.sender))
  }

  ghost predicate IsMember(chat: ChatInfo, v: string) { exists h :: h in chat.row.handles && Normalize(h) == Some(v) }

  /** The row is a message of a permitted conversation that is not suppressed, and this tells of it. */
  ghost predicate Owed(w: World, p: Policy, id: int, s: SafeMessage, chat: ChatInfo, m: Message) {
    && IsObservation(w.db, Some(w.cfg.backendAccount), id, s, chat) && TellsOf(w, id, s, chat, m)
    && Permits(p, RowConversation(chat)) && !w.cfg.suppress(s.text) && YEAR_ZERO <= s.date < YEAR_TEN_THOUSAND
    && 0 < ByteLen(chat.row.guid) <= 512 && ByteLen(chat.row.identifier) <= 512 && 0 < ByteLen(chat.row.service) <= 64
  }

  lemma ReceivedAgrees(id: int, s: SafeMessage, chat: ChatInfo)
    ensures Agree(MessageJson(id, s, chat), ChatJson(chat)) <==> Consistent(RowConversation(chat))
  {
  }

  lemma PermittedIsConsistent(p: Policy, c: Conversation)
    ensures Authorize(p, c).allowed <==> Permits(p, c)
    ensures Permits(p, c) ==> Consistent(c)
  {
    AuthorizeMeaning(p, c);
  }

  lemma TellsOfIff(w: World, id: int, s: SafeMessage, chat: ChatInfo, m: Message)
    ensures TellsOf(w, id, s, chat, m) <==>
              var row := MessageJson(id, s, chat);
              && SameFields(w.cfg, w.generation, row, ChatJson(chat), m)
              && (if s.fromMe then m.sender == ""
                  else Normalize(s.sender) == Some(m.sender) && m.sender in Normals(chat.row.handles))
  {
    assert m.sender in Normals(chat.row.handles) <==> IsMember(chat, m.sender);
  }

  lemma ReceivedIsAdmissibleIff(w: World, p: Policy, id: int, s: SafeMessage, chat: ChatInfo, m: Message)
    ensures Admissible(w.cfg, w.generation, MessageJson(id, s, chat), ChatJson(chat), p, m) <==>
              && WellFormedFields(MessageJson(id, s, chat)) && chat.row.account == Some(w.cfg.backendAccount)
              && Permits(p, RowConversation(chat))
              && YEAR_ZERO <= s.date < YEAR_TEN_THOUSAND && !w.cfg.suppress(s.text) && TellsOf(w, id, s, chat, m)
  {
    TellsOfIff(w, id, s, chat, m);
    PermittedIsConsistent(p, RowConversation(chat));
    ReceivedAgrees(id, s, chat);
    assert ChatConversation(ChatJson(chat)) == RowConversation(chat);
  }

  lemma ObservedIsWellFormed(db: Database, account: string, id: int, s: SafeMessage, chat: ChatInfo)
    requires IsObservation(db, Some(account), id, s, chat) && 0 < id
    ensures WellFormedFields(MessageJson(id, s, chat)) && chat.row.account == Some(account) && chat.id > 0
  {
  }

  lemma ObservedIsOwedIff(w: World, p: Policy, id: int, s: SafeMessage, chat: ChatInfo, m: Message)
    requires IsObservation(w.db, Some(w.cfg.backendAccount), id, s, chat) && 0 < id
    ensures ShowsAs(w, p, ReceivedRow(Shown(id, s, chat)), m) <==> Owed(w, p, id, s, chat, m)
  {
    ObservedIsWellFormed(w.db, w.cfg.backendAccount, id, s, chat);
    ReceivedIsAdmissibleIff(w, p, id, s, chat, m);
  }

  /** A scanned row shows a message exactly when the table owes it. */
  lemma ScannedIsOwedIff(w: World, p: Policy, id: int, m: Message)
    requires 0 < id
    ensures ShowsAs(w, p, ScanRow(w, id), m) <==> exists s, chat :: Owed(w, p, id, s, chat, m)
  {
    var account := Some(w.cfg.backendAccount);
    var r := DecodeRow(w.db, account, id);
    if r.Ok? && r.value.Shown? {
      ShownRowIff(w.db, account, id, r.value.message, r.value.chat);
      ObservedIsOwedIff(w, p, id, r.value.message, r.value.chat, m);
    }
    if s, chat :| Owed(w, p, id, s, chat, m) {
      ShownRowIff(w.db, account, id, s, chat);
      ObservedIsOwedIff(w, p, id, s, chat, m);
    }
  }

  /** The rows that the next page is about, in terms of the table. */
  ghost predicate InScope(w: World, id: int) {
    match Horizon(w)
    case None => id in w.db.messages
    case Some(since) => Qualifies(w.db, Some(w.cfg.backendAccount), since, w.now, id)
  }

  lemma InScopeIff(w: World, id: int)
    ensures id in Scoped(w) <==> InScope(w, id)
  {
    if Horizon(w).Some? {
      SelectedIff(w.db, w.cfg.backendAccount, Horizon(w).value, w.now, id);
    }
  }

  /**
   From table to client, over every run: a message above the start is delivered exactly when some page read
   past its row while that row was in scope, and the table as it was then owed this message to the policy
   loaded after the read. Every field delivered is therefore the field of a table row.
   */
  lemma DeliveredIffOwed(w: World, steps: seq<Step>, id: int, m: Message)
    requires Settled(w) && ValidRun(w, steps) && InOrder(w) && Row(w) < id && m.rowId == id
    ensures var at := ReachedBy(w, steps, id);
            m in Run(w, steps).client.delivered <==>
              && at.Some? && at.value.step.CollectPage? && at.value.step.reloaded.Some? && InScope(at.value.world, id)
              && exists s, chat :: Owed(at.value.world, at.value.step.reloaded.value, id, s, chat, m)
  {
    DeliveredIffAdmissibleWhenReached(w, steps, id, m);
    var at := ReachedBy(w, steps, id);
    RowIsNatural(w);
    if at.Some? && at.value.step.CollectPage? && at.value.step.reloaded.Some? {
      InScopeIff(at.value.world, id);
      ScannedIsOwedIff(at.value.world, at.value.step.reloaded.value, id, m);
    }
  }

  lemma RowIsNatural(w: World)
    requires Settled(w)
    ensures Row(w) >= 0
  {
  }

  // ------------------------------------------------------------ bootstrap rows

  /** On a page that succeeds, a selected row under a positive chat id is a message. */
  lemma SelectedIsAMessage(w: World, s: Step, threshold: int, id: int)
    requires Settled(w) && Succeeds(w, s) && Row(w) < id <= Row(Apply(w, s)) && id in Scoped(w)
    requires Selected(w.db, w.cfg.backendAccount, threshold, w.now + PLAUSIBLE_GRACE, id)
             && w.db.messages[id].links[0] > 0
    ensures ScanRow(w, id).message.Some? && ScanRow(w, id).chat.Some?
  {
    var r := PassedRowFits(w, s, id);
    SelectedRowIsSkippedIff(w.db, w.cfg.backendAccount, threshold, w.now + PLAUSIBLE_GRACE, id);
    assert r.id == id && (r.Skipped? ==> r == Skipped(id));
  }

  lemma {:induction false} EligibleRowsAreRead(w: World, steps: seq<Step>, threshold: int, id: int)
    requires Settled(w) && ValidRun(w, steps) && id in Scoped(w) && UndisturbedThroughout(w, steps, id)
    requires Selected(w.db, w.cfg.backendAccount, threshold, w.now + PLAUSIBLE_GRACE, id)
             && w.db.messages[id].links[0] > 0
    requires Row(w) < id <= Row(Run(w, steps)) && id in Run(w, steps).db.messages
    ensures var at := ReachedBy(w, steps, id);
            && at.Some? && at.value.step.CollectPage? && at.value.step.reloaded.Some? && id in Scoped(at.value.world)
            && ScanRow(at.value.world, id).message.Some? && ScanRow(at.value.world, id).chat.Some?
    decreases |steps|
  {
    var s, next := steps[0], Apply(w, steps[0]);
    StepKeepsSettled(w, s);
    if id <= Row(next) {
      SuccessWhenMoving(w, s);
      SuccessAdvances(w, s);
      SelectedIsAMessage(w, s, threshold, id);
    } else {
      SurvivorsWereThere(next, steps[1..], id);
      SelectionPersists(w, s, id);
      SelectedStays(w, s, threshold, id);
      EligibleRowsAreRead(next, steps[1..], threshold, id);
    }
  }

  /**
   Every row eligible at the first page of a bootstrap, under a positive chat id and left as it is, is read
   as a message by the page that reaches it, and delivered exactly if that page's policy admits it.
   */
  lemma EligibleRowsAreDelivered(w: World, steps: seq<Step>, id: int, m: Message)
    requires Settled(w) && ValidRun(w, steps) && InOrder(w) && m.rowId == id && UndisturbedThroughout(w, steps, id)
    requires Horizon(w).Some? && id in Scoped(w) && w.db.messages[id].links != [] && w.db.messages[id].links[0] > 0
    requires Row(w) < id <= Row(Run(w, steps)) && id in Run(w, steps).db.messages
    ensures var at := ReachedBy(w, steps, id);
            && at.Some? && at.value.step.CollectPage? && at.value.step.reloaded.Some?
            && var row := ScanRow(at.value.world, id);
            && row.message.Some? && row.chat.Some?
            && (m in Run(w, steps).client.delivered <==> ShowsAs(at.value.world, at.value.step.reloaded.value, row, m))
  {
    EligibleRowsAreRead(w, steps, Horizon(w).value, id);
    DeliveredIffAdmissibleWhenReached(w, steps, id, m);
  }

  // ------------------------------------------------- rows that block collection

  /** Every row that a success reads past decodes, and its line is short. */
  lemma PassedRowFits(w: World, s: Step, id: int) returns (r: SafeRow)
    requires Settled(w) && Succeeds(w, s) && Row(w) < id <= Row(Apply(w, s)) && id in Scoped(w)
    ensures DecodeRow(w.db, Some(w.cfg.backendAccount), id) == Ok(r) && RowLen(r) < MAX_LINE
  {
    var call, page := SuccessHasAnswer(w, s);
    PlanStartsHere(w, s.limit, call);
    SuccessReadsTheScan(w, s);
    IdsInMembers(Scoped(w), Row(w), Row(Apply(w, s)));
    assert id in Ids(page.rows);
    r := AnsweredRowFits(w, s.host, call, page, id);
  }

  lemma AnsweredRowFits(w: World, host: Host, call: Call, page: CollectionPage, id: int) returns (r: SafeRow)
    requires Settled(w) && Here(w) == Some(call.cursor)
    requires call.notBefore == (if call.cursor.complete then None else call.cursor.notBefore)
    requires Producer(w, host)(call.cursor.row, call.through, call.limit, call.notBefore) == Ok(page)
    requires id in Ids(page.rows)
    ensures DecodeRow(w.db, Some(w.cfg.backendAccount), id) == Ok(r) && RowLen(r) < MAX_LINE
  {
    var q := AnswerIsThePage(w, host, call, page);
    AnswerExistsIff(w, host, call);
    var p := Page(w.db, q, w.now).value;
    PageRowsAreDecoded(w.db, q, w.now);
    var i :| 0 <= i < |p.rows| && Ids(page.rows)[i] == id;
    r := p.rows[i];
    assert Lines(p)[i] == RowLine(r) && Lines(p)[i] in Lines(p);
  }

  lemma DecodingStays(w: World, s: Step, id: int, r: SafeRow)
    requires Settled(w) && Enabled(w, s) && Undisturbed(w, s, id) && id in Apply(w, s).db.messages && id <= w.top
    requires DecodeRow(w.db, Some(w.cfg.backendAccount), id) == Ok(r)
    ensures DecodeRow(Apply(w, s).db, Some(w.cfg.backendAccount), id) == Ok(r) && Apply(w, s).cfg == w.cfg
  {
    UndisturbedStays(w, s, id);
  }

  /** A row in scope whose line is not short stops the collection below it for as long as the row stays as it is. */
  lemma {:induction false} LongRowBlocksCollection(w: World, steps: seq<Step>, id: int, r: SafeRow)
    requires Settled(w) && ValidRun(w, steps) && UndisturbedThroughout(w, steps, id)
    requires Row(w) < id && id in Scoped(w) && id in Run(w, steps).db.messages
    requires DecodeRow(w.db, Some(w.cfg.backendAccount), id) == Ok(r) && RowLen(r) >= MAX_LINE
    ensures Row(Run(w, steps)) < id
    decreases |steps|
  {
    if steps != [] {
      var s, next := steps[0], Apply(w, steps[0]);
      StepKeepsSettled(w, s);
      if id <= Row(next) {
        SuccessWhenMoving(w, s);
        var passed := PassedRowFits(w, s, id);
        assert false;
      }
      assert id in w.db.messages;
      SurvivorsWereThere(next, steps[1..], id);
      SelectionPersists(w, s, id);
      DecodingStays(w, s, id, r);
      LongRowBlocksCollection(next, steps[1..], id, r);
    }
  }
}
