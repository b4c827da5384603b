/**
 The wire between the producer and the broker: the event lines of one page
 (backend/imsg/CollectCommand.swift) and the adapter that reads and validates them
 (internal/backend/collection.go).
 */
module Collection {
  import opened Wrappers
  import opened Clock
  import opened Lengths
  import opened Lists
  import opened MessageStore
  import opened Text

  datatype RawChat = RawChat(
    id: int, identifier: string, guid: string, service: string, account: Option<string>,
    isGroup: Option<bool>, participants: Option<seq<string>>)

  datatype RawMessage = RawMessage(
    id: int, chatId: int, guid: string, sender: string, isFromMe: Option<bool>, text: string,
    createdAt: TimeText, chatIdentifier: string, chatGuid: string,
    isGroup: Option<bool>, participants: Option<seq<string>>)

  datatype CollectionRow = CollectionRow(rowId: int, message: Option<RawMessage>, chat: Option<RawChat>)

  datatype CollectionPage = CollectionPage(rows: seq<CollectionRow>, through: int, scanned: int, complete: bool)

  /** One decoded JSON line; absent keys are None. */
  datatype Event = Event(
    kind: string, rowId: Option<int>, message: Option<RawMessage>, chat: Option<RawChat>,
    schema: string, through: Option<int>, scanned: Option<int>, complete: Option<bool>)

  /** A line of output: nothing but white space, or one JSON object, or None for anything else; with its length. */
  datatype OutputLine = BlankLine(size: nat) | JsonLine(size: nat, event: Option<Event>)

  const SCHEMA := "safe-imsg.collect.v1"

  // ---------------------------------------------------------------- producer

  function ChatJson(chat: ChatInfo): RawChat {
    RawChat(chat.id, chat.row.identifier, chat.row.guid, chat.row.service, chat.row.account,
            Some(chat.row.isGroup), Some(chat.row.handles))
  }

  function MessageJson(id: int, m: SafeMessage, chat: ChatInfo): RawMessage {
    RawMessage(id, chat.id, m.guid, m.sender, Some(m.fromMe), m.text, Stamp(m.date, 0),
               chat.row.identifier, chat.row.guid, Some(chat.row.isGroup), Some(chat.row.handles))
  }

  function RowEvent(r: SafeRow): Event {
    match r
    case Skipped(id) => Event("row", Some(id), None, None, "", None, None, None)
    case Shown(id, m, chat) =>
      Event("row", Some(id), Some(MessageJson(id, m, chat)), Some(ChatJson(chat)), "", None, None, None)
  }

  function Checkpoint(p: SafePage): Event {
    Event("checkpoint", None, None, None, SCHEMA, Some(p.through), Some(p.scanned), Some(p.complete))
  }

  // The keys of each printed object with their quotation marks, colons, commas and braces: kind and
  // row_id; then chat and message; then what is inside those; and the whole checkpoint but its values.
  const ROW_KEYS := 24
  const SHOWN_KEYS := 19
  const CHAT_KEYS := 68
  const ACCOUNT_KEY := 14
  const MESSAGE_KEYS := 132
  const CHECKPOINT_KEYS := 109

  /** Each object as it is printed, with nothing between its keys and punctuation. */
  lemma KeysArePrinted()
    ensures ROW_KEYS == |"{\"kind\":\"row\",\"row_id\":}"| && SHOWN_KEYS == |",\"chat\":,\"message\":"|
    ensures CHAT_KEYS == |"{\"id\":,\"identifier\":,\"guid\":,\"service\":,\"is_group\":,\"participants\":}"|
    ensures ACCOUNT_KEY == |",\"account_id\":"|
    ensures MESSAGE_KEYS == |"{\"id\":,\"chat_id\":,\"guid\":,\"sender\":,\"is_from_me\":,\"text\":,\"created_at\":"
                             + ",\"chat_identifier\":,\"chat_guid\":,\"is_group\":,\"participants\":}"|
    ensures CHECKPOINT_KEYS == |"{\"kind\":\"checkpoint\",\"schema\":\"safe-imsg.collect.v1\""
                                + ",\"through_row_id\":,\"scanned_through_row_id\":,\"complete\":}"|
  {
  }

  function FlagLen(b: bool): nat { if b then 4 else 5 }

  function ChatLen(c: ChatInfo): nat {
    CHAT_KEYS + IntLen(c.id) + PrintedLen(c.row.identifier) + PrintedLen(c.row.guid) + PrintedLen(c.row.service)
    + FlagLen(c.row.isGroup) + PrintedListLen(c.row.handles)
    + (if c.row.account.Some? then ACCOUNT_KEY + PrintedLen(c.row.account.value) else 0)
  }

  function MessageLen(id: int, m: SafeMessage, c: ChatInfo): nat {
    MESSAGE_KEYS + IntLen(id) + IntLen(c.id) + PrintedLen(m.guid) + PrintedLen(m.sender) + FlagLen(m.fromMe)
    + PrintedLen(m.text) + 2 + StampLen(Stamp(m.date, 0)) + PrintedLen(c.row.identifier) + PrintedLen(c.row.guid)
    + FlagLen(c.row.isGroup) + PrintedListLen(c.row.handles)
  }

  /** The length of a row's line: the members are printed twice, with the chat and with the message. */
  function RowLen(r: SafeRow): nat {
    match r
    case Skipped(id) => ROW_KEYS + IntLen(id)
    case Shown(id, m, chat) => ROW_KEYS + IntLen(id) + SHOWN_KEYS + ChatLen(chat) + MessageLen(id, m, chat)
  }

  function CheckpointLen(p: SafePage): nat {
    CHECKPOINT_KEYS + IntLen(p.through) + IntLen(p.scanned) + FlagLen(p.complete)
  }

  function RowLine(r: SafeRow): OutputLine { JsonLine(RowLen(r), Some(RowEvent(r))) }

  function CheckpointLine(p: SafePage): OutputLine { JsonLine(CheckpointLen(p), Some(Checkpoint(p))) }

  /** The lines printed for a page. */
  function Lines(p: SafePage): seq<OutputLine> {
    seq(|p.rows|, i requires 0 <= i < |p.rows| => RowLine(p.rows[i])) + [CheckpointLine(p)]
  }

  method PrintPage(p: SafePage) returns (lines: seq<OutputLine>)
    ensures lines == Lines(p)
  {
    lines := [];
    for i := 0 to |p.rows|
      invariant lines == Lines(p)[..i]
    {
      var row := p.rows[i];
      var payload := Event("row", Some(row.id), None, None, "", None, None, None);
      if row.Shown? {
        payload := payload.(chat := Some(ChatJson(row.chat)),
                            message := Some(MessageJson(row.id, row.message, row.chat)));
      }
      lines := lines + [JsonLine(RowLen(row), Some(payload))];
    }
    lines := lines + [CheckpointLine(p)];
  }

  /** The page a reader of the lines should end up with. */
  function Received(p: SafePage): CollectionPage {
    CollectionPage(seq(|p.rows|, i requires 0 <= i < |p.rows| => ReceivedRow(p.rows[i])),
                   p.through, p.scanned, p.complete)
  }

  function ReceivedRow(r: SafeRow): CollectionRow {
    match r
    case Skipped(id) => CollectionRow(id, None, None)
    case Shown(id, m, chat) => CollectionRow(id, Some(MessageJson(id, m, chat)), Some(ChatJson(chat)))
  }

  // ------------------------------------------------------------------ reader

  datatype ReaderState = ReaderState(page: CollectionPage, checkpoint: bool)

  const EMPTY_PAGE := CollectionPage([], 0, 0, false)

  predicate IsRowEvent(e: Event) {
    e.kind == "row" && e.rowId.Some? && e.schema == "" && e.through.None? && e.scanned.None? && e.complete.None?
  }

  predicate IsCheckpoint(e: Event) {
    && e.kind == "checkpoint" && e.rowId.None? && e.message.None? && e.chat.None? && e.schema == SCHEMA
    && e.through.Some? && e.scanned.Some? && e.complete.Some?
  }

  /** One line: rows are appended, one checkpoint ends the page, anything else is refused. */
  function Feed(s: ReaderState, line: Option<Event>): Option<ReaderState> {
    if line.None? || s.checkpoint then None
    else
      var e := line.value;
      if IsRowEvent(e) then
        Some(s.(page := s.page.(rows := s.page.rows + [CollectionRow(e.rowId.value, e.message, e.chat)])))
      else if IsCheckpoint(e) then
        Some(ReaderState(CollectionPage(s.page.rows, e.through.value, e.scanned.value, e.complete.value), true))
      else None
  }

  /** Blank lines never reach the handler. */
  function FeedLine(s: ReaderState, line: OutputLine): Option<ReaderState> {
    if line.BlankLine? then Some(s) else Feed(s, line.event)
  }

  function FeedAll(lines: seq<OutputLine>): Option<ReaderState> {
    if lines == [] then Some(ReaderState(EMPTY_PAGE, false))
    else
      match FeedAll(lines[..|lines| - 1])
      case None => None
      case Some(s) => FeedLine(s, lines[|lines| - 1])
  }

  /** The variables that the line handler captures. */
  class PageReader {
    var page: CollectionPage
    var checkpoint: bool

    function State(): ReaderState
      reads this
    {
      ReaderState(page, checkpoint)
    }

    constructor ()
      ensures State() == ReaderState(EMPTY_PAGE, false)
    {
      page, checkpoint := EMPTY_PAGE, false;
    }

    method Handle(line: Option<Event>) returns (ok: bool)
      modifies this
      ensures ok <==> Feed(old(State()), line).Some?
      ensures State() == if ok then Feed(old(State()), line).value else old(State())
    {
      if line.None? || checkpoint {
        return false;
      }
      var e := line.value;
      if e.kind == "row" {
        if e.rowId.None? || e.schema != "" || e.through.Some? || e.scanned.Some? || e.complete.Some? {
          return false;
        }
        page := page.(rows := page.rows + [CollectionRow(e.rowId.value, e.message, e.chat)]);
      } else if e.kind == "checkpoint" {
        if e.rowId.Some? || e.message.Some? || e.chat.Some? || e.schema != SCHEMA || e.through.None?
           || e.scanned.None? || e.complete.None? {
          return false;
        }
        page := page.(through := e.through.value, scanned := e.scanned.value, complete := e.complete.value);
        checkpoint := true;
      } else {
        return false;
      }
      return true;
    }
  }

  // -------------------------------------------------------------- validation

  predicate RowAgrees(row: CollectionRow) {
    && row.message.Some? == row.chat.Some?
    && (row.message.Some? ==> row.message.value.id == row.rowId && row.chat.value.id == row.message.value.chatId)
  }

  function LastRow(rows: seq<CollectionRow>, after: int): int {
    if rows == [] then after else rows[|rows| - 1].rowId
  }

  /** What the broker may rely on in any page. */
  predicate ValidPage(page: CollectionPage, after: int, through: int, limit: int) {
    && after <= page.through && (through != 0 ==> page.through == through) && |page.rows| <= limit
    && (forall i | 0 <= i < |page.rows| :: after < page.rows[i].rowId <= page.through && RowAgrees(page.rows[i]))
    && (forall i, j | 0 <= i < j < |page.rows| :: page.rows[i].rowId < page.rows[j].rowId)
    && (if page.complete then page.scanned == page.through
        else |page.rows| == limit && after < LastRow(page.rows, after) < page.through
             && page.scanned == LastRow(page.rows, after))
  }

  method ValidateCollectionPage(page: CollectionPage, after: int, through: int, limit: int) returns (ok: bool)
    ensures ok <==> ValidPage(page, after, through, limit)
  {
    if page.through < after || (through != 0 && page.through != through) || |page.rows| > limit {
      return false;
    }
    var last := after;
    for i := 0 to |page.rows|
      invariant last == LastRow(page.rows[..i], after)
      invariant forall k | 0 <= k < i ::
                  after < page.rows[k].rowId <= last && page.rows[k].rowId <= page.through && RowAgrees(page.rows[k])
      invariant forall j, k | 0 <= j < k < i :: page.rows[j].rowId < page.rows[k].rowId
    {
      var row := page.rows[i];
      if row.rowId <= last || row.rowId > page.through || row.message.None? != row.chat.None? {
        assert i > 0 ==> last == page.rows[i - 1].rowId;
        return false;
      }
      if row.message.Some? && (row.message.value.id != row.rowId || row.chat.value.id != row.message.value.chatId) {
        return false;
      }
      last := row.rowId;
    }
    assert page.rows[..|page.rows|] == page.rows;
    if page.complete {
      return page.scanned == page.through;
    }
    return |page.rows| == limit && last > after && last < page.through && page.scanned == last;
  }

  /** The arguments Collect accepts; zero through means a new boundary. */
  predicate GoodCall(after: int, through: int, limit: int, notBefore: Option<TimeText>) {
    && after >= 0 && through >= 0 && (through != 0 ==> through >= after) && 1 <= limit <= 1000
    && (notBefore.Some? ==> ((after == 0 && through == 0) || (after > 0 && through > 0)) && Parses(notBefore.value))
  }

  /** Every line with its newline counts against the output bound, blank ones included. */
  function OutputSize(lines: seq<OutputLine>): nat {
    if lines == [] then 0 else OutputSize(lines[..|lines| - 1]) + lines[|lines| - 1].size + 1
  }

  function EventCount(lines: seq<OutputLine>): (n: nat)
    ensures n <= |lines|
  {
    if lines == [] then 0 else EventCount(lines[..|lines| - 1]) + if lines[|lines| - 1].JsonLine? then 1 else 0
  }

  /** What the stream from a child process lets through at all. */
  predicate WithinStream(lines: seq<OutputLine>) {
    (forall l | l in lines :: l.size < MAX_LINE) && OutputSize(lines) <= MAX_OUTPUT
  }

  /** The page that the printed lines of a process amount to, given how it exited. */
  function CollectLines(lines: seq<OutputLine>, cleanExit: bool, after: int, through: int, limit: int)
    : Option<CollectionPage>
  {
    if !WithinStream(lines) || EventCount(lines) > limit + 1 || !cleanExit then None
    else
      match FeedAll(lines)
      case None => None
      case Some(s) => if s.checkpoint && ValidPage(s.page, after, through, limit) then Some(s.page) else None
  }

  lemma LineStep(lines: seq<OutputLine>, i: nat)
    requires i < |lines|
    ensures OutputSize(lines[..i + 1]) == OutputSize(lines[..i]) + lines[i].size + 1
    ensures EventCount(lines[..i + 1]) == EventCount(lines[..i]) + if lines[i].JsonLine? then 1 else 0
    ensures FeedAll(lines[..i]).Some? ==> FeedAll(lines[..i + 1]) == FeedLine(FeedAll(lines[..i]).value, lines[i])
    ensures lines[..i + 1] == lines[..i] + [lines[i]]
  {
    assert lines[..i + 1][..i] == lines[..i];
  }

  /** What is too much, or refused, in a prefix is so in the whole. */
  lemma {:induction false} PrefixDecides(lines: seq<OutputLine>, i: nat)
    requires i <= |lines|
    ensures FeedAll(lines[..i]).None? ==> FeedAll(lines).None?
    ensures OutputSize(lines[..i]) <= OutputSize(lines) && EventCount(lines[..i]) <= EventCount(lines)
    decreases |lines| - i
  {
    if i == |lines| {
      assert lines[..i] == lines;
    } else {
      LineStep(lines, i);
      assert lines[..i + 1][..i] == lines[..i];
      PrefixDecides(lines, i + 1);
    }
  }

  /** All that a finished process wrote, and whether it exited without an error. */
  datatype Output = Output(lines: seq<OutputLine>, clean: bool)

  /**
   What the machine does around one request: the two checks of the files' identity, whether the process
   runs to its end, and whether the whole request keeps its deadline.
   */
  datatype Host = Host(sameBefore: bool, runs: bool, sameAfter: bool, inTime: bool)

  datatype BackendError = Unsupported | Failed

  /** What Collect answers: bounded says whether the configured backend has the command at all. */
  function Answered(bounded: bool, host: Host, output: Output, after: int, through: int, limit: int,
                    notBefore: Option<TimeText>): Result<CollectionPage, BackendError>
  {
    if !bounded then Err(Unsupported)
    else if !GoodCall(after, through, limit, notBefore) || !host.sameBefore || !host.sameAfter then Err(Failed)
    else
      match CollectLines(output.lines, output.clean && host.runs, after, through, limit)
      case None => Err(Failed)
      case Some(page) => Ok(page)
  }

  /** Collect in source order: its guards, the stream's bounds, the handler, then the checks. */
  method Collect(bounded: bool, host: Host, output: Output, after: int, through: int, limit: int,
                 notBefore: Option<TimeText>)
    returns (r: Result<CollectionPage, BackendError>)
    ensures r == Answered(bounded, host, output, after, through, limit, notBefore)
  {
    if !bounded {
      return Err(Unsupported);
    }
    if after < 0 || through < 0 || (through != 0 && through < after) || limit < 1 || limit > 1000
       || (notBefore.Some? && !((after == 0 && through == 0) || (after > 0 && through > 0))) {
      return Err(Failed);
    }
    if notBefore.Some? && !Parses(notBefore.value) {
      return Err(Failed);
    }
    var reader := new PageReader();
    var read := ReadOutput(host, output, limit, reader);
    if !read || !reader.checkpoint {
      return Err(Failed);
    }
    var valid := ValidateCollectionPage(reader.page, after, through, limit);
    if !valid {
      return Err(Failed);
    }
    return Ok(reader.page);
  }

  /** The stream, the row count and the handler let all lines through. */
  predicate IsReadable(lines: seq<OutputLine>, limit: nat) {
    WithinStream(lines) && EventCount(lines) <= limit + 1 && FeedAll(lines).Some?
  }

  /** What goes wrong at one line goes wrong for the whole output. */
  lemma SpoiledBy(lines: seq<OutputLine>, i: nat, limit: nat)
    requires i < |lines|
    ensures lines[i].size >= MAX_LINE || OutputSize(lines[..i + 1]) > MAX_OUTPUT ==> !IsReadable(lines, limit)
    ensures EventCount(lines[..i + 1]) > limit + 1 || FeedAll(lines[..i + 1]).None? ==> !IsReadable(lines, limit)
  {
    PrefixDecides(lines, i + 1);
    assert lines[i] in lines;
  }

  /** The consuming loop over a finished output, between the two identity checks. */
  method ReadOutput(host: Host, output: Output, limit: nat, reader: PageReader) returns (ok: bool)
    requires reader.State() == ReaderState(EMPTY_PAGE, false)
    modifies reader
    ensures ok <==>
              host.sameBefore && host.sameAfter && host.runs && output.clean && IsReadable(output.lines, limit)
    ensures ok ==> reader.State() == FeedAll(output.lines).value
  {
    if !host.sameBefore {
      return false;
    }
    var lines, total, count := output.lines, 0, 0;
    for i := 0 to |lines|
      invariant FeedAll(lines[..i]) == Some(reader.State())
      invariant total == OutputSize(lines[..i]) <= MAX_OUTPUT && forall l | l in lines[..i] :: l.size < MAX_LINE
      invariant count == EventCount(lines[..i]) <= limit + 1
    {
      LineStep(lines, i);
      SpoiledBy(lines, i, limit);
      if lines[i].size >= MAX_LINE {
        return false;
      }
      total := total + lines[i].size + 1;
      if total > MAX_OUTPUT {
        return false;
      }
      if lines[i].JsonLine? {
        count := count + 1;
        if count > limit + 1 {
          return false;
        }
        var taken := reader.Handle(lines[i].event);
        if !taken {
          return false;
        }
      }
    }
    assert lines[..|lines|] == lines;
    return output.clean && host.runs && host.sameAfter;
  }

  // ------------------------------------------------------- what is accepted

  /** The objects among the lines. */
  ghost function Objects(lines: seq<OutputLine>): seq<Option<Event>> {
    if lines == [] then []
    else Objects(lines[..|lines| - 1]) + if lines[|lines| - 1].JsonLine? then [lines[|lines| - 1].event] else []
  }

  /** One object for each row, in order, with nothing but that row; and then, at most once, the checkpoint. */
  ghost predicate IsTranscript(es: seq<Option<Event>>, s: ReaderState) {
    var rows := s.page.rows;
    && |es| == |rows| + (if s.checkpoint then 1 else 0)
    && (forall i | 0 <= i < |rows| ::
          es[i] == Some(Event("row", Some(rows[i].rowId), rows[i].message, rows[i].chat, "", None, None, None)))
    && (if s.checkpoint
        then es[|rows|] == Some(Event("checkpoint", None, None, None, "safe-imsg.collect.v1",
                                      Some(s.page.through), Some(s.page.scanned), Some(s.page.complete)))
        else s.page.through == 0 && s.page.scanned == 0 && !s.page.complete)
  }

  /** What the handler makes of a whole output: it takes exactly the transcripts, and is left with what they tell. */
  lemma {:induction false} FeedAllIff(lines: seq<OutputLine>, s: ReaderState)
    ensures FeedAll(lines) == Some(s) <==> IsTranscript(Objects(lines), s)
    decreases |lines|, 0
  {
    if lines == [] {
      assert IsTranscript([], s) ==> s.page == EMPTY_PAGE;
    } else {
      var init, last := lines[..|lines| - 1], lines[|lines| - 1];
      if last.BlankLine? {
        FeedAllIff(init, s);
        assert Objects(init) + [] == Objects(init);
      } else {
        LastObjectIff(init, last.event, s);
      }
    }
  }

  lemma LastObjectIff(init: seq<OutputLine>, e: Option<Event>, s: ReaderState)
    ensures (FeedAll(init).Some? && Feed(FeedAll(init).value, e) == Some(s)) <==> IsTranscript(Objects(init) + [e], s)
    decreases |init|, 1
  {
    if FeedAll(init).Some? {
      var t := FeedAll(init).value;
      FeedAllIff(init, t);
      if Feed(t, e) == Some(s) {
        FedIsTranscript(Objects(init), t, e, s);
      }
    }
    if IsTranscript(Objects(init) + [e], s) {
      var t := Before(s);
      TranscriptBefore(Objects(init), e, s);
      FeedAllIff(init, t);
    }
  }

  /** The state before the last object was taken. */
  ghost function Before(s: ReaderState): ReaderState {
    if s.checkpoint then ReaderState(EMPTY_PAGE.(rows := s.page.rows), false)
    else if s.page.rows == [] then s
    else s.(page := s.page.(rows := s.page.rows[..|s.page.rows| - 1]))
  }

  lemma FedIsTranscript(es: seq<Option<Event>>, t: ReaderState, e: Option<Event>, s: ReaderState)
    requires IsTranscript(es, t) && Feed(t, e) == Some(s)
    ensures IsTranscript(es + [e], s)
  {
  }

  lemma TranscriptBefore(es: seq<Option<Event>>, e: Option<Event>, s: ReaderState)
    requires IsTranscript(es + [e], s)
    ensures IsTranscript(es, Before(s)) && Feed(Before(s), e) == Some(s)
  {
    var rows := s.page.rows;
    assert (es + [e])[|es|] == e;
    assert forall i | 0 <= i < |es| :: (es + [e])[i] == es[i];
    if !s.checkpoint {
      assert rows[..|rows| - 1] + [rows[|rows| - 1]] == rows;
    }
  }

  ghost predicate IsAbove(rows: seq<CollectionRow>, after: int, i: nat)
    requires i < |rows|
  {
    (if i == 0 then after else rows[i - 1].rowId) < rows[i].rowId
  }

  /** Each row lies above the one before it, the first above the start; none beyond the boundary. */
  ghost predicate IsGoodPage(page: CollectionPage, after: int, through: int, limit: int) {
    var rows := page.rows;
    && after <= page.through && (through == 0 || page.through == through) && |rows| <= limit
    && (forall i | 0 <= i < |rows| :: IsAbove(rows, after, i) && rows[i].rowId <= page.through)
    && (forall i | 0 <= i < |rows| ::
          || (rows[i].message.None? && rows[i].chat.None?)
          || (rows[i].message.Some? && rows[i].chat.Some?
              && rows[i].message.value.id == rows[i].rowId && rows[i].message.value.chatId == rows[i].chat.value.id))
    && (if page.complete then page.scanned == page.through
        else |rows| == limit && rows != [] && page.scanned == rows[|rows| - 1].rowId && page.scanned < page.through)
  }

  lemma {:induction false} AdjacentAscend(rows: seq<CollectionRow>, after: int, i: nat, j: nat)
    requires forall k | 0 <= k < |rows| :: IsAbove(rows, after, k)
    requires i <= j < |rows|
    ensures after < rows[i].rowId && (i < j ==> rows[i].rowId < rows[j].rowId)
    decreases i + j
  {
    assert IsAbove(rows, after, j);
    if i < j {
      AdjacentAscend(rows, after, i, j - 1);
    } else if 0 < i {
      AdjacentAscend(rows, after, i - 1, i - 1);
    }
  }

  /** In order, one by one, is in order altogether. */
  lemma AscendIff(rows: seq<CollectionRow>, after: int)
    ensures (forall k | 0 <= k < |rows| :: IsAbove(rows, after, k)) <==>
            && (forall i | 0 <= i < |rows| :: after < rows[i].rowId)
            && (forall i, j | 0 <= i < j < |rows| :: rows[i].rowId < rows[j].rowId)
  {
    if forall k | 0 <= k < |rows| :: IsAbove(rows, after, k) {
      forall i, j | 0 <= i <= j < |rows| ensures after < rows[i].rowId && (i < j ==> rows[i].rowId < rows[j].rowId) {
        AdjacentAscend(rows, after, i, j);
      }
    }
  }

  lemma ValidPageIff(page: CollectionPage, after: int, through: int, limit: int)
    ensures ValidPage(page, after, through, limit) <==> IsGoodPage(page, after, through, limit)
  {
    if IsGoodPage(page, after, through, limit) {
      GoodPageIsValid(page, after, through, limit);
    }
    if ValidPage(page, after, through, limit) {
      ValidPageIsGood(page, after, through, limit);
    }
  }

  lemma GoodPageIsValid(page: CollectionPage, after: int, through: int, limit: int)
    requires IsGoodPage(page, after, through, limit)
    ensures ValidPage(page, after, through, limit)
  {
    AscendIff(page.rows, after);
  }

  lemma ValidPageIsGood(page: CollectionPage, after: int, through: int, limit: int)
    requires ValidPage(page, after, through, limit)
    ensures IsGoodPage(page, after, through, limit)
  {
    AscendIff(page.rows, after);
    assert forall i | 0 <= i < |page.rows| :: RowAgrees(page.rows[i]);
  }

  /** When Collect answers with a page, and with which: everything asked of the arguments, machine, output and page. */
  lemma AnsweredIff(bounded: bool, host: Host, output: Output, after: int, through: int, limit: int,
                    notBefore: Option<TimeText>, page: CollectionPage)
    ensures Answered(bounded, host, output, after, through, limit, notBefore) == Ok(page) <==>
              && bounded && host.sameBefore && host.runs && host.sameAfter && output.clean
              && 0 <= after && (through == 0 || (0 <= through && after <= through)) && 1 <= limit <= 1000
              && (match notBefore
                  case None => true
                  case Some(t) => Parses(t) && (if through == 0 then after == 0 else 0 < after))
              && (forall l | l in output.lines :: l.size < 2_097_152) && OutputSize(output.lines) <= 67_108_864
              && |Objects(output.lines)| <= limit + 1
              && IsTranscript(Objects(output.lines), ReaderState(page, true)) && IsGoodPage(page, after, through, limit)
    ensures Answered(bounded, host, output, after, through, limit, notBefore) == Err(Unsupported) <==> !bounded
  {
    FeedAllIff(output.lines, ReaderState(page, true));
    ObjectsAreCounted(output.lines);
    ValidPageIff(page, after, through, limit);
  }

  lemma {:induction false} ObjectsAreCounted(lines: seq<OutputLine>)
    ensures EventCount(lines) == |Objects(lines)|
  {
    if lines != [] {
      ObjectsAreCounted(lines[..|lines| - 1]);
    }
  }

  // -------------------------------------------------------------- properties

  lemma {:induction false} RowsAreFed(p: SafePage, n: nat)
    requires n <= |p.rows|
    ensures FeedAll(Lines(p)[..n]) == Some(ReaderState(EMPTY_PAGE.(rows := Received(p).rows[..n]), false))
  {
    if n > 0 {
      RowsAreFed(p, n - 1);
      LineStep(Lines(p), n - 1);
      assert Received(p).rows[..n] == Received(p).rows[..n - 1] + [Received(p).rows[n - 1]];
    }
  }

  /** Reading back what was printed gives the page, for every page at all. */
  lemma PrintedPageIsRead(p: SafePage)
    ensures FeedAll(Lines(p)) == Some(ReaderState(Received(p), true))
  {
    var n := |p.rows|;
    RowsAreFed(p, n);
    assert Lines(p)[..|Lines(p)| - 1] == Lines(p)[..n];
    assert Received(p).rows[..n] == Received(p).rows;
  }

  function ThroughArgument(q: Query): int { if q.through.Some? then q.through.value else 0 }

  ghost predicate Accepted(db: Database, q: Query, now: int)
    requires Page(db, q, now).Ok?
  {
    var p := Page(db, q, now).value;
    CollectLines(Lines(p), true, q.after, ThroughArgument(q), q.limit) == Some(Received(p))
  }

  lemma {:induction false} AllEvents(p: SafePage, n: nat)
    requires n <= |Lines(p)|
    ensures EventCount(Lines(p)[..n]) == n
  {
    if n > 0 {
      LineStep(Lines(p), n - 1);
      AllEvents(p, n - 1);
    }
  }

  /**
   Every page the producer returns is printed in at most limit + 1 lines and, provided its rows came
   through the bootstrap join once each, read back as itself and accepted exactly when its lines are
   short enough for the stream.
   */
  lemma ProducerAndReaderAgree(db: Database, q: Query, now: int)
    requires Page(db, q, now).Ok?
    requires q.notBefore.Some? ==> JoinedOnce(db, Page(db, q, now).value.rows)
    ensures |Lines(Page(db, q, now).value)| <= q.limit + 1
    ensures Accepted(db, q, now) <==> WithinStream(Lines(Page(db, q, now).value))
  {
    var p := Page(db, q, now).value;
    PageIsExact(db, q, now);
    PrintedPageIsRead(p);
    AllEvents(p, |Lines(p)|);
    assert Lines(p)[..|Lines(p)|] == Lines(p);
    ExactPageIsValid(p, Scope(db, q, now), q.after, ThroughArgument(q), q.limit);
  }

  lemma ExactPageIsValid(p: SafePage, scope: set<int>, after: int, through: int, limit: int)
    requires limit > 0 && after <= p.scanned <= p.through && |p.rows| <= limit
    requires through != 0 ==> p.through == through
    requires RowIds(p.rows) == IdsIn(scope, after, p.scanned)
    requires if p.complete then p.scanned == p.through
             else p.scanned < p.through && |p.rows| == limit && RowIds(p.rows)[limit - 1] == p.scanned
    ensures ValidPage(Received(p), after, through, limit)
  {
    var page, ids := Received(p), RowIds(p.rows);
    IdsInMembers(scope, after, p.scanned);
    IdsInAscending(scope, after, p.scanned);
    assert forall i | 0 <= i < |page.rows| :: ids[i] == page.rows[i].rowId;
    forall i | 0 <= i < |page.rows| ensures after < page.rows[i].rowId <= page.through && RowAgrees(page.rows[i]) {
      var id := ids[i];
      assert id in ids;
    }
    if !p.complete {
      var last := ids[limit - 1];
      assert last in ids;
    }
  }

  ghost predicate BootstrapQuery(q: Query, account: string, notBefore: int) {
    q.account == Some(account) && q.notBefore == Some(notBefore)
  }

  /** The query for two rows that begins just below the one. */
  function QueryAt(account: string, notBefore: int, id: int): Query {
    Query(id - 1, if id == 1 then None else Some(id), 2, Some(account), Some(notBefore))
  }

  lemma ListedFirst(db: Database, account: string, notBefore: int, now: int, id: int)
    requires id > 0 && Selected(db, account, notBefore, now + PLAUSIBLE_GRACE, id)
    ensures var ids := Listing(db, QueryAt(account, notBefore, id), now);
            ids != [] && ids[0] == id && forall k | k in ids :: k in db.messages
  {
    var q := QueryAt(account, notBefore, id);
    var scope, upper := Scope(db, q, now), Upper(db, q);
    assert id in scope && id <= upper;
    IdsInSplit(scope, id - 1, id, upper);
    assert IdsIn(scope, id - 1, id) == IdsIn(scope, id - 1, id - 1) + [id];
    IdsInMembers(scope, q.after, upper);
  }

  lemma ListedTwice(db: Database, account: string, notBefore: int, now: int, id: int)
    requires id > 0 && Selected(db, account, notBefore, now + PLAUSIBLE_GRACE, id) && |db.messages[id].links| > 1
    ensures Limited(RawIds(db, QueryAt(account, notBefore, id), now), 2) == [id, id]
  {
    ListedFirst(db, account, notBefore, now, id);
    var ids, m := Listing(db, QueryAt(account, notBefore, id), now), |db.messages[id].links|;
    assert Repeat(id, m) == [id] + Repeat(id, m - 1) && Repeat(id, m - 1) == [id] + Repeat(id, m - 2);
    var raw := RawIds(db, QueryAt(account, notBefore, id), now);
    assert raw == Repeat(id, m) + JoinRows(db, ids[1..]);
    assert raw[0] == id && raw[1] == id;
  }

  /** A selected, decodable row that the join yields twice makes a page that the validator refuses. */
  lemma DoubleJoinIsRefused(db: Database, account: string, notBefore: int, now: int, id: int) returns (q: Query)
    requires db.hasReactions && db.hasAccounts && db.hasDateIndex && account != ""
    requires id > 0 && Selected(db, account, notBefore, now + PLAUSIBLE_GRACE, id)
    requires DecodeRow(db, Some(account), id).Ok? && |db.messages[id].links| > 1
    ensures BootstrapQuery(q, account, notBefore) && Page(db, q, now).Ok? && !Accepted(db, q, now)
  {
    q := QueryAt(account, notBefore, id);
    ListedTwice(db, account, notBefore, now, id);
    assert DecodeAll(db, Some(account), [id, id]).Ok?;
    var p := Page(db, q, now).value;
    PrintedPageIsRead(p);
    assert Received(p).rows[0].rowId == id && Received(p).rows[1].rowId == id;
  }

  /** No row that the date query selects, and that can be decoded, is joined to its chat more than once. */
  ghost predicate SelectedOnce(db: Database, account: string, notBefore: int, now: int) {
    forall id | && id > 0 && Selected(db, account, notBefore, now + PLAUSIBLE_GRACE, id)
                && DecodeRow(db, Some(account), id).Ok? ::
      |db.messages[id].links| == 1
  }

  lemma SelectedOnceJoinsOnce(db: Database, account: string, notBefore: int, now: int, q: Query)
    requires SelectedOnce(db, account, notBefore, now)
    requires BootstrapQuery(q, account, notBefore) && Page(db, q, now).Ok?
    ensures JoinedOnce(db, Page(db, q, now).value.rows)
  {
    var p := Page(db, q, now).value;
    RawIdsInScope(db, q, now);
    IdsInMembers(Scope(db, q, now), q.after, Upper(db, q));
    JoinRowsMembers(db, Listing(db, q, now));
    forall i | 0 <= i < |p.rows| ensures p.rows[i].id in db.messages && |db.messages[p.rows[i].id].links| == 1 {
      var id := RawIds(db, q, now)[i];
      assert id in RawIds(db, q, now) && DecodeRow(db, Some(account), id).Ok?;
      assert id in Listing(db, q, now);
    }
  }

  /**
   Exactly when do all bootstrap pages of a table reach the broker? When no selectable, decodable row
   is joined to its chat more than once, and every page's lines are short enough for the stream.
   */
  lemma BootstrapPagesAcceptedIff(db: Database, account: string, notBefore: int, now: int)
    requires db.hasReactions && db.hasAccounts && db.hasDateIndex && account != ""
    ensures (forall q | BootstrapQuery(q, account, notBefore) && Page(db, q, now).Ok? :: Accepted(db, q, now))
       <==> SelectedOnce(db, account, notBefore, now)
            && (forall q | BootstrapQuery(q, account, notBefore) && Page(db, q, now).Ok? ::
                  WithinStream(Lines(Page(db, q, now).value)))
  {
    if forall q | BootstrapQuery(q, account, notBefore) && Page(db, q, now).Ok? :: Accepted(db, q, now) {
      forall id | && id > 0 && Selected(db, account, notBefore, now + PLAUSIBLE_GRACE, id)
                  && DecodeRow(db, Some(account), id).Ok?
        ensures |db.messages[id].links| == 1
      {
        if |db.messages[id].links| > 1 {
          var q := DoubleJoinIsRefused(db, account, notBefore, now, id);
          assert false;
        }
      }
    }
    if SelectedOnce(db, account, notBefore, now) {
      forall q | BootstrapQuery(q, account, notBefore) && Page(db, q, now).Ok?
        ensures Accepted(db, q, now) <==> WithinStream(Lines(Page(db, q, now).value))
      {
        SelectedOnceJoinsOnce(db, account, notBefore, now, q);
        ProducerAndReaderAgree(db, q, now);
      }
    }
  }

  // ---------------------------------------------------------------- progress

  lemma {:induction false} PositionsOutrunRows(page: CollectionPage, after: int, through: int, limit: int, i: nat)
    requires ValidPage(page, after, through, limit) && i < |page.rows|
    ensures page.rows[i].rowId >= after + i + 1
  {
    if i > 0 {
      PositionsOutrunRows(page, after, through, limit, i - 1);
    }
  }

  /** The successful pages of one cycle, whatever the backend: each starts where the last one stopped. */
  ghost predicate PageChain(pages: seq<CollectionPage>, limits: seq<int>, after: int, through: int)
    requires |limits| == |pages|
    decreases |pages|
  {
    pages != [] ==>
      && ValidPage(pages[0], after, through, limits[0])
      && (|pages| > 1 ==> !pages[0].complete && PageChain(pages[1..], limits[1..], pages[0].scanned, pages[0].through))
  }

  /**
   The boundary is the same on every page of a cycle, and a cycle of more than one page has
   (pages - 1) * L < U - a: with limits of at least L it takes at most ceil((U - a) / L) pages.
   */
  lemma {:induction false} CycleIsShort(pages: seq<CollectionPage>, limits: seq<int>, after: int, through: int,
                                        least: int)
    requires |limits| == |pages| > 0 && after >= 0 && least > 0 && PageChain(pages, limits, after, through)
    requires forall l | l in limits :: l >= least
    ensures forall p | p in pages :: p.through == pages[0].through
    ensures |pages| > 1 ==> (|pages| - 1) * least < pages[0].through - after
    decreases |pages|
  {
    if |pages| > 1 {
      var first, rest := pages[0], pages[1..];
      assert limits[0] in limits && forall l | l in limits[1..] :: l in limits;
      PositionsOutrunRows(first, after, through, limits[0], |first.rows| - 1);
      assert first.scanned >= after + limits[0];
      CycleIsShort(rest, limits[1..], first.scanned, first.through, least);
      assert rest[0].through == first.through;
      assert forall p | p in pages :: p == first || p in rest;
      OneMore(|rest| - 1, least);
    }
  }

  // ------------------------------------------------------ the real producer

  /** The query behind a call, as the command line and the argument parser make it. */
  function CallQuery(after: int, through: int, limit: int, account: string, notBefore: Option<TimeText>): Query
    requires notBefore.Some? ==> notBefore.value.Stamp?
  {
    Query(after, if through != 0 then Some(through) else None, limit, Some(account),
          if notBefore.Some? then Some(notBefore.value.instant) else None)
  }

  /** Whatever arguments the adapter lets through, the producer's own argument rules accept. */
  lemma GoodCallsHaveGoodBounds(after: int, through: int, limit: int, account: string, notBefore: Option<TimeText>)
    requires GoodCall(after, through, limit, notBefore)
    ensures GoodBounds(CallQuery(after, through, limit, account, notBefore))
    ensures ThroughArgument(CallQuery(after, through, limit, account, notBefore)) == through
  {
  }

  /** The output of the real producer: all of a page, or nothing and an error. */
  function Printed(db: Database, q: Query, now: int): Output {
    match Page(db, q, now)
    case Err(_) => Output([], false)
    case Ok(p) => Output(Lines(p), true)
  }

  /** Collect against the real producer on one database snapshot. */
  function ProcessCollect(db: Database, now: int, account: string, bounded: bool, host: Host,
                          after: int, through: int, limit: int, notBefore: Option<TimeText>)
    : Result<CollectionPage, BackendError>
  {
    if bounded && !GoodCall(after, through, limit, notBefore) then Err(Failed)
    else
      var output :=
        if bounded then Printed(db, CallQuery(after, through, limit, account, notBefore), now) else Output([], false);
      Answered(bounded, host, output, after, through, limit, notBefore)
  }

  /** When it succeeds, in terms of the producer's page. */
  lemma ProcessCollectIff(db: Database, now: int, account: string, bounded: bool, host: Host,
                          after: int, through: int, limit: int, notBefore: Option<TimeText>)
    ensures ProcessCollect(db, now, account, bounded, host, after, through, limit, notBefore).Ok? <==>
              && bounded && host.sameBefore && host.runs && host.sameAfter && GoodCall(after, through, limit, notBefore)
              && var page := Page(db, CallQuery(after, through, limit, account, notBefore), now);
              && page.Ok? && CollectLines(Lines(page.value), true, after, through, limit).Some?
  {
  }

  /** What a successful Collect against the real producer delivers. */
  lemma ProcessCollectIsThePage(db: Database, now: int, account: string, bounded: bool, host: Host,
                                after: int, through: int, limit: int, notBefore: Option<TimeText>)
    requires ProcessCollect(db, now, account, bounded, host, after, through, limit, notBefore).Ok?
    ensures bounded && host.sameBefore && host.runs && host.sameAfter && GoodCall(after, through, limit, notBefore)
    ensures var q := CallQuery(after, through, limit, account, notBefore);
            var page := ProcessCollect(db, now, account, bounded, host, after, through, limit, notBefore).value;
            && Page(db, q, now).Ok? && page == Received(Page(db, q, now).value)
            && ValidPage(page, after, through, limit) && WithinStream(Lines(Page(db, q, now).value))
  {
    var q := CallQuery(after, through, limit, account, notBefore);
    PrintedPageIsRead(Page(db, q, now).value);
  }
}
