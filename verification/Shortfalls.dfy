/**
 Inputs on which the code does less than it promises, one for each condition found elsewhere in this
 project.
 */
module Shortfalls {
  import opened Lists
  import opened Wrappers
  import opened Text
  import opened Clock
  import opened Lengths
  import opened MessageStore
  import opened Collection
  import opened PageSizes
  import opened Cursor
  import opened Broker
  import P = Policy
  import C = Contacts
  import G = GrantManager

  // ------------------------------------------------------------------- tables

  const ACCOUNT := "acc"

  function Note(links: seq<int>): MessageRow {
    MessageRow(0, NoBalloon, Some(0), Some(0), "g", "a", "", "x", 0, "", links)
  }

  function Room(identifier: string, handles: seq<string>): ChatRow {
    ChatRow(identifier, "g", "iMessage", Some(ACCOUNT), true, handles)
  }

  function Table(messages: map<int, MessageRow>, chats: map<int, ChatRow>): Database {
    Database(messages, chats, true, true, true)
  }

  lemma ShortText(s: string)
    requires |s| == 1 && s[0] < '\U{80}'
    ensures ByteLen(s) == 1
  {
    assert s[1..] == "";
  }

  /** A note under a chat with members that can be looked up is a message. */
  lemma NoteIsShown(db: Database, id: int, chat: int, identifier: string, handles: seq<string>)
    requires id in db.messages && db.messages[id].links != [] && (forall l | l in db.messages[id].links :: l == chat)
    requires db.messages[id] == Note(db.messages[id].links) && chat > 0
    requires chat in db.chats && db.chats[chat] == Room(identifier, handles)
    requires |handles| <= 256 && forall h | h in handles :: ByteLen(h) <= 320
    ensures DecodeRow(db, Some(ACCOUNT), id) ==
            Ok(Shown(id, SafeMessage("g", "a", false, "x", 0), ChatInfo(chat, Room(identifier, handles))))
  {
    ShortText("g");
    ShortText("a");
    ShortText("x");
    ShownRowIff(db, Some(ACCOUNT), id, SafeMessage("g", "a", false, "x", 0), ChatInfo(chat, Room(identifier, handles)));
  }

  lemma NoteIsSelected(db: Database, id: int, chat: int, identifier: string, handles: seq<string>)
    requires id in db.messages && db.messages[id].links != [] && (forall l | l in db.messages[id].links :: l == chat)
    requires db.messages[id] == Note(db.messages[id].links)
    requires chat in db.chats && db.chats[chat] == Room(identifier, handles)
    ensures Selected(db, ACCOUNT, 0, PLAUSIBLE_GRACE, id)
  {
    ShortText("g");
    ShortText("x");
    var links := db.messages[id].links;
    assert links[0] in links && links[0] == chat;
  }

  // -------------------------------------------------------------- the join table

  /** One message, joined twice to its chat. */
  function DoublyJoined(): Database { Table(map[1 := Note([7, 7])], map[7 := Room("c", ["a"])]) }

  lemma DoublyJoinedIsRefused() returns (q: Query)
    ensures BootstrapQuery(q, ACCOUNT, 0) && Page(DoublyJoined(), q, 0).Ok? && !Accepted(DoublyJoined(), q, 0)
  {
    var db := DoublyJoined();
    ShortText("a");
    NoteIsShown(db, 1, 7, "c", ["a"]);
    NoteIsSelected(db, 1, 7, "c", ["a"]);
    q := DoubleJoinIsRefused(db, ACCOUNT, 0, 0, 1);
  }

  /** One message, in a chat whose id is zero: the date query selects it, and the page leaves its slot empty. */
  function ZeroChat(): Database { Table(map[1 := Note([0])], map[0 := Room("c", ["a"])]) }

  lemma ZeroChatIsSkipped()
    ensures Selected(ZeroChat(), ACCOUNT, 0, PLAUSIBLE_GRACE, 1)
    ensures DecodeRow(ZeroChat(), Some(ACCOUNT), 1) == Ok(Skipped(1))
  {
    NoteIsSelected(ZeroChat(), 1, 0, "c", ["a"]);
    SelectedRowIsSkippedIff(ZeroChat(), ACCOUNT, 0, PLAUSIBLE_GRACE, 1);
  }

  // ------------------------------------------------------------------ large pages

  function Letters(n: nat): string { seq(n, i => 'a') }

  /** 256 members of 320 bytes, the most that the producer lets a chat have. */
  function Crowd(): seq<string> { seq(256, i => Letters(320)) }

  /** Rows one to n, all alike. */
  function Copies(n: nat, row: MessageRow): map<int, MessageRow> {
    if n == 0 then map[] else Copies(n - 1, row)[n := row]
  }

  lemma {:induction false} CopiesMeaning(n: nat, row: MessageRow)
    ensures forall id :: id in Copies(n, row) <==> 1 <= id <= n
    ensures forall id | id in Copies(n, row) :: Copies(n, row)[id] == row
  {
    if n > 0 {
      CopiesMeaning(n - 1, row);
    }
  }

  /** Five hundred short messages in the largest conversation. */
  function Crowded(): Database { Table(Copies(500, Note([1])), map[1 := Room("c", Crowd())]) }

  lemma {:induction false} EqualTexts(hs: seq<string>, n: nat)
    requires forall h | h in hs :: ByteLen(h) == n
    ensures ListBytes(hs) == |hs| * n
  {
    if hs != [] {
      assert hs[0] in hs;
      EqualTexts(hs[1..], n);
      OneMore(|hs| - 1, n);
    }
  }

  lemma CrowdBytes()
    ensures |Crowd()| == 256 && (forall h | h in Crowd() :: ByteLen(h) == 320) && ListBytes(Crowd()) == 81_920
  {
    PlainLengths(Letters(320));
    EqualTexts(Crowd(), 320);
  }

  lemma {:induction false} FullListing(ids: set<int>, lo: int, hi: int)
    requires lo <= hi && forall id | lo < id <= hi :: id in ids
    ensures |IdsIn(ids, lo, hi)| == hi - lo
    decreases hi - lo
  {
    if lo < hi {
      FullListing(ids, lo, hi - 1);
    }
  }

  /** The page of a query whose rows are all the same message. */
  lemma UniformPage(db: Database, q: Query, m: SafeMessage, chat: ChatInfo)
    requires GoodBounds(q) && q.notBefore.None? && db.hasReactions
    requires forall id | id in db.messages :: DecodeRow(db, q.account, id) == Ok(Shown(id, m, chat))
    ensures Page(db, q, 0).Ok?
    ensures |Page(db, q, 0).value.rows| == |Limited(RawIds(db, q, 0), q.limit)|
    ensures forall r | r in Page(db, q, 0).value.rows :: r == Shown(r.id, m, chat)
  {
    var taken := Limited(RawIds(db, q, 0), q.limit);
    IdsInMembers(db.messages.Keys, q.after, Upper(db, q));
    assert forall id | id in taken :: id in db.messages;
    assert DecodeAll(db, q.account, taken).Ok?;
    assert forall i | 0 <= i < |taken| :: taken[i] in taken;
  }

  /** The page of a query whose rows are all notes in one chat. */
  lemma NotesPage(db: Database, q: Query, chat: int, identifier: string, handles: seq<string>)
    requires GoodBounds(q) && q.account == Some(ACCOUNT) && q.notBefore.None? && db.hasReactions && chat > 0
    requires forall id | id in db.messages :: db.messages[id] == Note([chat])
    requires chat in db.chats && db.chats[chat] == Room(identifier, handles)
    requires |handles| <= 256 && forall h | h in handles :: ByteLen(h) <= 320
    ensures Page(db, q, 0).Ok?
    ensures |Page(db, q, 0).value.rows| == |Limited(RawIds(db, q, 0), q.limit)|
    ensures forall r | r in Page(db, q, 0).value.rows :: r.Shown? && r.chat == ChatInfo(chat, Room(identifier, handles))
  {
    var m, c := SafeMessage("g", "a", false, "x", 0), ChatInfo(chat, Room(identifier, handles));
    forall id | id in db.messages ensures DecodeRow(db, Some(ACCOUNT), id) == Ok(Shown(id, m, c)) {
      NoteIsShown(db, id, chat, identifier, handles);
    }
    UniformPage(db, q, m, c);
  }

  const FIRST_PAGE := Query(0, None, 500, Some(ACCOUNT), None)

  lemma CrowdedPage()
    ensures Page(Crowded(), FIRST_PAGE, 0).Ok? && |Page(Crowded(), FIRST_PAGE, 0).value.rows| == 500
    ensures forall r | r in Page(Crowded(), FIRST_PAGE, 0).value.rows :: r.Shown? && r.chat.row.handles == Crowd()
  {
    CrowdBytes();
    CopiesMeaning(500, Note([1]));
    NotesListing(Crowded(), 500, FIRST_PAGE);
    NotesPage(Crowded(), FIRST_PAGE, 1, "c", Crowd());
  }

  /** A first page lists all the notes that its limit allows. */
  lemma NotesListing(db: Database, n: nat, q: Query)
    requires n > 0 && forall id :: id in db.messages <==> 1 <= id <= n
    requires q.after == 0 && q.through.None? && q.notBefore.None? && q.limit > 0
    ensures |Limited(RawIds(db, q, 0), q.limit)| == if n <= q.limit then n else q.limit
  {
    assert n in db.messages.Keys;
    assert Upper(db, q) == n;
    FullListing(db.messages.Keys, 0, n);
  }

  /** Within every bound of the producer, and yet the adapter never takes the page: 82 MB of lines. */
  lemma CrowdedPageIsRefused()
    ensures Page(Crowded(), FIRST_PAGE, 0).Ok? && |Page(Crowded(), FIRST_PAGE, 0).value.rows| == 500
    ensures !WithinStream(Lines(Page(Crowded(), FIRST_PAGE, 0).value)) && !Accepted(Crowded(), FIRST_PAGE, 0)
  {
    CrowdedPage();
    CrowdBytes();
    LargePageIsRefused(Crowded(), FIRST_PAGE, 0, 81_920);
  }

  /** One message, in a chat whose identifier alone exceeds the longest line. */
  function LongNamed(): Database { Table(Copies(1, Note([1])), map[1 := Room(Letters(3_000_000), ["a"])]) }

  /** No limit makes such a row readable. */
  lemma LongNamedIsRefused(limit: int)
    requires 1 <= limit <= 1000
    ensures var q := FIRST_PAGE.(limit := limit);
            && Page(LongNamed(), q, 0).Ok?
            && !WithinStream(Lines(Page(LongNamed(), q, 0).value)) && !Accepted(LongNamed(), q, 0)
  {
    var db, q := LongNamed(), FIRST_PAGE.(limit := limit);
    ShortText("a");
    CopiesMeaning(1, Note([1]));
    NotesListing(db, 1, q);
    NotesPage(db, q, 1, Letters(3_000_000), ["a"]);
    var r := Page(db, q, 0).value.rows[0];
    assert r in Page(db, q, 0).value.rows;
    LongNameMakesALongRow(r);
    LongRowIsRefused(db, q, 0, r);
  }

  // --------------------------------------------------------------------- cursors

  /** An ordinary configuration. */
  function Sample(): Config { Config("i", "a", ACCOUNT, COLLECTION_VERSION, 0, 500, 500, 500, 500, text => false) }

  lemma SampleIsValid()
    ensures ValidConfig(Sample())
  {
    PlainName("i");
    PlainName("a");
    PlainName(ACCOUNT);
  }

  lemma PlainName(s: string)
    requires s != "" && |s| <= 32 && forall c | c in s :: 'a' <= c <= 'z'
    ensures Trim(s) == s && ByteLen(Trim(s)) <= 128
  {
    assert s[0] in s && s[|s| - 1] in s;
    TrimFixed(s);
  }

  /** A legacy cursor at row five, with a timestamp. */
  function DatedLegacy(generation: string): Params {
    Params(Some(Legacy(Cursor(1, "a", generation, 5, 0, false, Some(Stamp(0, 0))), 100)), 0, "", 0, None)
  }

  lemma DatedLegacyIsPlannedAndFails(generation: string, db: Database, now: int, host: Host,
                                    first: Option<P.Policy>, second: Option<P.Policy>, nonce: nat)
    ensures var plan := Plan(Sample(), generation, DatedLegacy(generation));
            plan.Ok? && !GoodCall(plan.value.cursor.row, plan.value.through, plan.value.limit, plan.value.notBefore)
    ensures CollectResponse(Sample(), generation, DatedLegacy(generation), first,
                            RealBackend(db, now, Sample(), host), second, nonce).Err?
  {
    SampleIsValid();
    var c := Cursor(1, "a", generation, 5, 0, false, Some(Stamp(0, 0)));
    DatedLegacyCursorNeverSucceeds(Sample(), generation, DatedLegacy(generation), c, 100, db, now, host,
                                   first, second, nonce);
  }

  /** One hour west of Greenwich, at the last moment of the year 9999 by the local clock. */
  const LAST_HOUR := Stamp(YEAR_TEN_THOUSAND, -3_600_000_000_000)

  function LateStart(generation: string): Params { Params(None, 0, generation, 0, Some(LAST_HOUR)) }

  lemma LateStartIsPlannedAndFails(generation: string, db: Database, now: int, host: Host,
                                    first: Option<P.Policy>, second: Option<P.Policy>, nonce: nat)
    requires generation != ""
    ensures Parses(LAST_HOUR) && !Parses(InUtc(LAST_HOUR))
    ensures Plan(Sample(), generation, LateStart(generation)).Ok?
    ensures CollectResponse(Sample(), generation, LateStart(generation), first,
                            RealBackend(db, now, Sample(), host), second, nonce).Err?
  {
    BadCallsAlwaysFail(Sample(), generation, LateStart(generation), db, now, host, first, second, nonce);
  }

  /** A configuration that is accepted, under which no cursor can be used. */
  lemma PaddedSampleIsAccepted(nonce: nat, c: Cursor)
    requires c.account == Padded(2048)
    ensures var cfg := Sample().(account := Padded(2048));
            ValidConfig(cfg) && Decode(cfg.key, cfg.instance, Encode(cfg.key, cfg.instance, nonce, c)) == None
  {
    SampleIsValid();
    PaddedAccountBreaksCursors(Sample().(account := Padded(2048)), nonce, c);
  }

  // ---------------------------------------------------------------------- grants

  /** All lists of a container, none there, and so no contacts: a snapshot that publishes no identity. */
  const EMPTY_SOURCE := C.Source("c", None, "", 1)
  const EMPTY_SNAPSHOT := C.Snapshot("c", Some([]), Some([]), true)

  const PUBLISHED := G.Attempt(0, Ok(EMPTY_SNAPSHOT), false, 0)

  /** Permission was denied, after the refresh had run out of time. */
  const DENIED_LATE := G.Attempt(1, Err(G.Coded(C.PermissionDenied)), true, 1)

  /** The denial ends current grants when it comes in time, and only then. */
  lemma LateDenialKeepsGrants()
    ensures G.HasGrants(EMPTY_SOURCE, 3600, [PUBLISHED, DENIED_LATE], 2)
    ensures !G.HasGrants(EMPTY_SOURCE, 3600, [PUBLISHED, DENIED_LATE.(expired := false)], 2)
  {
    var h := [PUBLISHED];
    assert C.Acceptable(EMPTY_SOURCE, EMPTY_SNAPSHOT);
    assert G.Stands(EMPTY_SOURCE, h, 0) && G.IsFresh(h[0], 3600, 2);
    G.HardFailureRevokesIff(EMPTY_SOURCE, 3600, h, DENIED_LATE, 2);
    G.HardFailureRevokesIff(EMPTY_SOURCE, 3600, h, DENIED_LATE.(expired := false), 2);
    assert h + [DENIED_LATE] == [PUBLISHED, DENIED_LATE];
    assert h + [DENIED_LATE.(expired := false)] == [PUBLISHED, DENIED_LATE.(expired := false)];
  }
}
