/**
 Answers that are too long for the transport although every message is within the bounds of producer
 and broker: a table of the owner's own messages, all alike, read in one request. With
 CollectionProgress.SmallAnswersFit this makes twenty the largest limit that is always safe.
 */
module LongAnswers {
  import opened Lists
  import opened Wrappers
  import opened Text
  import opened Identity
  import opened Clock
  import opened Lengths
  import opened MessageStore
  import opened Collection
  import opened PageSizes
  import opened Cursor
  import opened Broker
  import opened Answers
  import opened CollectionRun
  import opened CollectionProgress
  import opened Shortfalls
  import P = Policy

  /** How many messages, their GUID and text, and the service and the member of the group they are in. */
  datatype Filling = Filling(n: nat, guid: string, text: string, service: string, member: string)

  /** Within every bound of producer and broker. */
  ghost predicate Allowed(f: Filling) {
    && 1 <= f.n <= 140 && 0 < ByteLen(f.guid) <= 512 && ByteLen(f.text) <= 65536
    && f.service != "" && ByteLen(f.service) <= 508 && ';' !in f.service && IsE164(f.member)
  }

  function ChatGuid(f: Filling): string { f.service + ";+;c" }

  function Own(f: Filling): MessageRow {
    MessageRow(0, NoBalloon, Some(0), Some(1), f.guid, "", "", f.text, 0, "", [1])
  }

  function Club(f: Filling): ChatInfo {
    ChatInfo(1, ChatRow("c", ChatGuid(f), "iMessage", Some(ACCOUNT), true, [f.member]))
  }

  function Filled(f: Filling): Database { Table(Copies(f.n, Own(f)), map[1 := Club(f).row]) }

  /** A policy of one owner: all groups may be read. */
  function Open(): P.Policy { P.Policy({"+12025550111"}, {}, {}) }

  /** A client about to read such a table from its start, and its request for all of it at once. */
  function Reader(f: Filling): World {
    World(Sample(), "g", Filled(f), f.n, 0, Some(Open()), Client(Initial(0, None), [], []))
  }

  function AskForAll(f: Filling): Step { CollectPage("r", f.n, 0, GOOD_HOST, Some(Open()), true) }

  function Decoded(f: Filling): SafeMessage { SafeMessage(f.guid, "", true, f.text, 0) }

  function OwnShown(f: Filling, id: int): Message {
    Message("a", "g", id, 1, ChatGuid(f), f.guid, "", true, f.text, Stamp(0, 0))
  }

  // ------------------------------------------------------------------ lengths

  lemma {:induction false} LengthsAdd(a: string, b: string)
    ensures ByteLen(a + b) == ByteLen(a) + ByteLen(b) && JsonTextLen(a + b) == JsonTextLen(a) + JsonTextLen(b)
  {
    if a == "" {
      assert a + b == b;
    } else {
      LengthsAdd(a[1..], b);
      assert (a + b)[0] == a[0] && (a + b)[1..] == a[1..] + b;
    }
  }

  lemma {:induction false} PlainText(s: string)
    requires forall c | c in s :: c == ';' || c == '+' || IsAlnum(c)
    ensures ByteLen(s) == JsonTextLen(s) == |s|
  {
    if s != "" {
      assert s[0] in s;
      PlainText(s[1..]);
    }
  }

  lemma ChatGuidLengths(f: Filling)
    ensures ByteLen(ChatGuid(f)) == ByteLen(f.service) + 4 && JsonTextLen(ChatGuid(f)) == JsonTextLen(f.service) + 4
  {
    LengthsAdd(f.service, ";+;c");
    PlainText(";+;c");
  }

  lemma {:induction false} Escaped(n: nat)
    ensures var s := seq(n, i => '<'); ByteLen(s) == n && JsonTextLen(s) == 6 * n
  {
    if n > 0 {
      Escaped(n - 1);
      assert seq(n, i => '<')[1..] == seq(n - 1, i => '<');
    }
  }

  // ----------------------------------------------------------------- one message

  lemma MemberIsNormal(v: string)
    requires IsE164(v)
    ensures Normalize(v) == Some(v) && ByteLen(v) <= 64
  {
    PhoneFormFixed(v);
    E164Characters(v);
    assert '@' !in v;
  }

  lemma OwnIsDecoded(f: Filling, id: int)
    requires Allowed(f) && id in Filled(f).messages
    ensures DecodeRow(Filled(f), Some(ACCOUNT), id) == Ok(Shown(id, Decoded(f), Club(f)))
  {
    CopiesMeaning(f.n, Own(f));
    assert ByteLen(f.member) <= 64;
    OwnIsAnObservation(Filled(f), f, id);
    ShownRowIff(Filled(f), Some(ACCOUNT), id, Decoded(f), Club(f));
  }

  lemma OwnIsAnObservation(db: Database, f: Filling, id: int)
    requires Allowed(f) && id in db.messages && db.messages[id] == Own(f)
    requires 1 in db.chats && db.chats[1] == Club(f).row
    ensures IsObservation(db, Some(ACCOUNT), id, Decoded(f), Club(f))
  {
    assert forall h | h in [f.member] :: h == f.member;
  }

  lemma ClubIsAGroup(f: Filling)
    requires Allowed(f)
    ensures P.IsGroupChat(ChatConversation(ChatJson(Club(f))))
  {
    MemberIsNormal(f.member);
    ChatGuidIsNative(f);
    assert f.member in [f.member];
  }

  lemma ChatGuidIsNative(f: Filling)
    requires Allowed(f)
    ensures P.IsGuid(ChatGuid(f), f.service, '+', "c")
  {
    assert ChatGuid(f) == f.service + ";" + ['+'] + ";" + "c";
  }

  lemma OwnIsAdmissible(f: Filling, id: int)
    requires Allowed(f) && 1 <= id
    ensures Admissible(Sample(), "g", MessageJson(id, Decoded(f), Club(f)), ChatJson(Club(f)), Open(), OwnShown(f, id))
  {
    ClubIsAGroup(f);
    P.AuthorizeMeaning(Open(), ChatConversation(ChatJson(Club(f))));
  }

  lemma ClubIsValid(f: Filling)
    requires Allowed(f)
    ensures ValidChat(ChatJson(Club(f)))
  {
    ChatGuidLengths(f);
    PlainText("c");
    PlainText("iMessage");
  }

  lemma OwnIsAdmitted(f: Filling, id: int)
    requires Allowed(f) && 1 <= id
    ensures AdmitRow(Sample(), "g", Open(), ReceivedRow(Shown(id, Decoded(f), Club(f)))) == [OwnShown(f, id)]
  {
    OwnIsAdmissible(f, id);
    ClubIsValid(f);
    ShownIffAdmissible(Sample(), "g", MessageJson(id, Decoded(f), Club(f)), ChatJson(Club(f)), Open(), OwnShown(f, id));
  }

  // -------------------------------------------------------------------- the page

  function AllOf(f: Filling): Query { FIRST_PAGE.(limit := f.n) }

  lemma AllIsRead(f: Filling)
    requires Allowed(f)
    ensures var page := Page(Filled(f), AllOf(f), 0);
            && page.Ok? && |page.value.rows| == f.n
            && forall r | r in page.value.rows :: 1 <= r.id && r == Shown(r.id, Decoded(f), Club(f))
  {
    var db := Filled(f);
    CopiesMeaning(f.n, Own(f));
    forall id | id in db.messages ensures DecodeRow(db, Some(ACCOUNT), id) == Ok(Shown(id, Decoded(f), Club(f))) {
      OwnIsDecoded(f, id);
    }
    NotesListing(db, f.n, AllOf(f));
    UniformPage(db, AllOf(f), Decoded(f), Club(f));
    PageRowsExist(db, AllOf(f), 0);
    assert forall r | r in Page(db, AllOf(f), 0).value.rows :: r.id in db.messages;
  }

  lemma AllFits(f: Filling)
    requires Allowed(f)
    ensures Page(Filled(f), AllOf(f), 0).Ok? && WithinStream(Lines(Page(Filled(f), AllOf(f), 0).value))
  {
    AllIsRead(f);
    FilledIs64Bit(f);
    var rows := Page(Filled(f), AllOf(f), 0).value.rows;
    forall r | r in rows && r.Shown? ensures ChatBytes(r.chat.row) <= 1000 {
      ClubIsSmall(f);
      assert r == Shown(r.id, Decoded(f), Club(f));
    }
    Times(f.n, 140, ROW_REST + 12_001);
    ModestPagesFit(Filled(f), AllOf(f), 0, 1000);
  }

  lemma FilledIs64Bit(f: Filling)
    requires Allowed(f)
    ensures Is64Bit(Filled(f), AllOf(f))
  {
    CopiesMeaning(f.n, Own(f));
  }

  lemma ClubIsSmall(f: Filling)
    requires Allowed(f)
    ensures ChatBytes(Club(f).row) <= 1000
  {
    ChatGuidLengths(f);
    OtherLengths();
    OneMember(f.member);
  }

  lemma OtherLengths()
    ensures ByteLen("c") + ByteLen("iMessage") + ByteLen(ACCOUNT) == 12
  {
    PlainText("c");
    PlainText("iMessage");
    PlainText(ACCOUNT);
  }

  lemma OneMember(v: string)
    requires IsE164(v)
    ensures ListBytes([v]) <= 64
  {
    assert [v][1..] == [] && ByteLen(v) <= 64;
  }

  lemma AllIsAdmitted(f: Filling)
    requires Allowed(f) && Page(Filled(f), AllOf(f), 0).Ok?
    ensures var ms := Admit(Sample(), "g", Open(), Received(Page(Filled(f), AllOf(f), 0).value).rows);
            |ms| == f.n && forall m | m in ms :: m == OwnShown(f, m.rowId)
  {
    AllIsRead(f);
    var rows, admit := Received(Page(Filled(f), AllOf(f), 0).value).rows, Admitter(Sample(), "g", Open());
    forall row | row in rows ensures admit(row) == [OwnShown(f, row.rowId)] {
      var i :| 0 <= i < |rows| && rows[i] == row;
      var r := Page(Filled(f), AllOf(f), 0).value.rows[i];
      assert r in Page(Filled(f), AllOf(f), 0).value.rows;
      OwnIsAdmitted(f, r.id);
    }
    GatherOne(rows, admit);
    forall m: Message | m in Gather(rows, admit) ensures m == OwnShown(f, m.rowId) {
      GatherMeaning(rows, admit, m);
    }
  }

  lemma {:induction false} GatherOne<T, U>(s: seq<T>, f: T -> seq<U>)
    requires forall x | x in s :: |f(x)| == 1
    ensures |Gather(s, f)| == |s|
  {
    if s != [] {
      assert s[|s| - 1] in s && forall x | x in s[..|s| - 1] :: x in s;
      GatherOne(s[..|s| - 1], f);
    }
  }

  // ------------------------------------------------------------------ the answer

  lemma ReaderIsSettled(f: Filling)
    requires Allowed(f)
    ensures Settled(Reader(f)) && Here(Reader(f)) == Some(Cursor(1, "a", "g", 0, 0, false, None))
  {
    SampleIsValid();
    CopiesMeaning(f.n, Own(f));
    PlainText("a");
    PlainText("g");
    FirstRequestIsSettled(Reader(f), 0, None);
  }

  lemma AllIsHandled(f: Filling)
    requires Allowed(f)
    ensures Settled(Reader(f)) && Handled(Reader(f), AskForAll(f)).Ok?
    ensures var ms := Handled(Reader(f), AskForAll(f)).value.messages;
            |ms| == f.n && forall m | m in ms :: m == OwnShown(f, m.rowId)
  {
    var w, s := Reader(f), AskForAll(f);
    ReaderIsSettled(f);
    AllFits(f);
    AllIsAdmitted(f);
    assert QueryOf(w, NextCall(w, f.n)) == AllOf(f);
    HandledIff(w, s);
  }

  /** When all messages together exceed the bound the client gets none of them, and gets some when it asks for less. */
  lemma TooManyAreRefused(f: Filling, least: nat, limit: int)
    requires Allowed(f) && f.n * least > MAX_RESPONSE && 1 <= limit <= ALWAYS_FIT
    requires forall id :: ShownLen(OwnShown(f, id)) >= least
    ensures Settled(Reader(f)) && Response(Reader(f), AskForAll(f)) == Err(ResponseTooLarge)
    ensures Response(Reader(f), AskForAll(f).(limit := limit)).Ok?
  {
    var w, s := Reader(f), AskForAll(f);
    AllIsHandled(f);
    LongMessagesAreRefused(s.request, Handled(w, s).value, least);
    RequestIdIsValid();
    AskingForLessSucceeds(w, s, limit);
  }

  lemma RequestIdIsValid()
    ensures ValidId("r")
  {
    PlainText("r");
    TrimFixed("r");
  }

  // ------------------------------------------------------------------ two tables

  const MEMBER := "+12025550100"

  lemma MemberIsANumber()
    ensures IsE164(MEMBER)
  {
  }

  /** 140 messages of 65,536 letters. */
  function Letters140(): Filling { Filling(140, Letters(1), Letters(65_536), Letters(1), MEMBER) }

  lemma Letters140Allowed()
    ensures Allowed(Letters140()) && ByteLen(Letters140().text) == 65_536
  {
    MemberIsANumber();
    PlainLengths(Letters(1));
    PlainLengths(Letters(65_536));
  }

  lemma LongTextsFail(limit: int)
    requires 1 <= limit <= ALWAYS_FIT
    ensures Settled(Reader(Letters140()))
    ensures Response(Reader(Letters140()), AskForAll(Letters140())) == Err(ResponseTooLarge)
    ensures Response(Reader(Letters140()), AskForAll(Letters140()).(limit := limit)).Ok?
  {
    Letters140Allowed();
    TextIsWritten(Letters140().text);
    TooManyAreRefused(Letters140(), 65_536, limit);
  }

  /** One message more than always fits, its names and text full of a character that JSON escapes. */
  function Escaped21(): Filling {
    Filling(21, seq(512, i => '<'), seq(65_536, i => '<'), seq(508, i => '<'), MEMBER)
  }

  lemma Escaped21Allowed()
    ensures Allowed(Escaped21()) && JsonTextLen(Escaped21().guid) == 3072
    ensures JsonTextLen(Escaped21().text) == 393_216 && JsonTextLen(Escaped21().service) == 3048
  {
    MemberIsANumber();
    Escaped(512);
    Escaped(65_536);
    Escaped(508);
    NoSemicolon(508);
  }

  lemma NoSemicolon(n: nat)
    ensures ';' !in seq(n, i => '<')
  {
  }

  lemma TwentyIsTheMost()
    ensures Escaped21().n == ALWAYS_FIT + 1
    ensures Settled(Reader(Escaped21()))
    ensures Response(Reader(Escaped21()), AskForAll(Escaped21())) == Err(ResponseTooLarge)
  {
    Escaped21Allowed();
    TwentyOneFail(Escaped21());
  }

  lemma TwentyOneFail(f: Filling)
    requires Allowed(f) && f.n == 21
    requires JsonTextLen(f.guid) == 3072 && JsonTextLen(f.text) == 393_216 && JsonTextLen(f.service) == 3048
    ensures Settled(Reader(f)) && Response(Reader(f), AskForAll(f)) == Err(ResponseTooLarge)
  {
    EscapedLen(f);
    TooManyAreRefused(f, 399_493, 1);
  }

  lemma EscapedLen(f: Filling)
    requires JsonTextLen(f.guid) == 3072 && JsonTextLen(f.text) == 393_216 && JsonTextLen(f.service) == 3048
    ensures forall id :: ShownLen(OwnShown(f, id)) >= 399_493
  {
    ChatGuidLengths(f);
    PlainText("a");
    PlainText("g");
  }
}
