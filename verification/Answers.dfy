/**
 What the broker writes back (internal/rpc/envelope.go, and handleConn, dispatch and writeResponse in
 internal/broker/server.go): the JSON length of every successful answer, and what becomes of an
 answer that is too long or too late.

 A failure is always short: its id has at most 64 bytes.
 */
module Answers {
  import opened Lists
  import opened Wrappers
  import opened Text
  import opened Identity
  import opened Policy
  import opened Clock
  import opened Lengths
  import opened Collection
  import opened Cursor
  import opened Broker
  import opened Requests

  /** The most bytes that an answer may have. */
  const MAX_RESPONSE := 8_388_608

  // The keys of each object with their quotation marks, colons, commas and braces.
  const MESSAGE_FIELDS := 125
  const SENDER_FIELD := 12
  const CHAT_FIELDS := 109
  const ENVELOPE := 35
  const COLLECT_FIELDS := 51
  const HISTORY_FIELDS := 30
  const LISTING_FIELDS := 27
  const LOOKUP_FIELDS := 12

  // ------------------------------------------------------------------ lengths

  /** Each object as it is printed, with nothing between its keys and punctuation. */
  lemma KeysAreSpelled()
    ensures MESSAGE_FIELDS == |("{\"account_id\":\"\",\"database_generation\":\"\",\"row_id\":,\"chat_id\":"
                               + ",\"chat_guid\":\"\",\"guid\":\"\",\"from_me\":,\"text\":\"\",\"created_at\":\"\"}")|
    ensures SENDER_FIELD == |",\"sender\":\"\""|
    ensures CHAT_FIELDS == |("{\"account_id\":\"\",\"database_generation\":\"\",\"chat_id\":,\"chat_guid\":\"\""
                               + ",\"service\":\"\",\"is_group\":,\"participants\":}")|
    ensures ENVELOPE == |"{\"v\":1,\"id\":\"\",\"ok\":true,\"result\":}"|
    ensures COLLECT_FIELDS == |"{\"messages\":,\"cursor\":\"\",\"more\":,\"range_complete\":}"|
    ensures HISTORY_FIELDS == |"{\"messages\":,\"scan_complete\":}"|
    ensures LISTING_FIELDS == |"{\"chats\":,\"scan_complete\":}"|
    ensures LOOKUP_FIELDS == |"{\"message\":}"|
  {
  }

  /** A timestamp as it was read: with a Z, or with hours and minutes from UTC. */
  function WrittenLen(t: TimeText): (n: nat)
    ensures n <= 35
  {
    StampLen(t) + if t.Stamp? && t.offset != 0 then 5 else 0
  }

  /** An array whose elements have these lengths. */
  function ArrayLen(sizes: seq<nat>): nat { 2 + Sum(sizes) + if sizes == [] then 0 else |sizes| - 1 }

  function TextArrayLen(ss: seq<string>): nat {
    ArrayLen(seq(|ss|, i requires 0 <= i < |ss| => 2 + JsonTextLen(ss[i])))
  }

  /** One message of an answer; an empty sender is left out. */
  function ShownLen(m: Message): nat {
    MESSAGE_FIELDS + JsonTextLen(m.account) + JsonTextLen(m.generation) + IntLen(m.rowId) + IntLen(m.chatId)
    + JsonTextLen(m.chatGuid) + JsonTextLen(m.guid)
    + (if m.sender == "" then 0 else SENDER_FIELD + JsonTextLen(m.sender))
    + FlagLen(m.fromMe) + JsonTextLen(m.text) + WrittenLen(m.createdAt)
  }

  function ShownSizes(ms: seq<Message>): (sizes: seq<nat>)
    ensures |sizes| == |ms|
  {
    seq(|ms|, i requires 0 <= i < |ms| => ShownLen(ms[i]))
  }

  function ListedLen(c: Chat): nat {
    CHAT_FIELDS + JsonTextLen(c.account) + JsonTextLen(c.generation) + IntLen(c.id) + JsonTextLen(c.guid)
    + JsonTextLen(c.service) + FlagLen(c.isGroup) + TextArrayLen(c.participants)
  }

  function ListedSizes(cs: seq<Chat>): seq<nat> { seq(|cs|, i requires 0 <= i < |cs| => ListedLen(cs[i])) }

  function TokenLen(t: Token): nat {
    match t
    case Sealed(_, _, _, body) => SealedLen(body)
    case Legacy(_, length) => length
    case Garbage => 0
  }

  function CollectLen(id: string, r: CollectResult): nat {
    ENVELOPE + JsonTextLen(id) + COLLECT_FIELDS + ArrayLen(ShownSizes(r.messages)) + TokenLen(r.cursor)
    + FlagLen(r.more) + FlagLen(r.rangeComplete)
  }

  function HistoryLen(id: string, f: Filtered<Message>): nat {
    ENVELOPE + JsonTextLen(id) + HISTORY_FIELDS + ArrayLen(ShownSizes(f.shown)) + FlagLen(f.scanComplete)
  }

  function ListingLen(id: string, f: Filtered<Chat>): nat {
    ENVELOPE + JsonTextLen(id) + LISTING_FIELDS + ArrayLen(ListedSizes(f.shown)) + FlagLen(f.scanComplete)
  }

  function LookupLen(id: string, m: Message): nat { ENVELOPE + JsonTextLen(id) + LOOKUP_FIELDS + ShownLen(m) }

  // -------------------------------------------------------------- what is sent

  /** The rule for the id of a request. */
  predicate ValidId(id: string) { Trim(id) != "" && ByteLen(id) <= 64 }

  /** What reaches the client of a handler's answer, given its length: nothing late, and nothing too long. */
  function Sent<T>(id: string, inTime: bool, r: Result<T, Failure>, length: nat): Result<T, Failure> {
    if !ValidId(id) then Err(InvalidRequest)
    else if !inTime then Err(BackendTimeout)
    else if r.Ok? && length > MAX_RESPONSE then Err(ResponseTooLarge)
    else r
  }

  /** An answer is sent as it was given if and only if its id is good, it comes in time, and it has at most 8 MiB. */
  lemma SentIff<T>(id: string, inTime: bool, r: Result<T, Failure>, length: nat, v: T)
    ensures Sent(id, inTime, r, length) == Ok(v) <==>
              !IsTrimOf("", id) && ByteLen(id) <= 64 && inTime && r == Ok(v) && length <= 8 * 1024 * 1024
    ensures r.Ok? && Sent(id, inTime, r, length) == Err(ResponseTooLarge) <==>
              !IsTrimOf("", id) && ByteLen(id) <= 64 && inTime && r.Ok? && length > 8 * 1024 * 1024
  {
    TrimIff(id, "");
  }

  function CollectSent(id: string, inTime: bool, r: Result<CollectResult, Failure>): Result<CollectResult, Failure> {
    Sent(id, inTime, r, if r.Ok? then CollectLen(id, r.value) else 0)
  }

  function HistorySent(id: string, inTime: bool, r: Result<Filtered<Message>, Failure>)
    : Result<Filtered<Message>, Failure>
  {
    Sent(id, inTime, r, if r.Ok? then HistoryLen(id, r.value) else 0)
  }

  function ListingSent(id: string, inTime: bool, r: Result<Filtered<Chat>, Failure>): Result<Filtered<Chat>, Failure> {
    Sent(id, inTime, r, if r.Ok? then ListingLen(id, r.value) else 0)
  }

  function LookupSent(id: string, inTime: bool, r: Result<Message, Failure>): Result<Message, Failure> {
    Sent(id, inTime, r, if r.Ok? then LookupLen(id, r.value) else 0)
  }

  // ------------------------------------------------------- answers that always fit

  /** The bounds that hold of every message shown, given those of the names, of the sender as read, and of 64 bits. */
  ghost predicate Modest(m: Message) {
    && JsonTextLen(m.account) + JsonTextLen(m.generation) <= MAX_NAMES
    && 0 <= m.rowId < INT64_END && 0 <= m.chatId < INT64_END
    && ByteLen(m.chatGuid) <= 512 && ByteLen(m.guid) <= 512 && ByteLen(m.sender) <= 320 && ByteLen(m.text) <= 65536
  }

  /** What a modest message takes at most, and how many of them always fit. */
  const MESSAGE_MOST := 402_849
  const ALWAYS_FIT := 20

  lemma ModestLen(m: Message)
    requires Modest(m)
    ensures ShownLen(m) <= MESSAGE_MOST
  {
    Int64Len(m.rowId);
    Int64Len(m.chatId);
    JsonTextBound(m.chatGuid);
    JsonTextBound(m.guid);
    JsonTextBound(m.sender);
    JsonTextBound(m.text);
  }

  lemma ModestArray(ms: seq<Message>)
    requires |ms| <= ALWAYS_FIT && forall m | m in ms :: Modest(m)
    ensures ArrayLen(ShownSizes(ms)) <= 8_057_001
  {
    forall n | n in ShownSizes(ms) ensures n <= MESSAGE_MOST {
      var i :| 0 <= i < |ms| && ShownSizes(ms)[i] == n;
      assert ms[i] in ms;
      ModestLen(ms[i]);
    }
    SumAtMost(ShownSizes(ms), MESSAGE_MOST);
    Times(|ms|, ALWAYS_FIT, MESSAGE_MOST);
  }

  /** Up to twenty messages fit in an answer to collection, whatever their content. */
  lemma FewMessagesFit(id: string, r: CollectResult)
    requires ByteLen(id) <= 64 && |r.messages| <= ALWAYS_FIT && TokenLen(r.cursor) <= MAX_TOKEN
    requires forall m | m in r.messages :: Modest(m)
    ensures CollectLen(id, r) <= MAX_RESPONSE
  {
    JsonTextBound(id);
    ModestArray(r.messages);
  }

  /** So do up to twenty messages of a history, and every message looked up: in time, they are sent as answered. */
  lemma FewRowsAreSent(id: string, f: Filtered<Message>, m: Message)
    requires ValidId(id)
    ensures |f.shown| <= ALWAYS_FIT && (forall s | s in f.shown :: Modest(s)) ==> HistorySent(id, true, Ok(f)) == Ok(f)
    ensures Modest(m) ==> LookupSent(id, true, Ok(m)) == Ok(m)
  {
    JsonTextBound(id);
    if |f.shown| <= ALWAYS_FIT && forall s | s in f.shown :: Modest(s) {
      ModestArray(f.shown);
    }
    if Modest(m) {
      ModestLen(m);
    }
  }

  /** A listing is sent as answered when its chats, each at most so long, fit together. */
  lemma ShortListingsAreSent(id: string, f: Filtered<Chat>, most: nat)
    requires ValidId(id) && (forall c | c in f.shown :: ListedLen(c) <= most)
    requires |f.shown| * most + |f.shown| + 453 <= MAX_RESPONSE
    ensures ListingSent(id, true, Ok(f)) == Ok(f)
  {
    JsonTextBound(id);
    forall n | n in ListedSizes(f.shown) ensures n <= most {
      var i :| 0 <= i < |f.shown| && ListedSizes(f.shown)[i] == n;
      assert f.shown[i] in f.shown;
    }
    SumAtMost(ListedSizes(f.shown), most);
  }

  /** Normal forms are no longer than what they were read from. */
  lemma NormalFormIsShort(raw: string)
    requires Normalize(raw).Some?
    ensures ByteLen(Normalize(raw).value) <= if ByteLen(raw) <= 64 then 64 else ByteLen(raw)
  {
    TrimIsShorter(raw);
    LowerKeepsBytes(Trim(raw));
  }

  lemma {:induction false} LowerKeepsBytes(s: string)
    ensures ByteLen(Lower(s)) == ByteLen(s)
  {
    if s != "" {
      LowerKeepsBytes(s[1..]);
      assert Lower(s)[1..] == Lower(s[1..]);
    }
  }

  lemma {:induction false} TrimRightIsShorter(s: string)
    ensures ByteLen(TrimRight(s)) <= ByteLen(s)
  {
    if s != "" && IsSpace(s[|s| - 1]) {
      TrimRightIsShorter(s[..|s| - 1]);
      PrefixIsShorter(s[..|s| - 1], s);
    }
  }

  lemma {:induction false} PrefixIsShorter(a: string, b: string)
    requires a <= b
    ensures ByteLen(a) <= ByteLen(b)
  {
    if a != "" {
      PrefixIsShorter(a[1..], b[1..]);
    }
  }

  lemma {:induction false} TrimLeftIsShorter(s: string)
    ensures ByteLen(TrimLeft(s)) <= ByteLen(s)
  {
    if s != "" && IsSpace(s[0]) {
      TrimLeftIsShorter(s[1..]);
    }
  }

  lemma TrimIsShorter(s: string)
    ensures ByteLen(Trim(s)) <= ByteLen(s)
  {
    TrimLeftIsShorter(s);
    TrimRightIsShorter(TrimLeft(s));
  }

  /** Whatever is shown under a chat that the broker accepts is modest. */
  lemma AdmissibleIsModest(cfg: Config, generation: string, m: RawMessage, c: RawChat, p: Policy, shown: Message)
    requires Admissible(cfg, generation, m, c, p, shown) && ValidChat(c)
    requires NamesLen(cfg.account, generation) <= MAX_NAMES
    requires m.id < INT64_END && c.id < INT64_END && ByteLen(m.sender) <= 320
    ensures Modest(shown)
  {
    if !m.isFromMe.value {
      NormalFormIsShort(m.sender);
    }
  }

  // ------------------------------------------------------ answers that never fit

  lemma {:induction false} TextIsWritten(s: string)
    ensures ByteLen(s) <= JsonTextLen(s)
  {
    if s != "" {
      TextIsWritten(s[1..]);
    }
  }

  /** An answer whose messages are each at least so long is refused once they exceed the bound together. */
  lemma LongMessagesAreRefused(id: string, r: CollectResult, least: nat)
    requires (forall m | m in r.messages :: ShownLen(m) >= least) && |r.messages| * least > MAX_RESPONSE
    ensures CollectLen(id, r) > MAX_RESPONSE
  {
    forall n | n in ShownSizes(r.messages) ensures n >= least {
      var i :| 0 <= i < |r.messages| && ShownSizes(r.messages)[i] == n;
      assert r.messages[i] in r.messages;
    }
    SumAtLeast(ShownSizes(r.messages), least);
  }

  /** In particular, texts that exceed the bound by themselves do. */
  lemma LongTextsAreRefused(id: string, r: CollectResult, least: nat)
    requires (forall m | m in r.messages :: ByteLen(m.text) >= least) && |r.messages| * least > MAX_RESPONSE
    ensures CollectLen(id, r) > MAX_RESPONSE
  {
    forall m | m in r.messages ensures ShownLen(m) >= least {
      TextIsWritten(m.text);
    }
    LongMessagesAreRefused(id, r, least);
  }
}
