/**
 The broker's core (internal/broker/server.go): what one message may show, and one collection
 request around an arbitrary backend.
 */
module Broker {
  import opened Lists
  import opened Wrappers
  import opened Text
  import opened Identity
  import opened Policy
  import opened Clock
  import opened MessageStore
  import opened Collection
  import opened Cursor

  /** The owner's configuration; suppress is the content filter. */
  datatype Config = Config(
    instance: string, account: string, backendAccount: string, version: string, key: nat,
    maxResults: int, maxChatScan: int, maxMessageScan: int, maxCollectionScan: int,
    suppress: string -> bool)

  /** The two audited releases of the backend; only the second has the collect command. */
  const PLAIN_VERSION := "0.13.1"
  const COLLECTION_VERSION := "0.13.1-safe-imsg.4"

  predicate BoundedCollection(cfg: Config) { cfg.version == COLLECTION_VERSION }

  /** The part of configuration validation that the requests below rely on. */
  predicate ValidConfig(cfg: Config) {
    && (forall s | s in [cfg.instance, cfg.account, cfg.backendAccount] :: Trim(s) != "" && ByteLen(Trim(s)) <= 128)
    && (cfg.version == PLAIN_VERSION || cfg.version == COLLECTION_VERSION)
    && 1 <= cfg.maxResults <= 500
    && cfg.maxResults <= cfg.maxChatScan <= 5000
    && cfg.maxResults <= cfg.maxMessageScan <= 10000
    && cfg.maxResults <= cfg.maxCollectionScan <= 1000
  }

  /** A name that validation accepts: not blank, and at most 128 bytes without the white space around it. */
  ghost predicate GoodName(s: string) { exists t :: IsTrimOf(t, s) && 1 <= ByteLen(t) <= 128 }

  lemma ConfigIff(cfg: Config)
    ensures ValidConfig(cfg) <==>
              && GoodName(cfg.instance) && GoodName(cfg.account) && GoodName(cfg.backendAccount)
              && (cfg.version == "0.13.1" || cfg.version == "0.13.1-safe-imsg.4")
              && 1 <= cfg.maxResults <= 500 && cfg.maxResults <= cfg.maxChatScan <= 5000
              && cfg.maxResults <= cfg.maxMessageScan <= 10_000 && cfg.maxResults <= cfg.maxCollectionScan <= 1000
  {
    NamesIff(cfg.instance, cfg.account, cfg.backendAccount);
  }

  lemma NamesIff(a: string, b: string, c: string)
    ensures (forall s | s in [a, b, c] :: Trim(s) != "" && ByteLen(Trim(s)) <= 128) <==>
            GoodName(a) && GoodName(b) && GoodName(c)
  {
    NameIff(a);
    NameIff(b);
    NameIff(c);
    assert a in [a, b, c] && b in [a, b, c] && c in [a, b, c];
  }

  lemma NameIff(s: string)
    ensures GoodName(s) <==> Trim(s) != "" && ByteLen(Trim(s)) <= 128
  {
    TrimIff(s, Trim(s));
    forall t ensures IsTrimOf(t, s) <==> t == Trim(s) {
      TrimIff(s, t);
    }
  }

  datatype Message = Message(
    account: string, generation: string, rowId: int, chatId: int, chatGuid: string, guid: string,
    sender: string, fromMe: bool, text: string, createdAt: TimeText)

  datatype Failure =
    | InvalidRequest | InvalidParams | StaleGeneration | StaleCursor | PolicyUnavailable
    | BackendUnavailable | BackendTimeout | CollectionUnsupported | BackendInvalid
    | NotVisible | NotFound | LookupIncomplete | ResponseTooLarge

  // ------------------------------------------------------------- conversations

  function ChatConversation(c: RawChat): Conversation { Conversation(c.guid, c.identifier, c.isGroup, c.participants) }

  function MessageConversation(m: RawMessage): Conversation {
    Conversation(m.chatGuid, m.chatIdentifier, m.isGroup, m.participants)
  }

  predicate ValidChat(c: RawChat) {
    && c.id > 0 && 0 < ByteLen(c.guid) <= 512 && ByteLen(c.identifier) <= 512 && 0 < ByteLen(c.service) <= 64
  }

  /** The bounds within which a chat may be shown. */
  ghost predicate GoodChat(c: RawChat) {
    0 < c.id && 0 < ByteLen(c.guid) <= 512 && ByteLen(c.identifier) <= 512 && 0 < ByteLen(c.service) <= 64
  }

  lemma ChatIff(c: RawChat)
    ensures ValidChat(c) <==> GoodChat(c)
  {
  }

  predicate MatchesAccount(cfg: Config, c: RawChat) { c.account == Some(cfg.backendAccount) }

  function SameConversation(m: RawMessage, c: RawChat, p: Policy): Option<Decision> {
    if m.chatId != c.id || m.chatGuid != c.guid || m.chatIdentifier != c.identifier
       || m.isGroup.None? || c.isGroup.None? || m.isGroup != c.isGroup then None
    else
      var a, b := Authorize(p, MessageConversation(m)), Authorize(p, ChatConversation(c));
      if !a.valid || !b.valid || a.isGroup != b.isGroup || a.allowed != b.allowed then None
      else if Join(Sort(a.participants), '\0') != Join(Sort(b.participants), '\0') then None
      else Some(a)
  }

  /** The message and the chat describe one conversation, members compared as a set. */
  ghost predicate Agree(m: RawMessage, c: RawChat) {
    && m.chatId == c.id && m.chatGuid == c.guid && m.chatIdentifier == c.identifier && m.isGroup == c.isGroup
    && Consistent(MessageConversation(m)) && Consistent(ChatConversation(c))
    && Normals(m.participants.value) == Normals(c.participants.value)
  }

  ghost predicate Consistent(c: Conversation) { IsGroupChat(c) || exists id :: IsDirectChat(c, id) }

  lemma NormalMembersJoin(raws: seq<string>, list: seq<string>)
    requires list != [] && Elements(list) == Normals(raws)
    ensures Split(Join(Sort(list), '\0'), '\0') == Sort(list)
  {
    SortElements(list);
    forall v | v in Sort(list) ensures '\0' !in v {
      assert v in Elements(Sort(list));
      assert v in Elements(list);
      var s :| s in raws && Normalize(s) == Some(v);
      NormalFormIsCanonical(s);
    }
    SplitJoin(Sort(list), '\0');
  }

  /** Comparing the joined, sorted lists compares the sets of normalized members. */
  lemma JoinedMembersAgreeIff(x: seq<string>, a: seq<string>, y: seq<string>, b: seq<string>)
    requires a != [] && Distinct(a) && Elements(a) == Normals(x)
    requires b != [] && Distinct(b) && Elements(b) == Normals(y)
    ensures Join(Sort(a), '\0') == Join(Sort(b), '\0') <==> Normals(x) == Normals(y)
  {
    NormalMembersJoin(x, a);
    NormalMembersJoin(y, b);
    SortDistinct(a, b);
  }

  lemma AgreementDecidesAlike(m: RawMessage, c: RawChat, p: Policy)
    requires Agree(m, c)
    ensures var a, b := Authorize(p, MessageConversation(m)), Authorize(p, ChatConversation(c));
            a.isGroup == b.isGroup && a.allowed == b.allowed
  {
    var x, y := MessageConversation(m), ChatConversation(c);
    AuthorizeMeaning(p, x);
    AuthorizeMeaning(p, y);
    EmptyNormals(x.participants.value);
    EmptyNormals(y.participants.value);
    assert IsGroupChat(x) <==> IsGroupChat(y);
    assert forall id :: IsDirectChat(x, id) <==> IsDirectChat(y, id);
  }

  lemma AgreementIsRecognised(m: RawMessage, c: RawChat, p: Policy)
    requires Agree(m, c)
    ensures SameConversation(m, c, p) == Some(Authorize(p, MessageConversation(m)))
    ensures Authorize(p, MessageConversation(m)).allowed == Authorize(p, ChatConversation(c)).allowed
  {
    var x, y := MessageConversation(m), ChatConversation(c);
    AuthorizeMeaning(p, x);
    AuthorizeMeaning(p, y);
    var a, b := Authorize(p, x), Authorize(p, y);
    JoinedMembersAgreeIff(x.participants.value, a.participants, y.participants.value, b.participants);
    AgreementDecidesAlike(m, c, p);
  }

  lemma RecognitionIsAgreement(m: RawMessage, c: RawChat, p: Policy)
    requires SameConversation(m, c, p).Some?
    ensures Agree(m, c)
  {
    var x, y := MessageConversation(m), ChatConversation(c);
    AuthorizeMeaning(p, x);
    AuthorizeMeaning(p, y);
    var a, b := Authorize(p, x), Authorize(p, y);
    JoinedMembersAgreeIff(x.participants.value, a.participants, y.participants.value, b.participants);
  }

  /** The conversation check succeeds exactly for agreeing metadata, whatever the policy. */
  lemma SameConversationIff(m: RawMessage, c: RawChat, p: Policy)
    ensures SameConversation(m, c, p).Some? <==> Agree(m, c)
    ensures Agree(m, c) ==> SameConversation(m, c, p) == Some(Authorize(p, MessageConversation(m)))
    ensures Agree(m, c) ==> SameConversation(m, c, p).value.allowed == Authorize(p, ChatConversation(c)).allowed
  {
    if SameConversation(m, c, p).Some? {
      RecognitionIsAgreement(m, c, p);
    }
    if Agree(m, c) {
      AgreementIsRecognised(m, c, p);
    }
  }

  // ------------------------------------------------------------- one message

  /** What becomes of one row of an answer: it spoils the answer, it is left out, or it is shown. */
  datatype Exposure<T> = Refuse | Withhold | Show(value: T)

  /** The fields that every message must have. */
  ghost predicate WellFormedFields(m: RawMessage) {
    0 < m.id && 0 < m.chatId && 0 < ByteLen(m.guid) <= 512 && ByteLen(m.text) <= 65_536 && m.isFromMe.Some?
  }

  function Exposed(cfg: Config, generation: string, m: RawMessage, sender: string): Message
    requires m.isFromMe.Some?
  {
    Message(cfg.account, generation, m.id, m.chatId, m.chatGuid, m.guid, sender, m.isFromMe.value, m.text, m.createdAt)
  }

  /** What is left to decide once message and chat are known to describe one conversation. */
  function ExposeDecided(cfg: Config, generation: string, m: RawMessage, d: Decision): Exposure<Message>
    requires m.isFromMe.Some?
  {
    if !d.allowed then Withhold
    else if !Parses(m.createdAt) then Refuse
    else if cfg.suppress(m.text) then Withhold
    else if m.isFromMe.value then Show(Exposed(cfg, generation, m, ""))
    else
      match Normalize(m.sender)
      case None => Refuse
      case Some(sender) =>
        if sender in d.participants then Show(Exposed(cfg, generation, m, sender)) else Refuse
  }

  function Expose(cfg: Config, generation: string, m: RawMessage, c: RawChat, p: Policy): Exposure<Message> {
    if m.id <= 0 || m.chatId <= 0 || m.guid == "" || ByteLen(m.guid) > 512 || m.isFromMe.None?
       || ByteLen(m.text) > 65536 then Refuse
    else if !MatchesAccount(cfg, c) then Withhold
    else
      match SameConversation(m, c, p)
      case None => Refuse
      case Some(d) => ExposeDecided(cfg, generation, m, d)
  }

  method ExposeMessage(cfg: Config, generation: string, m: RawMessage, c: RawChat, p: Policy)
    returns (r: Exposure<Message>)
    ensures r == Expose(cfg, generation, m, c, p)
    ensures forall shown :: r == Show(shown) <==> Admissible(cfg, generation, m, c, p, shown)
    ensures r == Refuse <==> Contradictory(cfg, m, c, p)
  {
    forall shown
      ensures Expose(cfg, generation, m, c, p) == Show(shown) <==> Admissible(cfg, generation, m, c, p, shown)
    {
      ShownIffAdmissible(cfg, generation, m, c, p, shown);
    }
    RefusedIffContradictory(cfg, generation, m, c, p);
    if m.id <= 0 || m.chatId <= 0 || m.guid == "" || ByteLen(m.guid) > 512 || m.isFromMe.None?
       || ByteLen(m.text) > 65536 {
      return Refuse;
    }
    if c.account.None? || c.account.value != cfg.backendAccount {
      return Withhold;
    }
    var decision := CompareConversations(m, c, p);
    if decision.None? {
      return Refuse;
    }
    r := ExposeInConversation(cfg, generation, m, decision.value);
  }

  /** The comparison of message and chat in source order, member lists sorted and joined. */
  method CompareConversations(m: RawMessage, c: RawChat, p: Policy) returns (r: Option<Decision>)
    ensures r == SameConversation(m, c, p)
    ensures r.Some? <==> Agree(m, c)
  {
    SameConversationIff(m, c, p);
    if m.chatId != c.id || m.chatGuid != c.guid || m.chatIdentifier != c.identifier
       || m.isGroup.None? || c.isGroup.None? || m.isGroup.value != c.isGroup.value {
      return None;
    }
    var messageDecision := AuthorizeConversation(p, MessageConversation(m));
    var chatDecision := AuthorizeConversation(p, ChatConversation(c));
    if !messageDecision.valid || !chatDecision.valid || messageDecision.isGroup != chatDecision.isGroup
       || messageDecision.allowed != chatDecision.allowed {
      return None;
    }
    var a, b := Sort(messageDecision.participants), Sort(chatDecision.participants);
    if Join(a, '\0') != Join(b, '\0') {
      return None;
    }
    return Some(messageDecision);
  }

  method ExposeInConversation(cfg: Config, generation: string, m: RawMessage, d: Decision)
    returns (r: Exposure<Message>)
    requires m.isFromMe.Some?
    ensures r == ExposeDecided(cfg, generation, m, d)
  {
    if !d.allowed {
      return Withhold;
    }
    if !Parses(m.createdAt) {
      return Refuse;
    }
    if cfg.suppress(m.text) {
      return Withhold;
    }
    var sender := "";
    if !m.isFromMe.value {
      var normalized := NormalizeIdentity(m.sender);
      if normalized.None? {
        return Refuse;
      }
      var found := false;
      var i := 0;
      while i < |d.participants| && !found
        invariant 0 <= i <= |d.participants|
        invariant found <==> normalized.value in d.participants[..i]
      {
        if d.participants[i] == normalized.value {
          found := true;
        }
        i := i + 1;
      }
      assert !found ==> d.participants[..i] == d.participants;
      if !found {
        return Refuse;
      }
      sender := normalized.value;
    }
    return Show(Exposed(cfg, generation, m, sender));
  }

  /** What is shown of a message is what was read of it, with the names of the configuration. */
  ghost predicate SameFields(cfg: Config, generation: string, m: RawMessage, c: RawChat, shown: Message) {
    && shown.account == cfg.account && shown.generation == generation
    && shown.rowId == m.id && shown.guid == m.guid && shown.chatId == c.id && shown.chatGuid == c.guid
    && Some(shown.fromMe) == m.isFromMe && shown.text == m.text && shown.createdAt == m.createdAt
  }

  lemma SameFieldsIff(cfg: Config, generation: string, m: RawMessage, c: RawChat, shown: Message)
    requires m.isFromMe.Some? && m.chatId == c.id && m.chatGuid == c.guid
    ensures shown == Exposed(cfg, generation, m, shown.sender) <==> SameFields(cfg, generation, m, c, shown)
  {
  }

  /** Everything the owner is promised about a message that is shown. */
  ghost predicate Admissible(cfg: Config, generation: string, m: RawMessage, c: RawChat, p: Policy, shown: Message) {
    && WellFormedFields(m)
    && c.account == Some(cfg.backendAccount)
    && Agree(m, c)
    && Authorize(p, ChatConversation(c)).allowed
    && Parses(m.createdAt)
    && !cfg.suppress(m.text)
    && SameFields(cfg, generation, m, c, shown)
    && (if m.isFromMe.value then shown.sender == ""
        else Normalize(m.sender) == Some(shown.sender) && shown.sender in Normals(c.participants.value))
  }

  /** A message is shown, and shown in this form, exactly when it is admissible. */
  lemma ShownIffAdmissible(cfg: Config, generation: string, m: RawMessage, c: RawChat, p: Policy, shown: Message)
    ensures Expose(cfg, generation, m, c, p) == Show(shown) <==> Admissible(cfg, generation, m, c, p, shown)
  {
    SameConversationIff(m, c, p);
    if Agree(m, c) && m.isFromMe.Some? {
      var d := SameConversation(m, c, p).value;
      AuthorizeMeaning(p, MessageConversation(m));
      assert forall v :: v in d.participants <==> v in Elements(d.participants);
      SameFieldsIff(cfg, generation, m, c, shown);
      DecidedIff(cfg, generation, m, d, shown);
    }
  }

  lemma DecidedIff(cfg: Config, generation: string, m: RawMessage, d: Decision, shown: Message)
    requires m.isFromMe.Some?
    ensures ExposeDecided(cfg, generation, m, d) == Show(shown) <==>
              && d.allowed && Parses(m.createdAt) && !cfg.suppress(m.text)
              && shown == Exposed(cfg, generation, m, shown.sender)
              && (if m.isFromMe.value then shown.sender == ""
                  else Normalize(m.sender) == Some(shown.sender) && shown.sender in d.participants)
  {
  }

  /** The metadata contradict each other or the conversation, on a message that could otherwise be shown. */
  ghost predicate Contradictory(cfg: Config, m: RawMessage, c: RawChat, p: Policy) {
    || !WellFormedFields(m)
    || (c.account == Some(cfg.backendAccount)
        && (!Agree(m, c)
            || (Authorize(p, ChatConversation(c)).allowed
                && (!Parses(m.createdAt) || (!cfg.suppress(m.text) && !m.isFromMe.value && !SenderIsMember(m, c))))))
  }

  ghost predicate SenderIsMember(m: RawMessage, c: RawChat) {
    Normalize(m.sender).Some? && c.participants.Some? && Normalize(m.sender).value in Normals(c.participants.value)
  }

  /** A message spoils its answer exactly when its metadata are contradictory; any other is shown or left out. */
  lemma RefusedIffContradictory(cfg: Config, generation: string, m: RawMessage, c: RawChat, p: Policy)
    ensures Expose(cfg, generation, m, c, p) == Refuse <==> Contradictory(cfg, m, c, p)
  {
    SameConversationIff(m, c, p);
    if Agree(m, c) {
      var d := SameConversation(m, c, p).value;
      AuthorizeMeaning(p, MessageConversation(m));
      assert forall v :: v in d.participants <==> v in Elements(d.participants);
    }
  }

  function NormalizeLimit(requested: int, default: int, maximum: int): Option<int> {
    if requested == 0 then Some(if default < maximum then default else maximum)
    else if requested < 1 || requested > maximum then None
    else Some(requested)
  }

  /** A limit that is not given is the default, and never above the maximum; one that is given is taken as it is. */
  ghost predicate IsLimit(requested: int, default: int, maximum: int, limit: int) {
    if requested == 0 then limit <= default && limit <= maximum && limit in {default, maximum}
    else limit == requested && 1 <= requested <= maximum
  }

  lemma LimitIff(requested: int, default: int, maximum: int, limit: int)
    ensures NormalizeLimit(requested, default, maximum) == Some(limit) <==> IsLimit(requested, default, maximum, limit)
  {
  }

  // --------------------------------------------------------------- collection

  datatype Params = Params(cursor: Option<Token>, after: int, generation: string, limit: int,
                           notBefore: Option<TimeText>)

  /** The backend call of a collection request, and the cursor it starts from. */
  datatype Call = Call(cursor: Cursor, through: int, limit: int, notBefore: Option<TimeText>)

  datatype CollectResult = CollectResult(messages: seq<Message>, cursor: Token, more: bool, rangeComplete: bool)

  /** A backend: any function from a position, boundary, limit and horizon to a page or a failure. */
  type Backend = (int, int, int, Option<TimeText>) -> Result<CollectionPage, BackendError>

  function BackendFailure(e: BackendError): Failure {
    match e
    case Unsupported => CollectionUnsupported
    case Failed => BackendUnavailable
  }

  function StartCursor(cfg: Config, generation: string, p: Params): Result<Cursor, Failure> {
    match p.cursor
    case Some(token) =>
      if p.after != 0 || p.generation != "" || p.notBefore.Some? then Err(InvalidParams)
      else (match Decode(cfg.key, cfg.instance, token) case None => Err(InvalidParams) case Some(c) => Ok(c))
    case None =>
      if p.after < 0 || p.generation == "" then Err(InvalidParams)
      else if p.notBefore.Some? && (p.after != 0 || !Parses(p.notBefore.value)) then Err(InvalidParams)
      else Ok(Cursor(1, cfg.account, p.generation, p.after, 0, false,
                     if p.notBefore.Some? then Some(InUtc(p.notBefore.value)) else None))
  }

  function Plan(cfg: Config, generation: string, p: Params): Result<Call, Failure> {
    match NormalizeLimit(p.limit, 50, cfg.maxResults)
    case None => Err(InvalidParams)
    case Some(limit) =>
      match StartCursor(cfg, generation, p)
      case Err(e) => Err(e)
      case Ok(c) =>
        if c.account != cfg.account || c.generation != generation then Err(StaleCursor)
        else Ok(Call(c, if c.complete then 0 else c.through,
                     if limit < cfg.maxCollectionScan then limit else cfg.maxCollectionScan,
                     if c.complete then None else c.notBefore))
  }

  /** The cursor that a request starts from: the one it carries, alone; or a first position, or a date at row zero. */
  ghost predicate Starts(cfg: Config, generation: string, p: Params, c: Cursor) {
    match p.cursor
    case Some(token) =>
      p.after == 0 && p.generation == "" && p.notBefore.None? && Decode(cfg.key, cfg.instance, token) == Some(c)
    case None =>
      && 0 <= p.after && p.generation != ""
      && c.version == 1 && c.account == cfg.account && c.generation == p.generation
      && c.row == p.after && c.through == 0 && !c.complete
      && match p.notBefore
         case None => c.notBefore.None?
         case Some(t) => p.after == 0 && Parses(t) && c.notBefore == Some(Stamp(t.instant, 0))
  }

  /** When a request is planned, and what call it makes of its cursor. */
  lemma PlanIff(cfg: Config, generation: string, p: Params, call: Call)
    ensures Plan(cfg, generation, p) == Ok(call) <==>
              && Starts(cfg, generation, p, call.cursor)
              && call.cursor.account == cfg.account && call.cursor.generation == generation
              && (if call.cursor.complete then call.through == 0 && call.notBefore.None?
                  else call.through == call.cursor.through && call.notBefore == call.cursor.notBefore)
              && exists limit ::
                   && IsLimit(p.limit, 50, cfg.maxResults, limit)
                   && call.limit <= limit && call.limit <= cfg.maxCollectionScan
                   && (call.limit == limit || call.limit == cfg.maxCollectionScan)
    ensures Plan(cfg, generation, p) == Err(StaleCursor) <==>
              && (exists limit :: IsLimit(p.limit, 50, cfg.maxResults, limit))
              && exists c :: Starts(cfg, generation, p, c) && (c.account != cfg.account || c.generation != generation)
    ensures Plan(cfg, generation, p).Err? ==> Plan(cfg, generation, p).error in {InvalidParams, StaleCursor}
  {
    forall limit ensures IsLimit(p.limit, 50, cfg.maxResults, limit) <==>
        NormalizeLimit(p.limit, 50, cfg.maxResults) == Some(limit) {
      LimitIff(p.limit, 50, cfg.maxResults, limit);
    }
    forall c ensures Starts(cfg, generation, p, c) <==> StartCursor(cfg, generation, p) == Ok(c) {
      StartsIff(cfg, generation, p, c);
    }
  }

  lemma StartsIff(cfg: Config, generation: string, p: Params, c: Cursor)
    ensures Starts(cfg, generation, p, c) <==> StartCursor(cfg, generation, p) == Ok(c)
  {
  }

  function AdmitRow(cfg: Config, generation: string, p: Policy, row: CollectionRow): seq<Message> {
    if row.message.None? || row.chat.None? || !ValidChat(row.chat.value) then []
    else
      match Expose(cfg, generation, row.message.value, row.chat.value, p)
      case Show(m) => [m]
      case _ => []
  }

  function Admitter(cfg: Config, generation: string, p: Policy): CollectionRow -> seq<Message> {
    row => AdmitRow(cfg, generation, p, row)
  }

  /** The messages of a page that may be shown; rows that may not keep nothing but their position. */
  function Admit(cfg: Config, generation: string, p: Policy, rows: seq<CollectionRow>): seq<Message> {
    Gather(rows, Admitter(cfg, generation, p))
  }

  function NextCursor(c: Cursor, page: CollectionPage): Cursor {
    c.(row := page.scanned, through := page.through, complete := page.complete,
       notBefore := if page.complete then None else c.notBefore)
  }

  function CollectResponse(cfg: Config, generation: string, p: Params, first: Option<Policy>, backend: Backend,
                           second: Option<Policy>, nonce: nat): Result<CollectResult, Failure> {
    match Plan(cfg, generation, p)
    case Err(e) => Err(e)
    case Ok(call) =>
      if first.None? then Err(PolicyUnavailable)
      else
        match backend(call.cursor.row, call.through, call.limit, call.notBefore)
        case Err(e) => Err(BackendFailure(e))
        case Ok(page) =>
          if !ValidPage(page, call.cursor.row, call.through, call.limit) then Err(BackendInvalid)
          else if second.None? then Err(PolicyUnavailable)
          else Ok(CollectResult(Admit(cfg, generation, second.value, page.rows),
                                Encode(cfg.key, cfg.instance, nonce, NextCursor(call.cursor, page)),
                                !page.complete, page.complete))
  }

  /** A collection request in the source's order, its cursor fields reassigned along the way. */
  method Collect(cfg: Config, generation: string, p: Params, first: Option<Policy>, backend: Backend,
                 second: Option<Policy>, nonce: nat)
    returns (r: Result<CollectResult, Failure>)
    ensures r == CollectResponse(cfg, generation, p, first, backend, second, nonce)
  {
    var limit := NormalizeLimit(p.limit, 50, cfg.maxResults);
    if limit.None? {
      return Err(InvalidParams);
    }
    var c;
    if p.cursor.Some? {
      if p.after != 0 || p.generation != "" || p.notBefore.Some? {
        return Err(InvalidParams);
      }
      var unsealed := Decode(cfg.key, cfg.instance, p.cursor.value);
      if unsealed.None? {
        return Err(InvalidParams);
      }
      c := unsealed.value;
    } else {
      if p.after < 0 || p.generation == "" {
        return Err(InvalidParams);
      }
      c := Cursor(1, cfg.account, p.generation, p.after, 0, false, None);
    }
    var notBefore := c.notBefore;
    if p.notBefore.Some? {
      if p.cursor.Some? || p.after != 0 || !Parses(p.notBefore.value) {
        return Err(InvalidParams);
      }
      notBefore := Some(InUtc(p.notBefore.value));
      c := c.(notBefore := notBefore);
    }
    if c.account != cfg.account || c.generation != generation {
      return Err(StaleCursor);
    }
    if first.None? {
      return Err(PolicyUnavailable);
    }
    var through := c.through;
    if c.complete {
      through := 0;
      notBefore := None;
    }
    var scanLimit := if limit.value < cfg.maxCollectionScan then limit.value else cfg.maxCollectionScan;
    var answer := backend(c.row, through, scanLimit, notBefore);
    if answer.Err? {
      return Err(BackendFailure(answer.error));
    }
    var page := answer.value;
    var valid := ValidateCollectionPage(page, c.row, through, scanLimit);
    if !valid {
      return Err(BackendInvalid);
    }
    if second.None? {
      return Err(PolicyUnavailable);
    }
    var messages := AdmitRows(cfg, generation, second.value, page.rows);
    c := c.(row := page.scanned, through := page.through, complete := page.complete);
    if page.complete {
      c := c.(notBefore := None);
    }
    return Ok(CollectResult(messages, Encode(cfg.key, cfg.instance, nonce, c), !page.complete, page.complete));
  }

  /** The row loop of a collection request; a row that may not be shown is dropped, not an error. */
  method AdmitRows(cfg: Config, generation: string, p: Policy, rows: seq<CollectionRow>)
    returns (messages: seq<Message>)
    requires forall i | 0 <= i < |rows| :: RowAgrees(rows[i])
    ensures messages == Admit(cfg, generation, p, rows)
  {
    messages := [];
    for i := 0 to |rows|
      invariant messages == Admit(cfg, generation, p, rows[..i])
    {
      assert rows[..i + 1][..i] == rows[..i];
      var row := rows[i];
      if row.message.Some? && ValidChat(row.chat.value) {
        var exposure := ExposeMessage(cfg, generation, row.message.value, row.chat.value, p);
        if exposure.Show? {
          messages := messages + [exposure.value];
        }
      }
    }
    assert rows[..|rows|] == rows;
  }

  // ------------------------------------------------------ collection properties

  /** Admission distributes over pages: how rows are cut into pages cannot matter. */
  lemma AdmitConcat(cfg: Config, generation: string, p: Policy, a: seq<CollectionRow>, b: seq<CollectionRow>)
    ensures Admit(cfg, generation, p, a + b) == Admit(cfg, generation, p, a) + Admit(cfg, generation, p, b)
  {
    GatherConcat(a, b, Admitter(cfg, generation, p));
  }

  /** Each collected message is admissible under the policy loaded after the read, and keeps its row's position. */
  lemma CollectedIsAdmissible(cfg: Config, generation: string, p: Policy, rows: seq<CollectionRow>, i: nat)
    returns (k: nat)
    requires forall r | r in rows :: RowAgrees(r)
    requires i < |Admit(cfg, generation, p, rows)|
    ensures k < |rows| && rows[k].message.Some? && rows[k].chat.Some?
    ensures var m := Admit(cfg, generation, p, rows)[i];
            m.rowId == rows[k].rowId && Admissible(cfg, generation, rows[k].message.value, rows[k].chat.value, p, m)
  {
    k := GatherSource(rows, Admitter(cfg, generation, p), i);
    assert rows[k] in rows;
    ShownIffAdmissible(cfg, generation, rows[k].message.value, rows[k].chat.value, p,
                       Admit(cfg, generation, p, rows)[i]);
  }

  /** No admissible row of a page is dropped. */
  lemma AdmissibleIsCollected(cfg: Config, generation: string, p: Policy, rows: seq<CollectionRow>, k: nat, m: Message)
    requires k < |rows| && rows[k].message.Some? && rows[k].chat.Some? && ValidChat(rows[k].chat.value)
    ensures Admissible(cfg, generation, rows[k].message.value, rows[k].chat.value, p, m) ==>
            m in Admit(cfg, generation, p, rows)
  {
    ShownIffAdmissible(cfg, generation, rows[k].message.value, rows[k].chat.value, p, m);
    GatherMeaning(rows, Admitter(cfg, generation, p), m);
    assert rows[k] in rows;
  }

  /** The cursor of every successful response is well formed; pending and complete ones are told apart by position. */
  lemma EmittedCursorIsWellFormed(cfg: Config, generation: string, p: Params, page: CollectionPage)
    requires ValidConfig(cfg) && generation != "" && Plan(cfg, generation, p).Ok?
    requires var call := Plan(cfg, generation, p).value;
             GoodCall(call.cursor.row, call.through, call.limit, call.notBefore)
             && ValidPage(page, call.cursor.row, call.through, call.limit)
    ensures var c := NextCursor(Plan(cfg, generation, p).value.cursor, page).(version := 2);
            && WellFormed(c) && c.account == cfg.account && c.generation == generation
            && (if c.complete then c.row == c.through && c.notBefore.None? else 0 < c.row < c.through)
  {
    assert cfg.account in [cfg.instance, cfg.account, cfg.backendAccount];
    assert Trim("") == "";
  }

  /**
   The calls that requests make meet the adapter's argument rules exactly when the timestamp they
   carry still parses once written in UTC, and a cursor that carries one is a sealed cursor with a
   positive row. Emitted cursors are (EmittedCursorIsWellFormed); a legacy cursor with a timestamp
   is not. BadCallsAlwaysFail says what becomes of the others.
   */
  lemma PlannedCallIsGoodIff(cfg: Config, generation: string, p: Params)
    requires ValidConfig(cfg) && Plan(cfg, generation, p).Ok?
    ensures var call := Plan(cfg, generation, p).value;
            GoodCall(call.cursor.row, call.through, call.limit, call.notBefore) <==>
            match p.cursor
            case None => p.notBefore.None? || Parses(InUtc(p.notBefore.value))
            case Some(token) => token.body.notBefore.None? || (token.Sealed? && token.body.row > 0)
  {
  }

  /** The adapter in front of the real producer, on one database, clock and machine. */
  function RealBackend(db: Database, now: int, cfg: Config, host: Host): Backend {
    (after, through, limit, notBefore) =>
      ProcessCollect(db, now, cfg.backendAccount, BoundedCollection(cfg), host, after, through, limit, notBefore)
  }

  /** A request whose call does not meet the adapter's rules fails, whatever the table, the clock and the policies. */
  lemma BadCallsAlwaysFail(cfg: Config, generation: string, p: Params, db: Database, now: int, host: Host,
                           first: Option<Policy>, second: Option<Policy>, nonce: nat)
    requires Plan(cfg, generation, p).Ok?
    requires var call := Plan(cfg, generation, p).value;
             !GoodCall(call.cursor.row, call.through, call.limit, call.notBefore)
    ensures CollectResponse(cfg, generation, p, first, RealBackend(db, now, cfg, host), second, nonce).Err?
  {
    var call := Plan(cfg, generation, p).value;
    var backend := RealBackend(db, now, cfg, host);
    assert backend(call.cursor.row, call.through, call.limit, call.notBefore).Err?;
  }

  /** So does every request when the configured release has no collect command. */
  lemma PlainReleaseNeverCollects(cfg: Config, generation: string, p: Params, db: Database, now: int, host: Host,
                                  first: Option<Policy>, second: Option<Policy>, nonce: nat)
    requires cfg.version == PLAIN_VERSION
    ensures var r := CollectResponse(cfg, generation, p, first, RealBackend(db, now, cfg, host), second, nonce);
            r.Err? && (Plan(cfg, generation, p).Ok? && first.Some? ==> r.error == CollectionUnsupported)
  {
    if Plan(cfg, generation, p).Ok? {
      var call := Plan(cfg, generation, p).value;
      var backend := RealBackend(db, now, cfg, host);
      assert backend(call.cursor.row, call.through, call.limit, call.notBefore) == Err(Unsupported);
    }
  }

  /** A legacy cursor with a timestamp is accepted by the broker, and every request made with it fails. */
  lemma DatedLegacyCursorNeverSucceeds(cfg: Config, generation: string, p: Params, c: Cursor, length: nat,
                                       db: Database, now: int, host: Host,
                                       first: Option<Policy>, second: Option<Policy>, nonce: nat)
    requires ValidConfig(cfg) && p.cursor == Some(Legacy(c, length)) && c.notBefore.Some?
    ensures CollectResponse(cfg, generation, p, first, RealBackend(db, now, cfg, host), second, nonce).Err?
  {
    if Plan(cfg, generation, p).Ok? {
      PlannedCallIsGoodIff(cfg, generation, p);
      BadCallsAlwaysFail(cfg, generation, p, db, now, host, first, second, nonce);
    }
  }

  /** The cursor of every successful response decodes to itself exactly when its text is within the bound. */
  lemma EmittedCursorDecodesIff(cfg: Config, generation: string, p: Params, page: CollectionPage, nonce: nat)
    requires ValidConfig(cfg) && generation != "" && Plan(cfg, generation, p).Ok?
    requires var call := Plan(cfg, generation, p).value;
             GoodCall(call.cursor.row, call.through, call.limit, call.notBefore)
             && ValidPage(page, call.cursor.row, call.through, call.limit)
    ensures var c := NextCursor(Plan(cfg, generation, p).value.cursor, page);
            Decode(cfg.key, cfg.instance, Encode(cfg.key, cfg.instance, nonce, c)) == Some(c.(version := 2)) <==>
            SealedLen(c.(version := 2)) <= MAX_TOKEN
  {
    EmittedCursorIsWellFormed(cfg, generation, p, page);
    DecodeOfEncode(cfg.key, cfg.instance, nonce, NextCursor(Plan(cfg, generation, p).value.cursor, page));
  }

  /** A cursor a client holds after a success: decoding it gives back the position the page ended at. */
  lemma NextCallContinues(cfg: Config, generation: string, p: Params, page: CollectionPage, nonce: nat, next: Params)
    requires ValidConfig(cfg) && generation != "" && Plan(cfg, generation, p).Ok?
    requires var call := Plan(cfg, generation, p).value;
             GoodCall(call.cursor.row, call.through, call.limit, call.notBefore)
             && ValidPage(page, call.cursor.row, call.through, call.limit)
    requires var c := NextCursor(Plan(cfg, generation, p).value.cursor, page).(version := 2);
             && SealedLen(c) <= MAX_TOKEN
             && next == Params(Some(Encode(cfg.key, cfg.instance, nonce, c)), 0, "", next.limit, None)
    requires NormalizeLimit(next.limit, 50, cfg.maxResults).Some?
    ensures Plan(cfg, generation, next).Ok?
    ensures var before, call := Plan(cfg, generation, p).value, Plan(cfg, generation, next).value;
            && call.cursor.row == page.scanned
            && call.through == (if page.complete then 0 else page.through)
            && call.notBefore == (if page.complete then None else before.notBefore)
            && GoodCall(call.cursor.row, call.through, call.limit, call.notBefore)
  {
    EmittedCursorIsWellFormed(cfg, generation, p, page);
  }

  /** A configuration that passes validation, and yet no client can ever use a cursor it emits. */
  lemma PaddedAccountBreaksCursors(cfg: Config, nonce: nat, c: Cursor)
    requires c.account == cfg.account && cfg.account == Padded(2048)
    ensures Trim(cfg.account) == "a" && ByteLen(Trim(cfg.account)) <= 128
    ensures Decode(cfg.key, cfg.instance, Encode(cfg.key, cfg.instance, nonce, c)) == None
  {
    PaddedFacts(2048);
    assert JsonLen(c.(version := 2)) >= 2049;
  }
}
