/**
 The broker's listing, history and lookup requests (internal/broker/server.go): bounded scans of what
 the backend answers, under the policy loaded after the read.
 */
module Requests {
  import opened Lists
  import opened Wrappers
  import opened Text
  import opened Identity
  import opened Policy
  import opened Collection
  import opened Broker

  // ------------------------------------------------------------ filtered rows

  datatype Filtered<T> = Filtered(shown: seq<T>, scanComplete: bool)

  function Exposures<R, T>(expose: R -> Exposure<T>, rows: seq<R>): seq<Exposure<T>> {
    seq(|rows|, i requires 0 <= i < |rows| => expose(rows[i]))
  }

  function ShownOf<T>(xs: seq<Exposure<T>>): (s: seq<T>)
    ensures |s| <= |xs|
  {
    if xs == [] then []
    else ShownOf(xs[..|xs| - 1]) + if xs[|xs| - 1].Show? then [xs[|xs| - 1].value] else []
  }

  predicate NoneRefused<T(==)>(xs: seq<Exposure<T>>) { forall x | x in xs :: !x.Refuse? }

  function FirstN<T>(s: seq<T>, n: nat): seq<T> { if |s| > n then s[..n] else s }

  /** The first rows that may be shown; complete when the scan was not cut short and nothing was held back for room. */
  function FilterOf<T>(xs: seq<Exposure<T>>, scan: int, limit: nat): Filtered<T> {
    Filtered(FirstN(ShownOf(xs), limit), |xs| < scan && |ShownOf(xs)| <= limit)
  }

  /** The row loop of a listing; a row that may not even be judged fails the whole answer. */
  method Filter<R, T(==)>(expose: R -> Exposure<T>, rows: seq<R>, scan: int, limit: nat)
    returns (r: Option<Filtered<T>>)
    ensures var xs := Exposures(expose, rows);
            r == if NoneRefused(xs) then Some(FilterOf(xs, scan, limit)) else None
  {
    ghost var xs := Exposures(expose, rows);
    var result: seq<T> := [];
    var complete := |rows| < scan;
    for i := 0 to |rows|
      invariant result == FirstN(ShownOf(xs[..i]), limit)
      invariant complete <==> |rows| < scan && |ShownOf(xs[..i])| <= limit
      invariant NoneRefused(xs[..i])
    {
      var exposure := expose(rows[i]);
      FilterStep(xs, i, limit, exposure);
      if exposure.Refuse? {
        return None;
      }
      if exposure.Show? {
        if |result| == limit {
          complete := false;
        } else {
          result := result + [exposure.value];
        }
      }
    }
    assert xs[..|rows|] == xs;
    return Some(Filtered(result, complete));
  }

  lemma FilterStep<T>(xs: seq<Exposure<T>>, i: nat, limit: nat, x: Exposure<T>)
    requires i < |xs| && x == xs[i]
    ensures x.Refuse? ==> !NoneRefused(xs)
    ensures !x.Refuse? ==> (NoneRefused(xs[..i + 1]) <==> NoneRefused(xs[..i]))
    ensures var before, shown := FirstN(ShownOf(xs[..i]), limit), ShownOf(xs[..i + 1]);
            && (!x.Show? ==> shown == ShownOf(xs[..i]))
            && (x.Show? ==> |shown| == |ShownOf(xs[..i])| + 1)
            && (x.Show? ==> FirstN(shown, limit) == if |before| == limit then before else before + [x.value])
  {
    assert xs[..i + 1] == xs[..i] + [xs[i]];
    assert xs[..i + 1][..i] == xs[..i];
  }

  /** The positions of the rows that may be shown. */
  ghost function ShowsAt<T>(xs: seq<Exposure<T>>): seq<nat> {
    if xs == [] then [] else ShowsAt(xs[..|xs| - 1]) + if xs[|xs| - 1].Show? then [|xs| - 1] else []
  }

  lemma {:induction false} ShowsAtMeaning<T>(xs: seq<Exposure<T>>)
    ensures var ks := ShowsAt(xs);
            && |ks| == |ShownOf(xs)| && (forall i, j | 0 <= i < j < |ks| :: ks[i] < ks[j])
            && (forall i | 0 <= i < |ks| :: ks[i] < |xs| && xs[ks[i]] == Show(ShownOf(xs)[i]))
            && (forall k | 0 <= k < |xs| && xs[k].Show? :: k in ks)
  {
    if xs != [] {
      var n := |xs| - 1;
      ShowsAtMeaning(xs[..n]);
      assert xs[n].Show? ==> ShowsAt(xs)[|ShowsAt(xs[..n])|] == n;
    }
  }

  /**
   What a filtered answer is: the rows that may be shown, in order, up to the limit and none left out; and
   complete exactly when the scan was not cut short and every row that may be shown is among them.
   */
  ghost predicate Picks<T>(xs: seq<Exposure<T>>, scan: int, limit: nat, f: Filtered<T>, ks: seq<nat>) {
    && |ks| == |f.shown| <= limit && (forall i, j | 0 <= i < j < |ks| :: ks[i] < ks[j])
    && (forall i | 0 <= i < |ks| :: ks[i] < |xs| && xs[ks[i]] == Show(f.shown[i]))
    && (forall k | 0 <= k < |xs| && xs[k].Show? && k !in ks :: |ks| == limit && forall i | 0 <= i < |ks| :: ks[i] < k)
    && (f.scanComplete <==> |xs| < scan && forall k | 0 <= k < |xs| && xs[k].Show? :: k in ks)
  }

  lemma FilterIsExact<T>(xs: seq<Exposure<T>>, scan: int, limit: nat)
    ensures Picks(xs, scan, limit, FilterOf(xs, scan, limit), FirstN(ShowsAt(xs), limit))
  {
    ShowsAtMeaning(xs);
    var all, ks := ShowsAt(xs), FirstN(ShowsAt(xs), limit);
    assert forall i | 0 <= i < |ks| :: ks[i] == all[i];
    forall k | 0 <= k < |xs| && xs[k].Show? && k !in ks ensures |ks| == limit && forall i | 0 <= i < |ks| :: ks[i] < k {
      var j :| 0 <= j < |all| && all[j] == k;
    }
    if |all| > limit {
      var k := all[limit];
      forall i | 0 <= i < |ks| ensures ks[i] != k {
        assert ks[i] == all[i];
      }
      assert xs[k].Show? && k !in ks;
    }
  }

  // --------------------------------------------------------------------- chats

  datatype Chat = Chat(
    account: string, generation: string, id: int, guid: string, service: string, isGroup: bool,
    participants: seq<string>)

  function ExposeChat(cfg: Config, generation: string, p: Policy, c: RawChat): Exposure<Chat> {
    if !ValidChat(c) then Refuse
    else if !MatchesAccount(cfg, c) then Withhold
    else
      var d := Authorize(p, ChatConversation(c));
      if d.allowed then Show(Chat(cfg.account, generation, c.id, c.guid, c.service, d.isGroup, d.participants))
      else Withhold
  }

  function ChatExposer(cfg: Config, generation: string, p: Policy): RawChat -> Exposure<Chat> {
    c => ExposeChat(cfg, generation, p, c)
  }

  /** A listing: the chats are the backend's answer to its scan bound, the policy is loaded after it. */
  function ListResponse(cfg: Config, generation: string, requested: int, chats: int -> Option<seq<RawChat>>,
                        policy: Option<Policy>)
    : Result<Filtered<Chat>, Failure>
    requires ValidConfig(cfg)
  {
    match NormalizeLimit(requested, 20, cfg.maxResults)
    case None => Err(InvalidParams)
    case Some(limit) =>
      match chats(cfg.maxChatScan)
      case None => Err(BackendUnavailable)
      case Some(rows) =>
        if policy.None? then Err(PolicyUnavailable)
        else
          var xs := Exposures(ChatExposer(cfg, generation, policy.value), rows);
          if NoneRefused(xs) then Ok(FilterOf(xs, cfg.maxChatScan, limit)) else Err(BackendInvalid)
  }

  /** The owner lets this account read the chat. */
  ghost predicate MayList(cfg: Config, p: Policy, c: RawChat) {
    c.account == Some(cfg.backendAccount) && Permits(p, ChatConversation(c))
  }

  /** Such a chat, described by the normalized members of the conversation. */
  ghost predicate Listable(cfg: Config, generation: string, p: Policy, c: RawChat, shown: Chat) {
    && MayList(cfg, p, c)
    && shown.account == cfg.account && shown.generation == generation
    && shown.id == c.id && shown.guid == c.guid && shown.service == c.service
    && c.isGroup == Some(shown.isGroup)
    && Distinct(shown.participants) && Elements(shown.participants) == Normals(c.participants.value)
    && forall i, j | 0 <= i < j < |shown.participants| ::
         Precedes(c.participants.value, shown.participants[i], shown.participants[j])
  }

  /**
   The chats that may be listed, in order, up to the limit and none left out; complete exactly when the
   scan was not cut short and all of them are there.
   */
  ghost predicate ListingShows(cfg: Config, generation: string, p: Policy, rows: seq<RawChat>, limit: nat,
                               f: Filtered<Chat>, ks: seq<nat>) {
    && |ks| == |f.shown| <= limit && (forall i, j | 0 <= i < j < |ks| :: ks[i] < ks[j])
    && (forall i | 0 <= i < |ks| :: ks[i] < |rows| && Listable(cfg, generation, p, rows[ks[i]], f.shown[i]))
    && (forall k | 0 <= k < |rows| && MayList(cfg, p, rows[k]) && k !in ks ::
          |ks| == limit && forall i | 0 <= i < |ks| :: ks[i] < k)
    && (f.scanComplete <==>
          |rows| < cfg.maxChatScan && forall k | 0 <= k < |rows| && MayList(cfg, p, rows[k]) :: k in ks)
  }

  /** All that a listing needs: an admitted limit, chats, a policy, and no chat beyond its bounds. */
  ghost predicate CanList(cfg: Config, requested: int, chats: int -> Option<seq<RawChat>>, policy: Option<Policy>,
                          limit: int)
  {
    && IsLimit(requested, 20, cfg.maxResults, limit)
    && chats(cfg.maxChatScan).Some? && policy.Some?
    && forall c | c in chats(cfg.maxChatScan).value :: GoodChat(c)
  }

  lemma MembersAreInOrder(p: Policy, c: Conversation)
    requires Authorize(p, c).valid && c.participants.Some?
    ensures var list := Authorize(p, c).participants;
            forall i, j | 0 <= i < j < |list| :: Precedes(c.participants.value, list[i], list[j])
  {
    ParticipantsInOrder(c.participants.value);
  }

  lemma ShownChatIff(cfg: Config, generation: string, p: Policy, c: RawChat)
    ensures ExposeChat(cfg, generation, p, c).Refuse? <==> !GoodChat(c)
    ensures GoodChat(c) ==> (ExposeChat(cfg, generation, p, c).Show? <==> MayList(cfg, p, c))
    ensures ExposeChat(cfg, generation, p, c).Show? ==>
              Listable(cfg, generation, p, c, ExposeChat(cfg, generation, p, c).value)
  {
    ChatIff(c);
    AuthorizeMeaning(p, ChatConversation(c));
    if Authorize(p, ChatConversation(c)).valid {
      MembersAreInOrder(p, ChatConversation(c));
    }
  }

  lemma FilteredAreListable(cfg: Config, generation: string, p: Policy, rows: seq<RawChat>, limit: nat)
    ensures var xs := Exposures(ChatExposer(cfg, generation, p), rows);
            && (NoneRefused(xs) <==> forall c | c in rows :: GoodChat(c))
            && (NoneRefused(xs) ==>
                  exists ks :: ListingShows(cfg, generation, p, rows, limit, FilterOf(xs, cfg.maxChatScan, limit), ks))
  {
    var xs := Exposures(ChatExposer(cfg, generation, p), rows);
    forall k | 0 <= k < |rows|
      ensures xs[k] in xs && rows[k] in rows && (xs[k].Refuse? <==> !GoodChat(rows[k]))
      ensures GoodChat(rows[k]) ==> (xs[k].Show? <==> MayList(cfg, p, rows[k]))
      ensures xs[k].Show? ==> Listable(cfg, generation, p, rows[k], xs[k].value)
    {
      ShownChatIff(cfg, generation, p, rows[k]);
    }
    FilterIsExact(xs, cfg.maxChatScan, limit);
    if NoneRefused(xs) {
      var ks := FirstN(ShowsAt(xs), limit);
      assert ListingShows(cfg, generation, p, rows, limit, FilterOf(xs, cfg.maxChatScan, limit), ks);
    }
  }

  /** When a listing is answered, and with what. */
  lemma ListingIff(cfg: Config, generation: string, requested: int, chats: int -> Option<seq<RawChat>>,
                   policy: Option<Policy>)
    requires ValidConfig(cfg)
    ensures var r := ListResponse(cfg, generation, requested, chats, policy);
            && (r.Ok? <==> exists limit :: CanList(cfg, requested, chats, policy, limit))
            && (r.Ok? ==> exists limit, ks ::
                  && CanList(cfg, requested, chats, policy, limit) && limit >= 0
                  && ListingShows(cfg, generation, policy.value, chats(cfg.maxChatScan).value, limit, r.value, ks))
  {
    forall limit ensures IsLimit(requested, 20, cfg.maxResults, limit) <==>
        NormalizeLimit(requested, 20, cfg.maxResults) == Some(limit) {
      LimitIff(requested, 20, cfg.maxResults, limit);
    }
    var limit := NormalizeLimit(requested, 20, cfg.maxResults);
    if limit.Some? && chats(cfg.maxChatScan).Some? && policy.Some? {
      FilteredAreListable(cfg, generation, policy.value, chats(cfg.maxChatScan).value, limit.value);
      assert CanList(cfg, requested, chats, policy, limit.value) <==>
             forall c | c in chats(cfg.maxChatScan).value :: GoodChat(c);
    }
  }

  method ListChats(cfg: Config, generation: string, requested: int, chats: int -> Option<seq<RawChat>>,
                   policy: Option<Policy>)
    returns (r: Result<Filtered<Chat>, Failure>)
    requires ValidConfig(cfg)
    ensures r == ListResponse(cfg, generation, requested, chats, policy)
    ensures r.Ok? <==> exists limit :: CanList(cfg, requested, chats, policy, limit)
    ensures r.Ok? ==> exists limit, ks ::
              && CanList(cfg, requested, chats, policy, limit) && limit >= 0
              && ListingShows(cfg, generation, policy.value, chats(cfg.maxChatScan).value, limit, r.value, ks)
  {
    ListingIff(cfg, generation, requested, chats, policy);
    var limit := NormalizeLimit(requested, 20, cfg.maxResults);
    if limit.None? {
      return Err(InvalidParams);
    }
    var rows := chats(cfg.maxChatScan);
    if rows.None? {
      return Err(BackendUnavailable);
    }
    if policy.None? {
      return Err(PolicyUnavailable);
    }
    var filtered := Filter(ChatExposer(cfg, generation, policy.value), rows.value, cfg.maxChatScan, limit.value);
    if filtered.None? {
      return Err(BackendInvalid);
    }
    return Ok(filtered.value);
  }

  // ------------------------------------------------------- one conversation

  /**
   The answers one request gets: the policy before the chat is looked up, the chat, the rows for a
   bound, and the policy loaded again after the read.
   */
  datatype Answers = Answers(
    first: Option<Policy>, chat: Option<RawChat>, rows: int -> Option<seq<RawMessage>>, second: Option<Policy>)

  function AuthorizedChat(cfg: Config, chatId: int, p: Policy, answer: Option<RawChat>): Result<RawChat, Failure> {
    if chatId <= 0 then Err(InvalidParams)
    else if answer.None? then Err(BackendUnavailable)
    else if !ValidChat(answer.value) || answer.value.id != chatId then Err(BackendInvalid)
    else if !MatchesAccount(cfg, answer.value) || !Authorize(p, ChatConversation(answer.value)).allowed then
      Err(NotVisible)
    else Ok(answer.value)
  }

  method AuthorizeChat(cfg: Config, chatId: int, p: Policy, answer: Option<RawChat>)
    returns (r: Result<RawChat, Failure>)
    ensures r == AuthorizedChat(cfg, chatId, p, answer)
  {
    if chatId <= 0 {
      return Err(InvalidParams);
    }
    if answer.None? {
      return Err(BackendUnavailable);
    }
    var chat := answer.value;
    if !ValidChat(chat) || chat.id != chatId {
      return Err(BackendInvalid);
    }
    if !MatchesAccount(cfg, chat) {
      return Err(NotVisible);
    }
    var decision := AuthorizeConversation(p, ChatConversation(chat));
    if !decision.allowed {
      return Err(NotVisible);
    }
    return Ok(chat);
  }

  /** The rows of a conversation that both policies allow. */
  function ReadRows(cfg: Config, chatId: int, bound: int, a: Answers): Result<seq<RawMessage>, Failure> {
    if a.first.None? then Err(PolicyUnavailable)
    else
      match AuthorizedChat(cfg, chatId, a.first.value, a.chat)
      case Err(e) => Err(e)
      case Ok(chat) =>
        if a.rows(bound).None? then Err(BackendUnavailable)
        else if a.second.None? then Err(PolicyUnavailable)
        else if !Authorize(a.second.value, ChatConversation(chat)).allowed then Err(NotVisible)
        else Ok(a.rows(bound).value)
  }

  /** The backend's answer is the chat asked for, and within its bounds. */
  ghost predicate IsChat(chatId: int, answer: Option<RawChat>) {
    0 < chatId && answer.Some? && GoodChat(answer.value) && answer.value.id == chatId
  }

  /** All that a reading needs: both policies permit the chat to this account, and the rows came. */
  ghost predicate IsOpen(cfg: Config, chatId: int, bound: int, a: Answers) {
    && a.first.Some? && IsChat(chatId, a.chat) && MayList(cfg, a.first.value, a.chat.value)
    && a.rows(bound).Some? && a.second.Some? && Permits(a.second.value, ChatConversation(a.chat.value))
  }

  /** The chat was found, and is another account's or not permitted, by the policy before or after the read. */
  ghost predicate IsHidden(cfg: Config, chatId: int, bound: int, a: Answers) {
    && a.first.Some? && IsChat(chatId, a.chat)
    && (MayList(cfg, a.first.value, a.chat.value) ==>
          a.rows(bound).Some? && a.second.Some? && !Permits(a.second.value, ChatConversation(a.chat.value)))
  }

  lemma ReadRowsIff(cfg: Config, chatId: int, bound: int, a: Answers)
    ensures var r := ReadRows(cfg, chatId, bound, a);
            && (r.Ok? <==> IsOpen(cfg, chatId, bound, a))
            && (IsOpen(cfg, chatId, bound, a) ==> r == Ok(a.rows(bound).value))
            && (r == Err(NotVisible) <==> IsHidden(cfg, chatId, bound, a))
            && r != Err(NotFound) && r != Err(LookupIncomplete)
  {
    if a.chat.Some? {
      ChatIff(a.chat.value);
      if a.first.Some? {
        AuthorizeMeaning(a.first.value, ChatConversation(a.chat.value));
      }
      if a.second.Some? {
        AuthorizeMeaning(a.second.value, ChatConversation(a.chat.value));
      }
    }
  }

  /** Why a reading fails otherwise. */
  lemma ReadRowsFailsIff(cfg: Config, chatId: int, bound: int, a: Answers)
    ensures var r := ReadRows(cfg, chatId, bound, a);
            && (r == Err(InvalidParams) <==> a.first.Some? && chatId <= 0)
            && (r == Err(PolicyUnavailable) <==>
                  || a.first.None?
                  || (IsChat(chatId, a.chat) && MayList(cfg, a.first.value, a.chat.value)
                      && a.rows(bound).Some? && a.second.None?))
            && (r == Err(BackendUnavailable) <==>
                  && a.first.Some? && 0 < chatId
                  && (a.chat.None?
                      || (IsChat(chatId, a.chat) && MayList(cfg, a.first.value, a.chat.value) && a.rows(bound).None?)))
            && (r == Err(BackendInvalid) <==> a.first.Some? && 0 < chatId && a.chat.Some? && !IsChat(chatId, a.chat))
            && r != Err(StaleGeneration)
  {
    if a.chat.Some? {
      ChatIff(a.chat.value);
      if a.first.Some? {
        AuthorizeMeaning(a.first.value, ChatConversation(a.chat.value));
      }
    }
  }

  /** Policy, chat, rows and policy again: the middle part of a history request and of a lookup. */
  method ReadConversation(cfg: Config, chatId: int, bound: int, a: Answers)
    returns (r: Result<seq<RawMessage>, Failure>)
    ensures r == ReadRows(cfg, chatId, bound, a)
    ensures r.Ok? <==> IsOpen(cfg, chatId, bound, a)
    ensures r == Err(NotVisible) <==> IsHidden(cfg, chatId, bound, a)
  {
    ReadRowsIff(cfg, chatId, bound, a);
    if a.first.None? {
      return Err(PolicyUnavailable);
    }
    var chat := AuthorizeChat(cfg, chatId, a.first.value, a.chat);
    if chat.Err? {
      return Err(chat.error);
    }
    var rows := a.rows(bound);
    if rows.None? {
      return Err(BackendUnavailable);
    }
    if a.second.None? {
      return Err(PolicyUnavailable);
    }
    var decision := AuthorizeConversation(a.second.value, ChatConversation(chat.value));
    if !decision.allowed {
      return Err(NotVisible);
    }
    return Ok(rows.value);
  }

  function VerifyGeneration(generation: string, requested: string): Option<Failure> {
    if requested == "" then Some(InvalidParams) else if requested != generation then Some(StaleGeneration) else None
  }

  function MessageExposer(cfg: Config, generation: string, c: RawChat, p: Policy): RawMessage -> Exposure<Message> {
    m => Expose(cfg, generation, m, c, p)
  }

  function HistoryResponse(cfg: Config, generation: string, chatId: int, requestGeneration: string, requested: int,
                           a: Answers)
    : Result<Filtered<Message>, Failure>
    requires ValidConfig(cfg)
  {
    match VerifyGeneration(generation, requestGeneration)
    case Some(e) => Err(e)
    case None =>
      match NormalizeLimit(requested, 50, cfg.maxResults)
      case None => Err(InvalidParams)
      case Some(limit) =>
        match ReadRows(cfg, chatId, limit, a)
        case Err(e) => Err(e)
        case Ok(rows) =>
          var xs := Exposures(MessageExposer(cfg, generation, a.chat.value, a.second.value), rows);
          if NoneRefused(xs) then Ok(FilterOf(xs, limit, limit)) else Err(BackendInvalid)
  }

  /** Some message may be shown of the row. */
  ghost predicate MayShow(cfg: Config, generation: string, m: RawMessage, c: RawChat, p: Policy) {
    exists shown :: Admissible(cfg, generation, m, c, p, shown)
  }

  /**
   The rows that may be shown, in order, up to the limit and none left out; complete exactly when the
   backend had no more and all of them are there.
   */
  ghost predicate HistoryShows(cfg: Config, generation: string, rows: seq<RawMessage>, c: RawChat, p: Policy,
                               limit: nat, f: Filtered<Message>, ks: seq<nat>) {
    && |ks| == |f.shown| <= limit && (forall i, j | 0 <= i < j < |ks| :: ks[i] < ks[j])
    && (forall i | 0 <= i < |ks| :: ks[i] < |rows| && Admissible(cfg, generation, rows[ks[i]], c, p, f.shown[i]))
    && (forall k | 0 <= k < |rows| && MayShow(cfg, generation, rows[k], c, p) && k !in ks ::
          |ks| == limit && forall i | 0 <= i < |ks| :: ks[i] < k)
    && (f.scanComplete <==>
          |rows| < limit && forall k | 0 <= k < |rows| && MayShow(cfg, generation, rows[k], c, p) :: k in ks)
  }

  /** All that a history needs: an admitted limit, an open chat, and no row that contradicts it. */
  ghost predicate CanAnswer(cfg: Config, generation: string, chatId: int, requestGeneration: string, requested: int,
                            a: Answers, limit: int)
  {
    && requestGeneration == generation != "" && IsLimit(requested, 50, cfg.maxResults, limit)
    && IsOpen(cfg, chatId, limit, a)
    && forall m | m in a.rows(limit).value :: !Contradictory(cfg, m, a.chat.value, a.second.value)
  }

  lemma ExposedRowIff(cfg: Config, generation: string, m: RawMessage, c: RawChat, p: Policy)
    ensures Expose(cfg, generation, m, c, p).Refuse? <==> Contradictory(cfg, m, c, p)
    ensures Expose(cfg, generation, m, c, p).Show? <==> MayShow(cfg, generation, m, c, p)
    ensures Expose(cfg, generation, m, c, p).Show? ==>
              Admissible(cfg, generation, m, c, p, Expose(cfg, generation, m, c, p).value)
  {
    RefusedIffContradictory(cfg, generation, m, c, p);
    var x := Expose(cfg, generation, m, c, p);
    if x.Show? {
      ShownIffAdmissible(cfg, generation, m, c, p, x.value);
    }
    if shown :| Admissible(cfg, generation, m, c, p, shown) {
      ShownIffAdmissible(cfg, generation, m, c, p, shown);
    }
  }

  lemma FilteredAreAdmissible(cfg: Config, generation: string, c: RawChat, p: Policy, rows: seq<RawMessage>, limit: nat)
    ensures var xs := Exposures(MessageExposer(cfg, generation, c, p), rows);
            && (NoneRefused(xs) <==> forall m | m in rows :: !Contradictory(cfg, m, c, p))
            && exists ks :: HistoryShows(cfg, generation, rows, c, p, limit, FilterOf(xs, limit, limit), ks)
  {
    var xs := Exposures(MessageExposer(cfg, generation, c, p), rows);
    forall k | 0 <= k < |rows|
      ensures xs[k].Refuse? <==> Contradictory(cfg, rows[k], c, p)
      ensures xs[k].Show? <==> MayShow(cfg, generation, rows[k], c, p)
      ensures xs[k].Show? ==> Admissible(cfg, generation, rows[k], c, p, xs[k].value)
    {
      ExposedRowIff(cfg, generation, rows[k], c, p);
    }
    NoneContradicts(cfg, rows, c, p, xs);
    FilterIsExact(xs, limit, limit);
    PicksAreShown(cfg, generation, rows, c, p, limit, xs, FilterOf(xs, limit, limit), FirstN(ShowsAt(xs), limit));
  }

  lemma NoneContradicts(cfg: Config, rows: seq<RawMessage>, c: RawChat, p: Policy, xs: seq<Exposure<Message>>)
    requires |xs| == |rows| && forall k | 0 <= k < |rows| :: xs[k].Refuse? <==> Contradictory(cfg, rows[k], c, p)
    ensures NoneRefused(xs) <==> forall m | m in rows :: !Contradictory(cfg, m, c, p)
  {
    assert forall k | 0 <= k < |rows| :: xs[k] in xs && rows[k] in rows;
  }

  lemma PicksAreShown(cfg: Config, generation: string, rows: seq<RawMessage>, c: RawChat, p: Policy, limit: nat,
                      xs: seq<Exposure<Message>>, f: Filtered<Message>, ks: seq<nat>)
    requires |xs| == |rows| && Picks(xs, limit, limit, f, ks)
    requires forall k | 0 <= k < |rows| :: xs[k].Show? <==> MayShow(cfg, generation, rows[k], c, p)
    requires forall k | 0 <= k < |rows| && xs[k].Show? :: Admissible(cfg, generation, rows[k], c, p, xs[k].value)
    ensures HistoryShows(cfg, generation, rows, c, p, limit, f, ks)
  {
  }

  /** What each answer to a history request means: when it is given, with what, and when the chat is not visible. */
  ghost predicate HistorySays(cfg: Config, generation: string, chatId: int, requestGeneration: string, requested: int,
                              a: Answers, r: Result<Filtered<Message>, Failure>)
  {
    && (r.Ok? <==> exists limit :: CanAnswer(cfg, generation, chatId, requestGeneration, requested, a, limit))
    && (r.Ok? ==> exists limit, ks ::
          && CanAnswer(cfg, generation, chatId, requestGeneration, requested, a, limit) && limit >= 0
          && HistoryShows(cfg, generation, a.rows(limit).value, a.chat.value, a.second.value, limit, r.value, ks))
    && (r == Err(NotVisible) <==>
          && requestGeneration == generation != ""
          && exists limit :: IsLimit(requested, 50, cfg.maxResults, limit) && IsHidden(cfg, chatId, limit, a))
  }

  lemma HistoryIff(cfg: Config, generation: string, chatId: int, requestGeneration: string, requested: int, a: Answers)
    requires ValidConfig(cfg)
    ensures HistorySays(cfg, generation, chatId, requestGeneration, requested, a,
                        HistoryResponse(cfg, generation, chatId, requestGeneration, requested, a))
  {
    forall limit ensures IsLimit(requested, 50, cfg.maxResults, limit) <==>
        NormalizeLimit(requested, 50, cfg.maxResults) == Some(limit) {
      LimitIff(requested, 50, cfg.maxResults, limit);
    }
    var limit := NormalizeLimit(requested, 50, cfg.maxResults);
    if requestGeneration == generation != "" && limit.Some? {
      ReadRowsIff(cfg, chatId, limit.value, a);
      if IsOpen(cfg, chatId, limit.value, a) {
        FilteredAreAdmissible(cfg, generation, a.chat.value, a.second.value, a.rows(limit.value).value, limit.value);
        assert CanAnswer(cfg, generation, chatId, requestGeneration, requested, a, limit.value) <==>
               forall m | m in a.rows(limit.value).value :: !Contradictory(cfg, m, a.chat.value, a.second.value);
      }
    }
  }

  /** Why it is not answered otherwise. */
  lemma HistoryFailsIff(cfg: Config, generation: string, chatId: int, requestGeneration: string, requested: int,
                        a: Answers, limit: int)
    requires ValidConfig(cfg) && IsLimit(requested, 50, cfg.maxResults, limit)
    ensures var r := HistoryResponse(cfg, generation, chatId, requestGeneration, requested, a);
            var current := requestGeneration == generation != "";
            && (r == Err(StaleGeneration) <==> requestGeneration != generation && requestGeneration != "")
            && (r == Err(InvalidParams) <==> requestGeneration == "" || (current && a.first.Some? && chatId <= 0))
            && (r == Err(BackendInvalid) <==>
                  && current && a.first.Some? && 0 < chatId && a.chat.Some?
                  && (IsChat(chatId, a.chat) ==>
                        && IsOpen(cfg, chatId, limit, a)
                        && exists m :: m in a.rows(limit).value && Contradictory(cfg, m, a.chat.value, a.second.value)))
            && (r == Err(PolicyUnavailable) <==> current && ReadRows(cfg, chatId, limit, a) == Err(PolicyUnavailable))
            && (r == Err(BackendUnavailable) <==> current && ReadRows(cfg, chatId, limit, a) == Err(BackendUnavailable))
  {
    LimitIff(requested, 50, cfg.maxResults, limit);
    ReadRowsIff(cfg, chatId, limit, a);
    ReadRowsFailsIff(cfg, chatId, limit, a);
    if requestGeneration == generation != "" && IsOpen(cfg, chatId, limit, a) {
      FilteredAreAdmissible(cfg, generation, a.chat.value, a.second.value, a.rows(limit).value, limit);
    }
  }

  /** A history request step by step; what it promises is what its answer shows. */
  method History(cfg: Config, generation: string, chatId: int, requestGeneration: string, requested: int, a: Answers)
    returns (r: Result<Filtered<Message>, Failure>)
    requires ValidConfig(cfg)
    ensures r == HistoryResponse(cfg, generation, chatId, requestGeneration, requested, a)
    ensures HistorySays(cfg, generation, chatId, requestGeneration, requested, a, r)
  {
    HistoryIff(cfg, generation, chatId, requestGeneration, requested, a);
    if requestGeneration == "" {
      return Err(InvalidParams);
    }
    if requestGeneration != generation {
      return Err(StaleGeneration);
    }
    var limit := NormalizeLimit(requested, 50, cfg.maxResults);
    if limit.None? {
      return Err(InvalidParams);
    }
    var rows := ReadConversation(cfg, chatId, limit.value, a);
    if rows.Err? {
      return Err(rows.error);
    }
    var result := Filter(MessageExposer(cfg, generation, a.chat.value, a.second.value), rows.value, limit.value,
                         limit.value);
    if result.None? {
      return Err(BackendInvalid);
    }
    return Ok(result.value);
  }

  // --------------------------------------------------------------- one message

  /** The first row with the GUID. */
  function Find(rows: seq<RawMessage>, guid: string): Option<RawMessage> {
    if rows == [] then None else if rows[0].guid == guid then Some(rows[0]) else Find(rows[1..], guid)
  }

  function Judge(x: Exposure<Message>): Result<Message, Failure> {
    match x
    case Refuse => Err(BackendInvalid)
    case Withhold => Err(NotVisible)
    case Show(m) => Ok(m)
  }

  function GetResponse(cfg: Config, generation: string, chatId: int, requestGeneration: string, guid: string,
                       a: Answers)
    : Result<Message, Failure>
  {
    match VerifyGeneration(generation, requestGeneration)
    case Some(e) => Err(e)
    case None =>
      if Trim(guid) == "" || ByteLen(guid) > 512 then Err(InvalidParams)
      else
        match ReadRows(cfg, chatId, cfg.maxMessageScan, a)
        case Err(e) => Err(e)
        case Ok(rows) =>
          match Find(rows, guid)
          case None => Err(if |rows| == cfg.maxMessageScan then LookupIncomplete else NotFound)
          case Some(m) => Judge(MessageExposer(cfg, generation, a.chat.value, a.second.value)(m))
  }

  /** The search loop of a lookup. */
  method LookUp(expose: RawMessage -> Exposure<Message>, rows: seq<RawMessage>, guid: string, bound: int)
    returns (r: Result<Message, Failure>)
    ensures r == match Find(rows, guid)
                 case None => Err(if |rows| == bound then LookupIncomplete else NotFound)
                 case Some(m) => Judge(expose(m))
  {
    for i := 0 to |rows|
      invariant Find(rows, guid) == Find(rows[i..], guid)
    {
      assert rows[i..][1..] == rows[i + 1..];
      if rows[i].guid == guid {
        var exposure := expose(rows[i]);
        if exposure.Refuse? {
          return Err(BackendInvalid);
        }
        if exposure.Withhold? {
          return Err(NotVisible);
        }
        return Ok(exposure.value);
      }
    }
    if |rows| == bound {
      return Err(LookupIncomplete);
    }
    return Err(NotFound);
  }

  lemma {:induction false} FindIsFirst(rows: seq<RawMessage>, guid: string)
    ensures match Find(rows, guid)
            case None => forall m | m in rows :: m.guid != guid
            case Some(m) =>
              exists k | 0 <= k < |rows| ::
                rows[k] == m && m.guid == guid && forall j | 0 <= j < k :: rows[j].guid != guid
  {
    if rows != [] && rows[0].guid != guid {
      FindIsFirst(rows[1..], guid);
      assert rows == [rows[0]] + rows[1..];
      if Find(rows[1..], guid).Some? {
        var k :| && 0 <= k < |rows[1..]| && rows[1..][k] == Find(rows, guid).value
                 && forall j | 0 <= j < k :: rows[1..][j].guid != guid;
        assert rows[k + 1] == Find(rows, guid).value;
        assert forall j | 0 <= j < k + 1 :: rows[j].guid != guid by {
          assert forall j | 1 <= j < k + 1 :: rows[j] == rows[1..][j - 1];
        }
      }
    }
  }

  /** What the search finds, in terms of the rows. */
  lemma FoundIsExact(cfg: Config, generation: string, rows: seq<RawMessage>, guid: string, c: RawChat, p: Policy,
                     bound: int, r: Result<Message, Failure>)
    requires r == match Find(rows, guid)
                  case None => Err(if |rows| == bound then LookupIncomplete else NotFound)
                  case Some(m) => Judge(MessageExposer(cfg, generation, c, p)(m))
    ensures forall shown :: r == Ok(shown) <==> FirstIsAdmissible(cfg, generation, rows, guid, c, p, shown)
    ensures r == Err(NotVisible) <==> FirstIsWithheld(cfg, generation, rows, guid, c, p)
    ensures r == Err(NotFound) <==> |rows| != bound && forall m | m in rows :: m.guid != guid
    ensures r == Err(LookupIncomplete) <==> |rows| == bound && forall m | m in rows :: m.guid != guid
  {
    FindIsFirst(rows, guid);
    match Find(rows, guid)
    case None =>
      FoundNothing(cfg, generation, rows, guid, c, p);
    case Some(m) =>
      var k :| 0 <= k < |rows| && rows[k] == m && m.guid == guid && forall j | 0 <= j < k :: rows[j].guid != guid;
      FoundFirst(cfg, generation, rows, guid, c, p, k);
      assert rows[k] in rows;
  }

  lemma FoundNothing(cfg: Config, generation: string, rows: seq<RawMessage>, guid: string, c: RawChat, p: Policy)
    requires forall m | m in rows :: m.guid != guid
    ensures forall shown :: !FirstIsAdmissible(cfg, generation, rows, guid, c, p, shown)
    ensures !FirstIsWithheld(cfg, generation, rows, guid, c, p)
  {
    assert forall k | 0 <= k < |rows| :: rows[k] in rows;
  }

  lemma FoundFirst(cfg: Config, generation: string, rows: seq<RawMessage>, guid: string, c: RawChat, p: Policy, k: nat)
    requires k < |rows| && rows[k].guid == guid && forall j | 0 <= j < k :: rows[j].guid != guid
    ensures var r := Judge(MessageExposer(cfg, generation, c, p)(rows[k]));
            && (forall shown :: r == Ok(shown) <==> FirstIsAdmissible(cfg, generation, rows, guid, c, p, shown))
            && (r == Err(NotVisible) <==> FirstIsWithheld(cfg, generation, rows, guid, c, p))
            && r != Err(NotFound) && r != Err(LookupIncomplete)
  {
    var r := Judge(MessageExposer(cfg, generation, c, p)(rows[k]));
    forall shown ensures r == Ok(shown) <==> FirstIsAdmissible(cfg, generation, rows, guid, c, p, shown) {
      JudgeIsExact(cfg, generation, rows[k], c, p, shown);
      FirstIsThatRow(cfg, generation, rows, guid, c, p, shown, k);
    }
    FirstWithheldIsThatRow(cfg, generation, rows, guid, c, p, k);
    JudgeWithholds(cfg, generation, rows[k], c, p);
  }

  lemma FirstIsThatRow(cfg: Config, generation: string, rows: seq<RawMessage>, guid: string, c: RawChat, p: Policy,
                       shown: Message, k: nat)
    requires k < |rows| && rows[k].guid == guid && forall j | 0 <= j < k :: rows[j].guid != guid
    ensures FirstIsAdmissible(cfg, generation, rows, guid, c, p, shown) <==>
            Admissible(cfg, generation, rows[k], c, p, shown)
  {
  }

  lemma FirstWithheldIsThatRow(cfg: Config, generation: string, rows: seq<RawMessage>, guid: string, c: RawChat,
                               p: Policy, k: nat)
    requires k < |rows| && rows[k].guid == guid && forall j | 0 <= j < k :: rows[j].guid != guid
    ensures FirstIsWithheld(cfg, generation, rows, guid, c, p) <==> IsWithheld(cfg, generation, rows[k], c, p)
  {
  }

  /** All that a lookup needs: a GUID that is neither blank nor too long, and an open chat. */
  ghost predicate CanLookUp(cfg: Config, generation: string, chatId: int, requestGeneration: string, guid: string,
                            a: Answers)
  {
    && GoodLookup(generation, requestGeneration, guid) && IsOpen(cfg, chatId, cfg.maxMessageScan, a)
  }

  ghost predicate GoodLookup(generation: string, requestGeneration: string, guid: string) {
    requestGeneration == generation != "" && !IsTrimOf("", guid) && ByteLen(guid) <= 512
  }

  /**
   What each answer to a lookup means: a message is the first row with the GUID, admissible under the policy
   loaded after the read; not visible is a hidden chat or a withheld row; and the two kinds of absence.
   */
  ghost predicate LookupSays(cfg: Config, generation: string, chatId: int, requestGeneration: string, guid: string,
                             a: Answers, r: Result<Message, Failure>)
  {
    var open := CanLookUp(cfg, generation, chatId, requestGeneration, guid, a);
    && (forall shown :: r == Ok(shown) <==>
          open && FirstIsAdmissible(cfg, generation, a.rows(cfg.maxMessageScan).value, guid, a.chat.value,
                                    a.second.value, shown))
    && (r == Err(NotVisible) <==>
          || (GoodLookup(generation, requestGeneration, guid) && IsHidden(cfg, chatId, cfg.maxMessageScan, a))
          || (open && FirstIsWithheld(cfg, generation, a.rows(cfg.maxMessageScan).value, guid, a.chat.value,
                                      a.second.value)))
    && (r == Err(NotFound) <==>
          && open && |a.rows(cfg.maxMessageScan).value| != cfg.maxMessageScan
          && forall m | m in a.rows(cfg.maxMessageScan).value :: m.guid != guid)
    && (r == Err(LookupIncomplete) <==>
          && open && |a.rows(cfg.maxMessageScan).value| == cfg.maxMessageScan
          && forall m | m in a.rows(cfg.maxMessageScan).value :: m.guid != guid)
  }

  lemma LookupIff(cfg: Config, generation: string, chatId: int, requestGeneration: string, guid: string, a: Answers)
    ensures LookupSays(cfg, generation, chatId, requestGeneration, guid, a,
                       GetResponse(cfg, generation, chatId, requestGeneration, guid, a))
  {
    TrimIff(guid, "");
    ReadRowsIff(cfg, chatId, cfg.maxMessageScan, a);
    if CanLookUp(cfg, generation, chatId, requestGeneration, guid, a) {
      FoundIsExact(cfg, generation, a.rows(cfg.maxMessageScan).value, guid, a.chat.value, a.second.value,
                   cfg.maxMessageScan, GetResponse(cfg, generation, chatId, requestGeneration, guid, a));
    }
  }

  lemma JudgeWithholds(cfg: Config, generation: string, m: RawMessage, c: RawChat, p: Policy)
    ensures var r := Judge(MessageExposer(cfg, generation, c, p)(m));
            && (r == Err(NotVisible) <==> IsWithheld(cfg, generation, m, c, p))
            && r != Err(NotFound) && r != Err(LookupIncomplete)
  {
    ExposedRowIff(cfg, generation, m, c, p);
  }

  lemma JudgeIsExact(cfg: Config, generation: string, m: RawMessage, c: RawChat, p: Policy, shown: Message)
    ensures var r := Judge(MessageExposer(cfg, generation, c, p)(m));
            && (r == Ok(shown) <==> Admissible(cfg, generation, m, c, p, shown)) && r != Err(NotFound)
  {
    ShownIffAdmissible(cfg, generation, m, c, p, shown);
  }

  /** The row spoils nothing, and nothing may be shown of it. */
  ghost predicate IsWithheld(cfg: Config, generation: string, m: RawMessage, c: RawChat, p: Policy) {
    !Contradictory(cfg, m, c, p) && !MayShow(cfg, generation, m, c, p)
  }

  ghost predicate FirstIsWithheld(cfg: Config, generation: string, rows: seq<RawMessage>, guid: string, c: RawChat,
                                  p: Policy) {
    exists k | 0 <= k < |rows| ::
      && rows[k].guid == guid && (forall j | 0 <= j < k :: rows[j].guid != guid)
      && IsWithheld(cfg, generation, rows[k], c, p)
  }

  /** The first row with the GUID, and it is admissible as this message. */
  ghost predicate FirstIsAdmissible(cfg: Config, generation: string, rows: seq<RawMessage>, guid: string, c: RawChat,
                                    p: Policy, shown: Message) {
    exists k | 0 <= k < |rows| ::
      && rows[k].guid == guid && (forall j | 0 <= j < k :: rows[j].guid != guid)
      && Admissible(cfg, generation, rows[k], c, p, shown)
  }

  /** A lookup step by step; what it promises of a message found and of one not found. */
  method GetMessage(cfg: Config, generation: string, chatId: int, requestGeneration: string, guid: string, a: Answers)
    returns (r: Result<Message, Failure>)
    ensures r == GetResponse(cfg, generation, chatId, requestGeneration, guid, a)
    ensures LookupSays(cfg, generation, chatId, requestGeneration, guid, a, r)
  {
    LookupIff(cfg, generation, chatId, requestGeneration, guid, a);
    if requestGeneration == "" {
      return Err(InvalidParams);
    }
    if requestGeneration != generation {
      return Err(StaleGeneration);
    }
    if Trim(guid) == "" || ByteLen(guid) > 512 {
      return Err(InvalidParams);
    }
    var rows := ReadConversation(cfg, chatId, cfg.maxMessageScan, a);
    if rows.Err? {
      return Err(rows.error);
    }
    r := LookUp(MessageExposer(cfg, generation, a.chat.value, a.second.value), rows.value, guid, cfg.maxMessageScan);
  }
}
