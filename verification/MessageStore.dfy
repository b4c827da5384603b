/**
 The producer of collection pages (backend/imsg/MessageStore+SafeCollection.swift).

 A database is a finite map from row ids to immutable rows; a SQL query is a predicate on rows
 followed by an ascending, limited listing. The join table is kept as the bag of chat ids of each
 message, because the bootstrap query does not remove duplicates from it.
 */
module MessageStore {
  import opened Lists
  import opened Wrappers
  import opened Text

  datatype Balloon = NoBalloon | UrlBalloon | OtherBalloon

  /** Dates count nanoseconds from the Apple epoch; an absent text column is the empty string. */
  datatype MessageRow = MessageRow(
    kind: int, balloon: Balloon, date: Option<int>, fromMe: Option<int>,
    guid: string, sender: string, destination: string, text: string,
    bodySize: nat, bodyText: string, links: seq<int>)

  datatype ChatRow = ChatRow(
    identifier: string, guid: string, service: string, account: Option<string>, isGroup: bool, handles: seq<string>)

  datatype Database = Database(
    messages: map<int, MessageRow>, chats: map<int, ChatRow>,
    hasReactions: bool, hasAccounts: bool, hasDateIndex: bool)

  datatype ChatInfo = ChatInfo(id: int, row: ChatRow)

  datatype SafeMessage = SafeMessage(guid: string, sender: string, fromMe: bool, text: string, date: int)

  /** A row of a page; a skipped row keeps only its position. */
  datatype SafeRow = Skipped(id: int) | Shown(id: int, message: SafeMessage, chat: ChatInfo)

  datatype SafePage = SafePage(rows: seq<SafeRow>, through: int, scanned: int, complete: bool)

  datatype Error = InvalidBounds | UnsupportedSchema | UnsafeMetadata | OversizedText

  datatype Query = Query(after: int, through: Option<int>, limit: int, account: Option<string>, notBefore: Option<int>)

  const MAX_TEXT := 65536
  const MAX_BODY := 1048576
  const PLAUSIBLE_GRACE := 300_000_000_000

  // ---------------------------------------------------------------- listings

  /** The members of a set in (lo, hi], ascending. */
  function IdsIn(ids: set<int>, lo: int, hi: int): seq<int>
    decreases hi - lo
  {
    if hi <= lo then [] else IdsIn(ids, lo, hi - 1) + if hi in ids then [hi] else []
  }

  predicate Ascending(s: seq<int>) { forall i, j | 0 <= i < j < |s| :: s[i] < s[j] }

  lemma {:induction false} IdsInMembers(ids: set<int>, lo: int, hi: int)
    ensures forall k :: k in IdsIn(ids, lo, hi) <==> k in ids && lo < k <= hi
    decreases hi - lo
  {
    if lo < hi {
      IdsInMembers(ids, lo, hi - 1);
    }
  }

  lemma {:induction false} IdsInAscending(ids: set<int>, lo: int, hi: int)
    ensures Ascending(IdsIn(ids, lo, hi))
    decreases hi - lo
  {
    if lo < hi {
      IdsInAscending(ids, lo, hi - 1);
      IdsInMembers(ids, lo, hi - 1);
      var init := IdsIn(ids, lo, hi - 1);
      assert forall i | 0 <= i < |init| :: init[i] in init;
    }
  }

  /** A listing splits at every position. */
  lemma {:induction false} IdsInSplit(ids: set<int>, lo: int, mid: int, hi: int)
    requires lo <= mid <= hi
    ensures IdsIn(ids, lo, hi) == IdsIn(ids, lo, mid) + IdsIn(ids, mid, hi)
    decreases hi - mid
  {
    if mid < hi {
      IdsInSplit(ids, lo, mid, hi - 1);
    }
  }

  /** The first n entries are the listing up to the n-th entry, and the rest is the listing above it. */
  lemma {:induction false} IdsInPrefix(ids: set<int>, lo: int, hi: int, n: nat)
    requires 0 < n <= |IdsIn(ids, lo, hi)|
    ensures var s := IdsIn(ids, lo, hi);
            lo < s[n - 1] <= hi && s[..n] == IdsIn(ids, lo, s[n - 1]) && s[n..] == IdsIn(ids, s[n - 1], hi)
    decreases hi - lo
  {
    var s, init := IdsIn(ids, lo, hi), IdsIn(ids, lo, hi - 1);
    if n <= |init| {
      IdsInPrefix(ids, lo, hi - 1, n);
      assert s[n..] == init[n..] + if hi in ids then [hi] else [];
    } else {
      assert s[..n] == s && s[n - 1] == hi;
    }
  }

  lemma {:induction false} MaxExists(ids: set<int>)
    requires |ids| > 0
    ensures exists m :: m in ids && forall k | k in ids :: k <= m
    decreases |ids|
  {
    var x := Pick(ids);
    var rest := ids - {x};
    if |rest| == 0 {
      assert ids == {x};
    } else {
      MaxExists(rest);
      var m :| m in rest && forall k | k in rest :: k <= m;
      var best := if m < x then x else m;
      forall k | k in ids ensures k <= best {
        assert k == x || k in rest;
      }
      assert best in ids;
    }
  }

  /** SELECT MAX(ROWID), zero for an empty table. */
  function MaxRow(ids: set<int>): (m: int)
    ensures if ids == {} then m == 0 else m in ids && forall k | k in ids :: k <= m
  {
    if ids == {} then 0
    else
      MaxExists(ids);
      var m :| m in ids && forall k | k in ids :: k <= m;
      m
  }

  // ------------------------------------------------------------- row decoding

  function LookupChat(db: Database, chatID: int): Result<ChatInfo, Error> {
    if chatID !in db.chats then Err(UnsafeMetadata)
    else if |db.chats[chatID].handles| > 256 || exists h | h in db.chats[chatID].handles :: ByteLen(h) > 320 then
      Err(UnsafeMetadata)
    else Ok(ChatInfo(chatID, db.chats[chatID]))
  }

  /** The message part of a row, once its conversation is known. */
  function DecodeMessage(id: int, m: MessageRow, chat: ChatInfo): Result<SafeRow, Error> {
    if ByteLen(m.text) > MAX_TEXT || m.bodySize > MAX_BODY then Err(OversizedText)
    else if m.fromMe !in {Some(0), Some(1)} || m.date.None? then Err(UnsafeMetadata)
    else
      var sender := if m.sender == "" then m.destination else m.sender;
      var text := if m.text == "" then m.bodyText else m.text;
      if m.guid == "" || ByteLen(m.guid) > 512 || ByteLen(sender) > 320 then Err(UnsafeMetadata)
      else if ByteLen(text) > MAX_TEXT then Err(OversizedText)
      else Ok(Shown(id, SafeMessage(m.guid, sender, m.fromMe == Some(1), text, m.date.value), chat))
  }

  function DecodeRow(db: Database, account: Option<string>, id: int): (r: Result<SafeRow, Error>)
    ensures r.Ok? ==> r.value.id == id
  {
    if id !in db.messages then Err(UnsafeMetadata)
    else
      var m := db.messages[id];
      if m.kind != 0 || m.balloon == OtherBalloon then Ok(Skipped(id))
      else if m.links == [] || m.links[0] <= 0 then Ok(Skipped(id))
      else if exists l | l in m.links :: l != m.links[0] then Err(UnsafeMetadata)
      else
        match LookupChat(db, m.links[0])
        case Err(e) => Err(e)
        case Ok(chat) =>
          if account.Some? && chat.row.account != account then Ok(Skipped(id)) else DecodeMessage(id, m, chat)
  }

  /** Every entry of the page-local cache is what a fresh lookup would return. */
  ghost predicate CacheAgrees(db: Database, chats: map<int, ChatInfo>) {
    forall c | c in chats :: LookupChat(db, c) == Ok(chats[c])
  }

  method SafeCollectionRow(db: Database, id: int, chats: map<int, ChatInfo>, account: Option<string>)
    returns (r: Result<SafeRow, Error>, filled: map<int, ChatInfo>)
    requires CacheAgrees(db, chats)
    ensures r == DecodeRow(db, account, id)
    ensures CacheAgrees(db, filled) && chats.Keys <= filled.Keys
  {
    filled := chats;
    if id !in db.messages {
      return Err(UnsafeMetadata), filled;
    }
    var m := db.messages[id];
    if m.kind != 0 || m.balloon == OtherBalloon {
      return Ok(Skipped(id)), filled;
    }
    if m.links == [] || m.links[0] <= 0 {
      return Ok(Skipped(id)), filled;
    }
    var chatID := m.links[0];
    if exists l | l in m.links :: l != chatID {
      return Err(UnsafeMetadata), filled;
    }
    if chatID !in filled {
      var found := LookupChat(db, chatID);
      if found.Err? {
        return Err(found.error), filled;
      }
      filled := filled[chatID := found.value];
    }
    var chat := filled[chatID];
    if account.Some? && chat.row.account != account {
      return Ok(Skipped(id)), filled;
    }
    r := DecodeMessage(id, m, chat);
  }

  function DecodeAll(db: Database, account: Option<string>, ids: seq<int>): (r: Result<seq<SafeRow>, Error>)
    ensures r.Ok? ==> |r.value| == |ids|
    ensures r.Ok? ==> forall i | 0 <= i < |ids| :: DecodeRow(db, account, ids[i]) == Ok(r.value[i])
    ensures r.Err? <==> exists id | id in ids :: DecodeRow(db, account, id).Err?
  {
    if ids == [] then Ok([])
    else
      match DecodeAll(db, account, ids[..|ids| - 1])
      case Err(e) => Err(e)
      case Ok(rows) =>
        match DecodeRow(db, account, ids[|ids| - 1])
        case Err(e) => Err(e)
        case Ok(row) => Ok(rows + [row])
  }

  lemma {:induction false} DecodeAllStops(db: Database, account: Option<string>, ids: seq<int>, i: nat, e: Error)
    requires i < |ids| && DecodeAll(db, account, ids[..i]).Ok? && DecodeRow(db, account, ids[i]) == Err(e)
    ensures DecodeAll(db, account, ids) == Err(e)
    decreases |ids| - i
  {
    assert ids[..i + 1][..i] == ids[..i];
    DecodeAllPropagates(db, account, ids, i + 1, e);
  }

  lemma {:induction false} DecodeAllPropagates(db: Database, account: Option<string>, ids: seq<int>, i: nat, e: Error)
    requires i <= |ids| && DecodeAll(db, account, ids[..i]) == Err(e)
    ensures DecodeAll(db, account, ids) == Err(e)
    decreases |ids| - i
  {
    if i == |ids| {
      assert ids[..i] == ids;
    } else {
      assert ids[..i + 1][..i] == ids[..i];
      DecodeAllPropagates(db, account, ids, i + 1, e);
    }
  }

  /** The row loop, with its chat cache. */
  method DecodePage(db: Database, account: Option<string>, ids: seq<int>) returns (r: Result<seq<SafeRow>, Error>)
    ensures r == DecodeAll(db, account, ids)
  {
    var rows: seq<SafeRow> := [];
    var chats: map<int, ChatInfo> := map[];
    for i := 0 to |ids|
      invariant CacheAgrees(db, chats)
      invariant DecodeAll(db, account, ids[..i]) == Ok(rows)
    {
      assert ids[..i + 1][..i] == ids[..i];
      var row;
      row, chats := SafeCollectionRow(db, ids[i], chats, account);
      if row.Err? {
        DecodeAllStops(db, account, ids, i, row.error);
        return Err(row.error);
      }
      rows := rows + [row.value];
    }
    assert ids[..|ids|] == ids;
    return Ok(rows);
  }

  // -------------------------------------------------------------------- pages

  /** The date query's WHERE clause. */
  predicate Selected(db: Database, account: string, threshold: int, latest: int, id: int) {
    && id in db.messages
    && var m := db.messages[id];
    && m.date.Some? && threshold <= m.date.value <= latest
    && m.kind == 0 && m.balloon != OtherBalloon && m.fromMe in {Some(0), Some(1)}
    && 1 <= ByteLen(m.guid) <= 512 && ByteLen(m.text) <= MAX_TEXT && m.bodySize <= MAX_BODY
    && (ByteLen(m.text) > 0 || m.bodySize > 0)
    && m.links != [] && (forall l | l in m.links :: l == m.links[0])
    && m.links[0] in db.chats
    && db.chats[m.links[0]].account == Some(account) && db.chats[m.links[0]].service == "iMessage"
  }

  /** The rows a query is about, before its position and limit. */
  function Scope(db: Database, q: Query, now: int): set<int> {
    if q.notBefore.Some? && q.account.Some?
    then set id | id in db.messages && Selected(db, q.account.value, q.notBefore.value, now + PLAUSIBLE_GRACE, id)
    else db.messages.Keys
  }

  /** One result row per matching row of the join table. */
  function JoinRows(db: Database, ids: seq<int>): seq<int>
    requires forall id | id in ids :: id in db.messages
  {
    if ids == [] then []
    else
      assert ids[0] in ids;
      Repeat(ids[0], |db.messages[ids[0]].links|) + JoinRows(db, ids[1..])
  }

  function Repeat(id: int, n: nat): seq<int> { if n == 0 then [] else [id] + Repeat(id, n - 1) }

  function Upper(db: Database, q: Query): int {
    match q.through
    case Some(u) => u
    case None => var m := MaxRow(db.messages.Keys); if m < q.after then q.after else m
  }

  function Listing(db: Database, q: Query, now: int): seq<int> {
    IdsIn(Scope(db, q, now), q.after, Upper(db, q))
  }

  /** What the page query returns without its LIMIT. */
  function RawIds(db: Database, q: Query, now: int): seq<int> {
    IdsInMembers(Scope(db, q, now), q.after, Upper(db, q));
    if q.notBefore.Some? then JoinRows(db, Listing(db, q, now)) else Listing(db, q, now)
  }

  predicate GoodBounds(q: Query) {
    && q.after >= 0 && 0 < q.limit <= 1000
    && (q.through.Some? ==> q.through.value >= q.after)
    && (q.notBefore.Some? ==> (q.after == 0 && q.through.None?) || (q.after > 0 && q.through.Some?))
  }

  predicate SupportedSchema(db: Database, q: Query) {
    && db.hasReactions
    && (q.notBefore.Some? ==> q.account.Some? && q.account.value != "" && db.hasAccounts && db.hasDateIndex)
  }

  function Limited(s: seq<int>, n: nat): seq<int> { if |s| > n then s[..n] else s }

  /** The page of a query: the first rows of its listing, and whether rows remain. */
  function Page(db: Database, q: Query, now: int): Result<SafePage, Error> {
    if !GoodBounds(q) then Err(InvalidBounds)
    else if !SupportedSchema(db, q) then Err(UnsupportedSchema)
    else
      var ids := RawIds(db, q, now);
      var more := |ids| > q.limit;
      var taken := Limited(ids, q.limit);
      match DecodeAll(db, q.account, taken)
      case Err(e) => Err(e)
      case Ok(rows) =>
        Ok(SafePage(rows, Upper(db, q), if more then taken[|taken| - 1] else Upper(db, q), !more))
  }

  /** A boundary that is not given is the newest row there is, or the position itself when that is past it. */
  ghost predicate IsBoundary(db: Database, q: Query, through: int) {
    match q.through
    case Some(u) => through == u
    case None =>
      && q.after <= through && (forall id | id in db.messages :: id <= through)
      && (through == q.after || through in db.messages)
  }

  lemma BoundaryIsNewest(db: Database, q: Query, now: int)
    requires Page(db, q, now).Ok?
    ensures IsBoundary(db, q, Page(db, q, now).value.through)
  {
  }

  /** Both paging modes as the source runs them: a probe after the last row, or one row too many. */
  method SafeCollection(db: Database, q: Query, now: int) returns (r: Result<SafePage, Error>)
    ensures r == Page(db, q, now)
    ensures r.Ok? ==> IsBoundary(db, q, r.value.through)
  {
    if !(q.after >= 0 && q.limit > 0 && q.limit <= 1000
         && (q.through.None? || q.through.value >= q.after)
         && (q.notBefore.None? || (q.after == 0 && q.through.None?) || (q.after > 0 && q.through.Some?))) {
      return Err(InvalidBounds);
    }
    if !db.hasReactions {
      return Err(UnsupportedSchema);
    }
    if q.notBefore.Some? && (q.account.None? || q.account.value == "" || !db.hasAccounts || !db.hasDateIndex) {
      return Err(UnsupportedSchema);
    }
    var upper := Upper(db, q);
    var rawIDs, more;
    if q.notBefore.Some? {
      rawIDs := Limited(RawIds(db, q, now), q.limit + 1);
      more := |rawIDs| > q.limit;
      if more {
        rawIDs := rawIDs[..|rawIDs| - 1];
      }
    } else {
      rawIDs := Limited(IdsIn(db.messages.Keys, q.after, upper), q.limit);
      var last := if rawIDs == [] then q.after else rawIDs[|rawIDs| - 1];
      ProbeAfterLast(db.messages.Keys, q.after, upper, q.limit);
      more := exists id | id in db.messages.Keys :: last < id <= upper;
    }
    assert more <==> |RawIds(db, q, now)| > q.limit;
    assert rawIDs == Limited(RawIds(db, q, now), q.limit);
    var rows := DecodePage(db, q.account, rawIDs);
    if rows.Err? {
      return Err(rows.error);
    }
    var scanned := if more then (if rawIDs == [] then q.after else rawIDs[|rawIDs| - 1]) else upper;
    return Ok(SafePage(rows.value, upper, scanned, !more));
  }

  /** Probing for a row above the last one listed tells whether the limit cut the listing. */
  lemma ProbeAfterLast(ids: set<int>, after: int, upper: int, limit: nat)
    requires limit > 0 && after <= upper
    ensures var all := IdsIn(ids, after, upper);
            var taken := Limited(all, limit);
            var last := if taken == [] then after else taken[|taken| - 1];
            (exists id | id in ids :: last < id <= upper) <==> |all| > limit
  {
    var all := IdsIn(ids, after, upper);
    var taken := Limited(all, limit);
    var last := if taken == [] then after else taken[|taken| - 1];
    var rest := IdsIn(ids, last, upper);
    if taken != [] {
      IdsInPrefix(ids, after, upper, |taken|);
      assert all[..|taken|] == taken && all[|taken|..] == rest;
    }
    IdsInMembers(ids, last, upper);
    if |all| > limit {
      assert |rest| == |all| - limit;
      var next := rest[0];
      assert next in rest;
      assert next in ids && last < next <= upper;
    } else {
      assert taken == all && rest == [];
      forall id | id in ids ensures !(last < id <= upper) {
        assert id !in rest;
      }
    }
  }

  // --------------------------------------------------------------- properties

  /** Each message has at most one row in the join table per chat. */
  ghost predicate UniqueLinks(db: Database) { forall id | id in db.messages :: Distinct(db.messages[id].links) }

  lemma DistinctConstant(s: seq<int>)
    requires s != [] && Distinct(s) && forall l | l in s :: l == s[0]
    ensures |s| == 1
  {
    DistinctMultiset(s);
    assert Elements(s) == {s[0]};
    assert |s| == |multiset(s)|;
  }

  lemma SinglyLinked(db: Database, id: int)
    requires UniqueLinks(db) && id in db.messages && db.messages[id].links != []
    requires forall l | l in db.messages[id].links :: l == db.messages[id].links[0]
    ensures |db.messages[id].links| == 1
  {
    DistinctConstant(db.messages[id].links);
  }

  lemma JoinRowsHead(db: Database, ids: seq<int>)
    requires ids != [] && forall id | id in ids :: id in db.messages && db.messages[id].links != []
    ensures forall id | id in ids[1..] :: id in db.messages && db.messages[id].links != []
    ensures var all, rest := JoinRows(db, ids), JoinRows(db, ids[1..]);
            && |all| > |rest| && all[0] == ids[0]
            && (|db.messages[ids[0]].links| == 1 ==> all == [ids[0]] + rest)
  {
    var id, m := ids[0], |db.messages[ids[0]].links|;
    assert id in ids && forall k | k in ids[1..] :: k in ids;
    RepeatMembers(id, m);
    assert Repeat(id, m) == [id] + Repeat(id, m - 1);
    if m == 1 {
      assert Repeat(id, 0) == [] && [id] + [] == [id];
    }
  }

  /** A prefix of the joined listing without repeated rows is a prefix of the listing. */
  lemma {:induction false} JoinRowsPrefix(db: Database, ids: seq<int>, n: nat)
    requires forall id | id in ids :: id in db.messages && db.messages[id].links != []
    requires n <= |JoinRows(db, ids)|
    requires forall i | 0 <= i < n ::
               JoinRows(db, ids)[i] in db.messages && |db.messages[JoinRows(db, ids)[i]].links| == 1
    ensures n <= |ids| && JoinRows(db, ids)[..n] == ids[..n] && |ids| - n <= |JoinRows(db, ids)| - n
    ensures |ids| == n ==> |JoinRows(db, ids)| == n
  {
    if ids != [] {
      var all, rest := JoinRows(db, ids), JoinRows(db, ids[1..]);
      JoinRowsHead(db, ids);
      if n > 0 {
        assert all[0] in db.messages && |db.messages[all[0]].links| == 1;
        forall i | 0 <= i < n - 1 ensures rest[i] in db.messages && |db.messages[rest[i]].links| == 1 {
          assert rest[i] == all[i + 1];
        }
        JoinRowsPrefix(db, ids[1..], n - 1);
        assert all[..n] == [ids[0]] + rest[..n - 1];
        assert ids[..n] == [ids[0]] + ids[1..][..n - 1];
      } else {
        JoinRowsPrefix(db, ids[1..], 0);
      }
    }
  }

  /** The rows of a page came through the join once each. */
  ghost predicate JoinedOnce(db: Database, rows: seq<SafeRow>) {
    forall r | r in rows :: r.id in db.messages && |db.messages[r.id].links| == 1
  }

  lemma UniqueLinksJoinOnce(db: Database, q: Query, now: int)
    requires Page(db, q, now).Ok? && q.notBefore.Some? && UniqueLinks(db)
    ensures JoinedOnce(db, Page(db, q, now).value.rows)
  {
    var p := Page(db, q, now).value;
    RawIdsInScope(db, q, now);
    forall i | 0 <= i < |p.rows| ensures p.rows[i].id in db.messages && |db.messages[p.rows[i].id].links| == 1 {
      var id := RawIds(db, q, now)[i];
      assert id in RawIds(db, q, now);
      SinglyLinked(db, id);
    }
  }

  lemma RawIdsInScope(db: Database, q: Query, now: int)
    ensures forall id :: id in RawIds(db, q, now) ==> id in Scope(db, q, now)
  {
    IdsInMembers(Scope(db, q, now), q.after, Upper(db, q));
    if q.notBefore.Some? {
      JoinRowsMembers(db, Listing(db, q, now));
    }
  }

  lemma {:induction false} JoinRowsMembers(db: Database, ids: seq<int>)
    requires forall id | id in ids :: id in db.messages
    ensures forall id | id in JoinRows(db, ids) :: id in ids
  {
    if ids != [] {
      assert ids[0] in ids && forall k | k in ids[1..] :: k in ids;
      JoinRowsMembers(db, ids[1..]);
      RepeatMembers(ids[0], |db.messages[ids[0]].links|);
    }
  }

  lemma RepeatMembers(id: int, n: nat)
    ensures |Repeat(id, n)| == n && forall k | k in Repeat(id, n) :: k == id
  {
  }

  /** When the page's rows were joined once each, the limit cut the joined listing where it cuts the listing. */
  lemma PageCutsTheListing(db: Database, q: Query, now: int)
    requires Page(db, q, now).Ok?
    requires q.notBefore.Some? ==> JoinedOnce(db, Page(db, q, now).value.rows)
    ensures Limited(RawIds(db, q, now), q.limit) == Limited(Listing(db, q, now), q.limit)
    ensures |RawIds(db, q, now)| > q.limit <==> |Listing(db, q, now)| > q.limit
  {
    if q.notBefore.Some? {
      var ids, raw := Listing(db, q, now), RawIds(db, q, now);
      var rows := Page(db, q, now).value.rows;
      IdsInMembers(Scope(db, q, now), q.after, Upper(db, q));
      forall i | 0 <= i < |rows| ensures raw[i] in db.messages && |db.messages[raw[i]].links| == 1 {
        assert rows[i] in rows && rows[i].id == raw[i];
      }
      JoinRowsPrefix(db, ids, |rows|);
      LimitCutsAlike(ids, raw, q.limit);
    }
  }

  lemma LimitCutsAlike(ids: seq<int>, raw: seq<int>, limit: nat)
    requires var n := |Limited(raw, limit)|;
             && n <= |ids| <= |raw| && raw[..n] == ids[..n] && (|ids| == n ==> |raw| == n)
    ensures Limited(raw, limit) == Limited(ids, limit) && (|raw| > limit <==> |ids| > limit)
  {
    if |raw| <= limit {
      assert raw[..|raw|] == raw && ids[..|raw|] == ids;
    }
  }

  ghost function RowIds(rows: seq<SafeRow>): (ids: seq<int>)
    ensures |ids| == |rows| && forall i | 0 <= i < |rows| :: ids[i] == rows[i].id
  {
    seq(|rows|, i requires 0 <= i < |rows| => rows[i].id)
  }

  /**
   A page holds exactly the rows of its scope from its position to the position it claims to have
   scanned, none twice and in order; it is complete exactly when no row of the scope remains up to
   the boundary, and then it claims the whole boundary.
   */
  lemma PageIsExact(db: Database, q: Query, now: int)
    requires Page(db, q, now).Ok?
    requires q.notBefore.Some? ==> JoinedOnce(db, Page(db, q, now).value.rows)
    ensures var p, scope := Page(db, q, now).value, Scope(db, q, now);
            && p.through == Upper(db, q) >= q.after
            && q.after <= p.scanned <= p.through && |p.rows| <= q.limit
            && RowIds(p.rows) == IdsIn(scope, q.after, p.scanned)
            && (p.complete <==> IdsIn(scope, p.scanned, p.through) == [])
            && (p.complete <==> p.scanned == p.through)
            && (!p.complete ==> |p.rows| == q.limit && RowIds(p.rows)[q.limit - 1] == p.scanned)
  {
    var p, scope := Page(db, q, now).value, Scope(db, q, now);
    PageCutsTheListing(db, q, now);
    var ids := Listing(db, q, now);
    if |ids| > q.limit {
      IdsInPrefix(scope, q.after, Upper(db, q), q.limit);
      assert RowIds(p.rows) == ids[..q.limit];
      IdsInMembers(scope, p.scanned, p.through);
      assert ids[q.limit] == ids[q.limit..][0] && ids[q.limit..][0] in ids[q.limit..];
    } else {
      assert RowIds(p.rows) == ids;
    }
  }

  /** What a row must be, and which of its fields are taken, to come out as a message. */
  ghost predicate IsObservation(db: Database, account: Option<string>, id: int, s: SafeMessage, chat: ChatInfo) {
    && id in db.messages
    && var m := db.messages[id];
    && m.kind == 0 && m.balloon != OtherBalloon
    && m.links != [] && chat.id > 0 && (forall l | l in m.links :: l == chat.id)
    && chat.id in db.chats && chat.row == db.chats[chat.id] && (account.Some? ==> chat.row.account == account)
    && |chat.row.handles| <= 256 && (forall h | h in chat.row.handles :: ByteLen(h) <= 320)
    && ByteLen(m.text) <= MAX_TEXT && m.bodySize <= MAX_BODY
    && m.date == Some(s.date) && m.fromMe == Some(if s.fromMe then 1 else 0)
    && s.guid == m.guid && 0 < ByteLen(m.guid) <= 512
    && s.sender == (if m.sender != "" then m.sender else m.destination) && ByteLen(s.sender) <= 320
    && s.text == (if m.text != "" then m.text else m.bodyText) && ByteLen(s.text) <= MAX_TEXT
  }

  /** A row decodes to a message exactly when it is one, under its one conversation. */
  lemma ShownRowIff(db: Database, account: Option<string>, id: int, s: SafeMessage, chat: ChatInfo)
    ensures DecodeRow(db, account, id) == Ok(Shown(id, s, chat)) <==> IsObservation(db, account, id, s, chat)
  {
    if id in db.messages && db.messages[id].links != [] {
      var m := db.messages[id];
      assert m.links[0] in m.links;
      DecodeMessageIff(id, m, s, chat);
    }
  }

  lemma DecodeMessageIff(id: int, m: MessageRow, s: SafeMessage, chat: ChatInfo)
    ensures DecodeMessage(id, m, chat) == Ok(Shown(id, s, chat)) <==>
              && ByteLen(m.text) <= MAX_TEXT && m.bodySize <= MAX_BODY
              && m.date == Some(s.date) && m.fromMe == Some(if s.fromMe then 1 else 0)
              && s.guid == m.guid && 0 < ByteLen(m.guid) <= 512
              && s.sender == (if m.sender != "" then m.sender else m.destination) && ByteLen(s.sender) <= 320
              && s.text == (if m.text != "" then m.text else m.bodyText) && ByteLen(s.text) <= MAX_TEXT
    ensures DecodeMessage(id, m, chat).Ok? ==>
            DecodeMessage(id, m, chat).value.Shown? && DecodeMessage(id, m, chat).value.chat == chat
  {
  }

  /** Every message on a bootstrap page is in the date window, of the account, and from an iMessage chat. */
  lemma BootstrapMessagesAreRecent(db: Database, q: Query, now: int, i: nat)
    requires Page(db, q, now).Ok? && q.notBefore.Some? && i < |Page(db, q, now).value.rows|
    requires Page(db, q, now).value.rows[i].Shown?
    ensures var r := Page(db, q, now).value.rows[i];
            && q.notBefore.value <= r.message.date <= now + PLAUSIBLE_GRACE
            && r.chat.row.account == q.account && r.chat.row.service == "iMessage"
  {
    var r := Page(db, q, now).value.rows[i];
    var raw := RawIds(db, q, now);
    assert DecodeRow(db, q.account, raw[i]) == Ok(r) && raw[i] in raw;
    RawIdsInScope(db, q, now);
    ShownRowIff(db, q.account, r.id, r.message, r.chat);
    var links := db.messages[r.id].links;
    assert links[0] in links;
  }

  /** A row the date query selects decodes to a message or stops the page, unless its chat id is not positive. */
  lemma SelectedRowIsSkippedIff(db: Database, account: string, threshold: int, latest: int, id: int)
    requires Selected(db, account, threshold, latest, id)
    ensures DecodeRow(db, Some(account), id) == Ok(Skipped(id)) <==> db.messages[id].links[0] <= 0
  {
  }

  // ------------------------------------------------------- what a page is made of

  /** The rows that a date query is about. */
  ghost predicate Qualifies(db: Database, account: Option<string>, since: int, now: int, id: int) {
    && id in db.messages
    && var m := db.messages[id];
    && m.date.Some? && since <= m.date.value <= now + 300_000_000_000
    && m.kind == 0 && (m.balloon == NoBalloon || m.balloon == UrlBalloon)
    && (m.fromMe == Some(0) || m.fromMe == Some(1))
    && 0 < ByteLen(m.guid) <= 512 && ByteLen(m.text) <= 65_536 && m.bodySize <= 1_048_576
    && (m.text != "" || m.bodySize > 0)
    && exists c ::
         && IsOnlyChat(m, c) && c in db.chats
         && db.chats[c].account == account && db.chats[c].service == "iMessage"
  }

  ghost predicate IsOnlyChat(m: MessageRow, c: int) { m.links != [] && forall l | l in m.links :: l == c }

  lemma SelectedIff(db: Database, account: string, since: int, now: int, id: int)
    ensures Selected(db, account, since, now + PLAUSIBLE_GRACE, id) <==> Qualifies(db, Some(account), since, now, id)
  {
    if id in db.messages && db.messages[id].links != [] {
      var m := db.messages[id];
      assert m.text != "" <==> ByteLen(m.text) > 0;
      assert m.links[0] in m.links;
      assert forall c :: IsOnlyChat(m, c) <==> c == m.links[0] && IsOnlyChat(m, m.links[0]);
    }
  }

  /** Between its position and where it has scanned to, a page holds every row its query is about, and no other. */
  lemma PageHoldsIff(db: Database, q: Query, now: int, id: int)
    requires Page(db, q, now).Ok?
    requires q.notBefore.Some? ==> JoinedOnce(db, Page(db, q, now).value.rows)
    ensures var p := Page(db, q, now).value;
            id in RowIds(p.rows) <==>
              && q.after < id <= p.scanned && id in db.messages
              && (q.notBefore.Some? ==> Qualifies(db, q.account, q.notBefore.value, now, id))
  {
    PageIsExact(db, q, now);
    IdsInMembers(Scope(db, q, now), q.after, Page(db, q, now).value.scanned);
    if q.notBefore.Some? {
      SelectedIff(db, q.account.value, q.notBefore.value, now, id);
    }
  }

  lemma {:induction false} DecodingFailsPlainly(db: Database, account: Option<string>, ids: seq<int>)
    ensures DecodeAll(db, account, ids) != Err(InvalidBounds) && DecodeAll(db, account, ids) != Err(UnsupportedSchema)
  {
    if ids != [] {
      DecodingFailsPlainly(db, account, ids[..|ids| - 1]);
    }
  }

  /** Which queries are refused outright, and that any other returns a page when its rows decode. */
  lemma PageIsRefusedIff(db: Database, q: Query, now: int)
    ensures Page(db, q, now) == Err(InvalidBounds) <==>
              || q.after < 0 || q.limit < 1 || q.limit > 1000
              || (q.through.Some? && q.through.value < q.after)
              || (q.notBefore.Some? && q.through.None? && q.after != 0)
              || (q.notBefore.Some? && q.through.Some? && q.after == 0)
    ensures Page(db, q, now) == Err(UnsupportedSchema) <==>
              && Page(db, q, now) != Err(InvalidBounds)
              && (|| !db.hasReactions
                  || (q.notBefore.Some? && (q.account in {None, Some("")} || !db.hasAccounts || !db.hasDateIndex)))
    ensures (forall id | id in db.messages :: DecodeRow(db, q.account, id).Ok?) ==>
              || Page(db, q, now).Ok? || Page(db, q, now) in {Err(InvalidBounds), Err(UnsupportedSchema)}
  {
    if q.limit > 0 {
      var taken := Limited(RawIds(db, q, now), q.limit);
      DecodingFailsPlainly(db, q.account, taken);
      RawIdsInScope(db, q, now);
      assert forall id | id in taken :: id in RawIds(db, q, now);
    }
  }

  /**
   A row keeps only its position exactly when it is not a plain or link message, has no chat under a
   positive id, or has one chat, which can be read and belongs to another account.
   */
  lemma SkippedRowIff(db: Database, account: Option<string>, id: int)
    ensures DecodeRow(db, account, id) == Ok(Skipped(id)) <==>
              && id in db.messages
              && var m := db.messages[id];
              || m.kind != 0 || m.balloon == OtherBalloon || m.links == [] || m.links[0] <= 0
              || (&& account.Some? && m.links[0] in db.chats && db.chats[m.links[0]].account != account
                  && (forall l | l in m.links :: l == m.links[0])
                  && |db.chats[m.links[0]].handles| <= 256
                  && forall h | h in db.chats[m.links[0]].handles :: ByteLen(h) <= 320)
  {
    if id in db.messages && db.messages[id].links != [] && db.messages[id].links[0] in db.chats {
      var chat := ChatInfo(db.messages[id].links[0], db.chats[db.messages[id].links[0]]);
      MessagesAreShown(id, db.messages[id], chat);
    }
  }

  lemma MessagesAreShown(id: int, m: MessageRow, chat: ChatInfo)
    ensures DecodeMessage(id, m, chat).Ok? ==> DecodeMessage(id, m, chat).value.Shown?
  {
  }
}
