/**
 Which pages are short enough for the stream (internal/backend/backend.go, internal/backend/stream.go):
 the producer bounds a message, but neither the names of a chat nor a whole page.
 */
module PageSizes {
  import opened Lists
  import opened Wrappers
  import opened Text
  import opened Clock
  import opened Lengths
  import opened MessageStore
  import opened Collection

  /** What each row adds to the output. */
  function RowSizes(rows: seq<SafeRow>): seq<nat> { seq(|rows|, i requires 0 <= i < |rows| => RowLen(rows[i]) + 1) }

  lemma {:induction false} RowLinesSize(p: SafePage, n: nat)
    requires n <= |p.rows|
    ensures OutputSize(Lines(p)[..n]) == Sum(RowSizes(p.rows)[..n])
  {
    if n > 0 {
      RowLinesSize(p, n - 1);
      LineStep(Lines(p), n - 1);
      assert RowSizes(p.rows)[..n][..n - 1] == RowSizes(p.rows)[..n - 1];
    }
  }

  /** A page fits exactly when every line of it is short and the rows and the checkpoint fit together. */
  lemma FitsIff(p: SafePage)
    ensures WithinStream(Lines(p)) <==>
              && (forall r | r in p.rows :: RowLen(r) < MAX_LINE) && CheckpointLen(p) < MAX_LINE
              && Sum(RowSizes(p.rows)) + CheckpointLen(p) + 1 <= MAX_OUTPUT
  {
    var n := |p.rows|;
    RowLinesSize(p, n);
    LineStep(Lines(p), n);
    assert RowSizes(p.rows)[..n] == RowSizes(p.rows) && Lines(p)[..n + 1] == Lines(p);
    ShortLinesIff(p);
  }

  lemma ShortLinesIff(p: SafePage)
    ensures (forall l | l in Lines(p) :: l.size < MAX_LINE) <==>
            (forall r | r in p.rows :: RowLen(r) < MAX_LINE) && CheckpointLen(p) < MAX_LINE
  {
    var n := |p.rows|;
    assert Lines(p)[n] == CheckpointLine(p) && CheckpointLine(p) in Lines(p);
    assert forall i | 0 <= i < n :: Lines(p)[i] == RowLine(p.rows[i]) && Lines(p)[i] in Lines(p) && p.rows[i] in p.rows;
    if (forall r | r in p.rows :: RowLen(r) < MAX_LINE) && CheckpointLen(p) < MAX_LINE {
      forall l | l in Lines(p) ensures l.size < MAX_LINE {
        var i :| 0 <= i <= n && Lines(p)[i] == l;
      }
    }
  }

  // ------------------------------------------------------- pages that always fit

  /** The texts of a chat that its rows repeat. */
  function ChatBytes(c: ChatRow): nat {
    ByteLen(c.identifier) + ByteLen(c.guid) + ByteLen(c.service)
    + (if c.account.Some? then ByteLen(c.account.value) else 0) + ListBytes(c.handles)
  }

  /** All else a row's line can hold: the bounded texts of a message, numbers, keys and punctuation. */
  const ROW_REST := 400_146
  const CHECKPOINT_MOST := 152

  lemma ChatLenAtMost(c: ChatInfo)
    requires 0 <= c.id < INT64_END && |c.row.handles| <= 256
    ensures ChatLen(c) <= 884 + 6 * ChatBytes(c.row)
    ensures PrintedLen(c.row.identifier) + PrintedLen(c.row.guid) + PrintedListLen(c.row.handles) <=
            774 + 6 * ChatBytes(c.row)
  {
    Int64Len(c.id);
    PrintedCharsBounds(c.row.identifier);
    PrintedCharsBounds(c.row.guid);
    PrintedCharsBounds(c.row.service);
    PrintedListBounds(c.row.handles);
    if c.row.account.Some? {
      PrintedCharsBounds(c.row.account.value);
    }
  }

  /** A decoded row's line grows with its chat's texts alone. */
  lemma RowLenAtMost(db: Database, account: Option<string>, r: SafeRow)
    requires DecodeRow(db, account, r.id) == Ok(r)
    requires 0 <= r.id < INT64_END && (r.Shown? ==> r.chat.id < INT64_END)
    ensures RowLen(r) <= ROW_REST + if r.Shown? then 12 * ChatBytes(r.chat.row) else 0
  {
    Int64Len(r.id);
    if r.Shown? {
      ShownRowIff(db, account, r.id, r.message, r.chat);
      ChatLenAtMost(r.chat);
      Int64Len(r.chat.id);
      PrintedCharsBounds(r.message.guid);
      PrintedCharsBounds(r.message.sender);
      PrintedCharsBounds(r.message.text);
    }
  }

  /** Positions and chat ids of a query's page are 64-bit. */
  ghost predicate Is64Bit(db: Database, q: Query) {
    && (forall id | id in db.messages :: id < INT64_END) && (forall c | c in db.chats :: c < INT64_END)
    && q.after < INT64_END && (q.through.Some? ==> q.through.value < INT64_END)
  }

  lemma CheckpointAtMost(db: Database, q: Query, now: int)
    requires Page(db, q, now).Ok? && Is64Bit(db, q)
    ensures CheckpointLen(Page(db, q, now).value) <= CHECKPOINT_MOST
    ensures forall r | r in Page(db, q, now).value.rows ::
              0 < r.id < INT64_END && DecodeRow(db, q.account, r.id) == Ok(r) && (r.Shown? ==> r.chat.id < INT64_END)
  {
    var p := Page(db, q, now).value;
    RawIdsAreAbove(db, q, now);
    forall r | r in p.rows
      ensures 0 < r.id < INT64_END && DecodeRow(db, q.account, r.id) == Ok(r) && (r.Shown? ==> r.chat.id < INT64_END)
    {
      var i :| 0 <= i < |p.rows| && p.rows[i] == r;
      assert RawIds(db, q, now)[i] in RawIds(db, q, now);
      if r.Shown? {
        ShownRowIff(db, q.account, r.id, r.message, r.chat);
      }
    }
    var taken := Limited(RawIds(db, q, now), q.limit);
    assert taken != [] ==> taken[|taken| - 1] in RawIds(db, q, now);
    Int64Len(p.through);
    Int64Len(p.scanned);
  }

  lemma RawIdsAreAbove(db: Database, q: Query, now: int)
    requires GoodBounds(q) && Is64Bit(db, q)
    ensures forall id | id in RawIds(db, q, now) :: q.after < id < INT64_END
    ensures 0 <= Upper(db, q) < INT64_END
  {
    IdsInMembers(Scope(db, q, now), q.after, Upper(db, q));
    if q.notBefore.Some? {
      JoinRowsMembers(db, Listing(db, q, now));
    }
  }

  /**
   Every page of at most limit rows fits whose chats' texts are small enough for the two bounds; these are
   limits on the configuration and the table, not on the page.
   */
  lemma ModestPagesFit(db: Database, q: Query, now: int, most: nat)
    requires Page(db, q, now).Ok? && Is64Bit(db, q)
    requires forall r | r in Page(db, q, now).value.rows && r.Shown? :: ChatBytes(r.chat.row) <= most
    requires ROW_REST + 12 * most < MAX_LINE
    requires q.limit * (ROW_REST + 12 * most + 1) + CHECKPOINT_MOST + 1 <= MAX_OUTPUT
    ensures WithinStream(Lines(Page(db, q, now).value))
  {
    var p := Page(db, q, now).value;
    CheckpointAtMost(db, q, now);
    forall r | r in p.rows ensures RowLen(r) <= ROW_REST + 12 * most {
      RowLenAtMost(db, q.account, r);
    }
    ShortRowsFit(p, q.limit, ROW_REST + 12 * most);
  }

  lemma ShortRowsFit(p: SafePage, limit: nat, most: nat)
    requires |p.rows| <= limit && CheckpointLen(p) <= CHECKPOINT_MOST
    requires (forall r | r in p.rows :: RowLen(r) <= most) && most < MAX_LINE
    requires limit * (most + 1) + CHECKPOINT_MOST + 1 <= MAX_OUTPUT
    ensures WithinStream(Lines(p))
  {
    forall n | n in RowSizes(p.rows) ensures n <= most + 1 {
      var i :| 0 <= i < |p.rows| && n == RowSizes(p.rows)[i];
      assert p.rows[i] in p.rows;
    }
    SumAtMost(RowSizes(p.rows), most + 1);
    Times(|p.rows|, limit, most + 1);
    FitsIff(p);
  }

  lemma {:induction false} ShortHandles(hs: seq<string>, most: nat)
    requires forall h | h in hs :: ByteLen(h) <= most
    ensures ListBytes(hs) <= |hs| * most
  {
    if hs != [] {
      assert hs[0] in hs;
      ShortHandles(hs[1..], most);
      OneMore(|hs| - 1, most);
    }
  }

  /** The bounds that the broker itself puts on a chat it shows, and on account ids. */
  predicate ModestNames(c: ChatRow) {
    && ByteLen(c.identifier) <= 512 && ByteLen(c.guid) <= 512 && ByteLen(c.service) <= 64
    && (c.account.Some? ==> ByteLen(c.account.value) <= 128)
  }

  lemma ModestChatBytes(db: Database, account: Option<string>, r: SafeRow)
    requires r.Shown? && DecodeRow(db, account, r.id) == Ok(r)
    requires forall c | c in db.chats :: ModestNames(db.chats[c])
    ensures ChatBytes(r.chat.row) <= 83_136
  {
    ShownRowIff(db, account, r.id, r.message, r.chat);
    ShortHandles(r.chat.row.handles, 320);
  }

  /** With chats the broker could show, pages of up to 48 rows always fit, whatever their messages and members. */
  lemma SmallPagesFit(db: Database, q: Query, now: int)
    requires Page(db, q, now).Ok? && Is64Bit(db, q) && q.limit <= 48
    requires forall c | c in db.chats :: ModestNames(db.chats[c])
    ensures WithinStream(Lines(Page(db, q, now).value))
  {
    var p := Page(db, q, now).value;
    CheckpointAtMost(db, q, now);
    forall r | r in p.rows && r.Shown? ensures ChatBytes(r.chat.row) <= 83_136 {
      ModestChatBytes(db, q.account, r);
    }
    ModestPagesFit(db, q, now, 83_136);
  }

  // ------------------------------------------------------------- smaller pages

  lemma {:induction false} DecodedPrefix(db: Database, account: Option<string>, ids: seq<int>, n: nat)
    requires DecodeAll(db, account, ids).Ok? && n <= |ids|
    ensures DecodeAll(db, account, ids[..n]) == Ok(DecodeAll(db, account, ids).value[..n])
    decreases |ids| - n
  {
    var rows := DecodeAll(db, account, ids).value;
    if n < |ids| {
      DecodedPrefix(db, account, ids, n + 1);
      assert ids[..n + 1][..n] == ids[..n] && rows[..n + 1][..n] == rows[..n];
    } else {
      assert ids[..n] == ids && rows[..n] == rows;
    }
  }

  lemma SameListing(db: Database, q: Query, now: int, limit: nat)
    ensures RawIds(db, q.(limit := limit), now) == RawIds(db, q, now)
    ensures Upper(db, q.(limit := limit)) == Upper(db, q)
  {
    assert Scope(db, q.(limit := limit), now) == Scope(db, q, now);
  }

  /** A lower limit cuts the same listing earlier. */
  lemma SmallerPage(db: Database, q: Query, now: int, limit: nat)
    requires Page(db, q, now).Ok? && 1 <= limit <= q.limit
    ensures var small := Page(db, q.(limit := limit), now);
            var rows := Page(db, q, now).value.rows;
            && small.Ok? && small.value.through == Page(db, q, now).value.through
            && (if |rows| <= limit then small == Page(db, q, now) else small.value.rows == rows[..limit])
  {
    SameListing(db, q, now, limit);
    var raw := RawIds(db, q, now);
    var ids := Limited(raw, q.limit);
    if |ids| > limit {
      DecodedPrefix(db, q.account, ids, limit);
      assert ids[..limit] == Limited(raw, limit);
    }
  }

  lemma {:induction false} SumOfPrefix(ns: seq<nat>, n: nat)
    requires n <= |ns|
    ensures Sum(ns[..n]) <= Sum(ns) && (n < |ns| ==> Sum(ns[..n]) + ns[n] <= Sum(ns))
    decreases |ns| - n
  {
    if n < |ns| {
      SumOfPrefix(ns, n + 1);
      assert ns[..n + 1][..n] == ns[..n];
    } else {
      assert ns[..n] == ns;
    }
  }

  lemma CheckpointsAreAlike(db: Database, q: Query, now: int, limit: nat)
    requires Page(db, q, now).Ok? && Is64Bit(db, q) && 1 <= limit <= q.limit
    ensures var small := Page(db, q.(limit := limit), now);
            small.Ok? && CheckpointLen(small.value) <= CheckpointLen(Page(db, q, now).value) + 19
                      && CheckpointLen(small.value) <= CHECKPOINT_MOST
  {
    SmallerPage(db, q, now, limit);
    var page, small := Page(db, q, now).value, Page(db, q.(limit := limit), now).value;
    CheckpointAtMost(db, q.(limit := limit), now);
    RawIdsAreAbove(db, q, now);
    RawIdsAreAbove(db, q.(limit := limit), now);
    var few := Limited(RawIds(db, q.(limit := limit), now), limit);
    assert few != [] ==> few[|few| - 1] in RawIds(db, q.(limit := limit), now);
    Int64Len(small.scanned);
    assert IntLen(page.scanned) >= 1;
  }

  /** When a page fits, so does the page of every lower limit. */
  lemma SmallerPagesFit(db: Database, q: Query, now: int, limit: nat)
    requires Page(db, q, now).Ok? && Is64Bit(db, q) && 1 <= limit <= q.limit
    requires WithinStream(Lines(Page(db, q, now).value))
    ensures var small := Page(db, q.(limit := limit), now);
            small.Ok? && WithinStream(Lines(small.value))
  {
    SmallerPage(db, q, now, limit);
    var page, small := Page(db, q, now).value, Page(db, q.(limit := limit), now).value;
    if small != page {
      CheckpointsAreAlike(db, q, now, limit);
      FewerRowsFit(page, small, limit);
    }
  }

  /** A row dropped outweighs whatever the checkpoint may gain. */
  lemma FewerRowsFit(page: SafePage, small: SafePage, n: nat)
    requires WithinStream(Lines(page)) && n < |page.rows| && small.rows == page.rows[..n]
    requires CheckpointLen(small) <= CheckpointLen(page) + 19 && CheckpointLen(small) < MAX_LINE
    ensures WithinStream(Lines(small))
  {
    FitsIff(page);
    FitsIff(small);
    FewerRowsAreSmaller(page.rows, n);
    assert forall r | r in small.rows :: r in page.rows;
  }

  lemma FewerRowsAreSmaller(rows: seq<SafeRow>, n: nat)
    requires n < |rows|
    ensures Sum(RowSizes(rows[..n])) + 25 <= Sum(RowSizes(rows))
  {
    assert RowSizes(rows[..n]) == RowSizes(rows)[..n];
    SumOfPrefix(RowSizes(rows), n);
    assert RowLen(rows[n]) >= ROW_KEYS;
  }

  // --------------------------------------------------------- pages that never fit

  /** Members are printed twice in every row, so a full page of a large conversation exceeds the output bound. */
  lemma LargePageIsRefused(db: Database, q: Query, now: int, least: nat)
    requires Page(db, q, now).Ok?
    requires forall r | r in Page(db, q, now).value.rows :: r.Shown? && ListBytes(r.chat.row.handles) >= least
    requires |Page(db, q, now).value.rows| * (2 * least + 1) > MAX_OUTPUT
    ensures !WithinStream(Lines(Page(db, q, now).value)) && !Accepted(db, q, now)
  {
    var p := Page(db, q, now).value;
    forall r | r in p.rows ensures RowLen(r) >= 2 * least {
      PrintedListBounds(r.chat.row.handles);
    }
    LongRowsOverflow(p, 2 * least);
  }

  lemma LongRowsOverflow(p: SafePage, least: nat)
    requires (forall r | r in p.rows :: RowLen(r) >= least) && |p.rows| * (least + 1) > MAX_OUTPUT
    ensures !WithinStream(Lines(p))
  {
    forall n | n in RowSizes(p.rows) ensures n >= least + 1 {
      var i :| 0 <= i < |p.rows| && n == RowSizes(p.rows)[i];
      assert p.rows[i] in p.rows;
    }
    SumAtLeast(RowSizes(p.rows), least + 1);
    FitsIff(p);
  }

  /** The chat's identifier is printed twice as well, and nothing bounds it. */
  lemma LongNameMakesALongRow(r: SafeRow)
    requires r.Shown? && 2 * ByteLen(r.chat.row.identifier) >= MAX_LINE
    ensures RowLen(r) >= MAX_LINE
  {
    PrintedCharsBounds(r.chat.row.identifier);
  }

  /** One line of the line bound or more spoils every page it is on. */
  lemma LongRowIsRefused(db: Database, q: Query, now: int, r: SafeRow)
    requires Page(db, q, now).Ok? && r in Page(db, q, now).value.rows && RowLen(r) >= MAX_LINE
    ensures !WithinStream(Lines(Page(db, q, now).value)) && !Accepted(db, q, now)
  {
    FitsIff(Page(db, q, now).value);
  }
}
