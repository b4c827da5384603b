/**
 The snapshot of the selected contact lists (macos/ContactsCore.swift), and its agreement with the
 broker that asked for it (internal/contacts/source.go).
 */
module ContactsSnapshot {
  import opened Lists
  import opened Wrappers
  import opened Text
  import C = Contacts
  import I = Identity

  datatype Record = Record(id: string, phones: seq<string>, emails: seq<string>)

  /** What the Contacts framework answers during one call: the revision is asked for twice. */
  datatype Store = Store(
    before: Result<int, C.Error>,
    containers: Result<seq<string>, C.Error>,
    groups: Result<seq<string>, C.Error>,
    members: string -> Result<seq<Record>, C.Error>,
    after: Result<int, C.Error>)

  type Records = map<string, Record>

  predicate IsBounded(s: string) { s != "" && ByteLen(s) <= 512 && '\0' !in s }

  predicate AllBounded(ids: seq<string>) { forall id | id in ids :: IsBounded(id) }

  predicate RecordOk(c: Record) {
    && IsBounded(c.id) && |c.phones| <= 100 && |c.emails| <= 100
    && C.ShortFields(c.phones + c.emails)
  }

  predicate ArgumentsOk(containerId: string, groupIds: Option<seq<string>>, limit: int) {
    && IsBounded(containerId) && 0 < limit <= 10000
    && (groupIds.Some? ==>
          groupIds.value != [] && |groupIds.value| <= 100 && AllBounded(groupIds.value) && Distinct(groupIds.value))
  }

  /** One list's members merged into the records, in list order. */
  function AddAll(records: Records, members: seq<Record>, limit: int): Result<Records, C.Error>
    decreases |members|
  {
    if members == [] then Ok(records)
    else
      var c := members[0];
      if !RecordOk(c) then Err(C.Overflow)
      else if c.id in records && records[c.id] != c then Err(C.StoreChanged)
      else if |records[c.id := c]| > limit then Err(C.Overflow)
      else AddAll(records[c.id := c], members[1..], limit)
  }

  function AddLists(store: Store, ids: seq<string>, records: Records, limit: int): Result<Records, C.Error> {
    if ids == [] then Ok(records)
    else
      match store.members(ids[0])
      case Err(e) => Err(e)
      case Ok(list) =>
        if |list| > limit then Err(C.Overflow)
        else
          match AddAll(records, list, limit)
          case Err(e) => Err(e)
          case Ok(more) => AddLists(store, ids[1..], more, limit)
  }

  /** The lists asked for, or every list of the container. */
  function Selected(groups: seq<string>, groupIds: Option<seq<string>>): seq<string> {
    if groupIds.Some? then groupIds.value else groups
  }

  /** The selection, or why it cannot be made. */
  function Selection(store: Store, containerId: string, groupIds: Option<seq<string>>, limit: int)
    : Result<seq<string>, C.Error>
  {
    if !ArgumentsOk(containerId, groupIds, limit) then Err(C.Invalid)
    else if store.before.Err? then Err(store.before.error)
    else if store.containers.Err? then Err(store.containers.error)
    else if |store.containers.value| > 100 then Err(C.Overflow)
    else if multiset(store.containers.value)[containerId] != 1 then Err(C.SelectionMissing)
    else if store.groups.Err? then Err(store.groups.error)
    else
      var groups := store.groups.value;
      var selected := Selected(groups, groupIds);
      if |groups| > 1000 || |selected| > 100 then Err(C.Overflow)
      else if !AllBounded(selected) || !Distinct(groups) then Err(C.Invalid)
      else if !(Elements(selected) <= Elements(groups)) then Err(C.SelectionMissing)
      else Ok(Sort(selected))
  }

  /** The card as it is sent. */
  function Card(c: Record): C.Contact { C.Contact(c.id, Some(c.phones), Some(c.emails)) }

  function Cards(ids: seq<string>, records: Records): seq<C.Contact>
    requires forall id | id in ids :: id in records
  {
    seq(|ids|, i requires 0 <= i < |ids| => Card(records[ids[i]]))
  }

  ghost function Taken(store: Store, containerId: string, groupIds: Option<seq<string>>, limit: int)
    : Result<C.Snapshot, C.Error>
  {
    match Selection(store, containerId, groupIds, limit)
    case Err(e) => Err(e)
    case Ok(ids) =>
      match AddLists(store, ids, map[], limit)
      case Err(e) => Err(e)
      case Ok(records) =>
        if store.after.Err? then Err(store.after.error)
        else if store.after.value != store.before.value then Err(C.StoreChanged)
        else Ok(C.Snapshot(containerId, Some(ids), Some(Cards(Ordered(records.Keys), records)), true))
  }

  /** The members of a set in order. */
  ghost function Ordered(s: set<string>): (ids: seq<string>)
    ensures Sorted(ids) && Distinct(ids) && Elements(ids) == s && forall id | id in ids :: id in s
  {
    OrderExists(s);
    var ids :| Sorted(ids) && Distinct(ids) && Elements(ids) == s;
    assert forall id | id in ids :: id in Elements(ids);
    ids
  }

  lemma {:induction false} Enumerate(s: set<string>) returns (ids: seq<string>)
    ensures Distinct(ids) && Elements(ids) == s
    decreases |s|
  {
    ids := [];
    if s != {} {
      var x := Pick(s);
      var rest := Enumerate(s - {x});
      ids := rest + [x];
      assert x !in Elements(rest);
      assert Elements(ids) == Elements(rest) + {x};
    } else {
      assert Elements(ids) == {};
    }
  }

  lemma OrderExists(s: set<string>)
    ensures exists ids :: Sorted(ids) && Distinct(ids) && Elements(ids) == s
  {
    var ids := Enumerate(s);
    SortElements(ids);
    SortSorts(ids);
    assert Sorted(Sort(ids)) && Distinct(Sort(ids)) && Elements(Sort(ids)) == s;
  }

  method TakeSnapshot(store: Store, containerId: string, groupIds: Option<seq<string>>, limit: int)
    returns (r: Result<C.Snapshot, C.Error>)
    ensures r == Taken(store, containerId, groupIds, limit)
  {
    var selection := Selection(store, containerId, groupIds, limit);
    if selection.Err? {
      return Err(selection.error);
    }
    var ids := selection.value;
    var records: Records := map[];
    for i := 0 to |ids|
      invariant AddLists(store, ids, map[], limit) == AddLists(store, ids[i..], records, limit)
    {
      var members := store.members(ids[i]);
      assert ids[i..][1..] == ids[i + 1..];
      if members.Err? {
        return Err(members.error);
      }
      if |members.value| > limit {
        return Err(C.Overflow);
      }
      ghost var before := records;
      for j := 0 to |members.value|
        invariant AddAll(before, members.value, limit) == AddAll(records, members.value[j..], limit)
      {
        var contact := members.value[j];
        assert members.value[j..][1..] == members.value[j + 1..];
        if !RecordOk(contact) {
          return Err(C.Overflow);
        }
        if contact.id in records && records[contact.id] != contact {
          return Err(C.StoreChanged);
        }
        records := records[contact.id := contact];
        if |records| > limit {
          return Err(C.Overflow);
        }
      }
    }
    if store.after.Err? {
      return Err(store.after.error);
    }
    if store.after.value != store.before.value {
      return Err(C.StoreChanged);
    }
    var order := C.InOrder(records.Keys);
    C.SortedSetUnique(order, Ordered(records.Keys));
    return Ok(C.Snapshot(containerId, Some(ids), Some(Cards(order, records)), true));
  }

  // ------------------------------------------------------------- the union

  /** Everything on the given lists, list after list. */
  function Pool(store: Store, ids: seq<string>): seq<Record> {
    if ids == [] then []
    else (if store.members(ids[0]).Ok? then store.members(ids[0]).value else []) + Pool(store, ids[1..])
  }

  function IdSet(members: seq<Record>): set<string> { set c | c in members :: c.id }

  predicate ListsOk(store: Store, ids: seq<string>, limit: int) {
    forall id | id in ids :: store.members(id).Ok? && |store.members(id).value| <= limit
  }

  lemma {:induction false} AddAllConcat(records: Records, a: seq<Record>, b: seq<Record>, limit: int)
    ensures AddAll(records, a + b, limit) ==
            match AddAll(records, a, limit) { case Err(e) => Err(e) case Ok(more) => AddAll(more, b, limit) }
    decreases |a|
  {
    if a == [] {
      assert a + b == b;
    } else {
      assert (a + b)[1..] == a[1..] + b;
      AddAllConcat(records[a[0].id := a[0]], a[1..], b, limit);
    }
  }

  lemma {:induction false} AddListsIsOnePass(store: Store, ids: seq<string>, records: Records, limit: int)
    ensures AddLists(store, ids, records, limit).Ok? <==>
              ListsOk(store, ids, limit) && AddAll(records, Pool(store, ids), limit).Ok?
    ensures AddLists(store, ids, records, limit).Ok? ==>
              AddLists(store, ids, records, limit) == AddAll(records, Pool(store, ids), limit)
    decreases |ids|
  {
    if ids != [] {
      var answer := store.members(ids[0]);
      assert ids == [ids[0]] + ids[1..];
      if answer.Ok? {
        AddAllConcat(records, answer.value, Pool(store, ids[1..]), limit);
        var more := AddAll(records, answer.value, limit);
        if more.Ok? {
          AddListsIsOnePass(store, ids[1..], more.value, limit);
        }
      }
    }
  }

  /** The members agree with the records and with each other wherever ids coincide. */
  ghost predicate Agree(records: Records, members: seq<Record>) {
    && (forall c | c in members && c.id in records :: records[c.id] == c)
    && (forall c, d | c in members && d in members && c.id == d.id :: c == d)
  }

  ghost predicate Mergeable(records: Records, members: seq<Record>, limit: int) {
    && (forall c | c in members :: RecordOk(c)) && Agree(records, members)
    && |records.Keys + IdSet(members)| <= limit
  }

  ghost predicate IsUnion(records: Records, members: seq<Record>, all: Records) {
    && all.Keys == records.Keys + IdSet(members)
    && (forall c | c in members :: all[c.id] == c) && (forall k | k in records :: all[k] == records[k])
  }

  /** Merging succeeds exactly for acceptable members that agree and fit, and gives their union. */
  lemma {:induction false} AddAllMeaning(records: Records, members: seq<Record>, limit: int)
    requires |records| <= limit
    ensures AddAll(records, members, limit).Ok? <==> Mergeable(records, members, limit)
    ensures AddAll(records, members, limit).Ok? ==> IsUnion(records, members, AddAll(records, members, limit).value)
    decreases |members|
  {
    if members == [] {
      assert records.Keys + IdSet(members) == records.Keys;
    } else {
      var c, rest := members[0], members[1..];
      var more := records[c.id := c];
      MergeableStep(records, members, limit);
      if RecordOk(c) && (c.id in records ==> records[c.id] == c) && |more| <= limit {
        AddAllMeaning(more, rest, limit);
        if AddAll(more, rest, limit).Ok? {
          UnionStep(records, members, AddAll(more, rest, limit).value);
        }
      }
    }
  }

  lemma MergeableStep(records: Records, members: seq<Record>, limit: int)
    requires members != []
    ensures var c := members[0];
            Mergeable(records, members, limit) <==>
              && RecordOk(c) && (c.id in records ==> records[c.id] == c)
              && |records[c.id := c]| <= limit && Mergeable(records[c.id := c], members[1..], limit)
  {
    SizeStep(records, members, limit);
    OkStep(members);
    if members[0].id in records ==> records[members[0].id] == members[0] {
      AgreeStep(records, members);
    } else {
      assert members[0] in members;
    }
  }

  lemma OkStep(members: seq<Record>)
    requires members != []
    ensures (forall c | c in members :: RecordOk(c)) <==>
            RecordOk(members[0]) && (forall c | c in members[1..] :: RecordOk(c))
  {
    assert forall d :: d in members <==> d == members[0] || d in members[1..];
  }

  lemma SizeStep(records: Records, members: seq<Record>, limit: int)
    requires members != []
    ensures var more := records[members[0].id := members[0]];
            && |more| <= |more.Keys + IdSet(members[1..])|
            && more.Keys + IdSet(members[1..]) == records.Keys + IdSet(members)
  {
    var c, rest := members[0], members[1..];
    var more := records[c.id := c];
    IdSetStep(members);
    KeysStep(records, c);
    assert records.Keys + {c.id} + IdSet(rest) == records.Keys + ({c.id} + IdSet(rest));
    SubsetSize(more.Keys, more.Keys + IdSet(rest));
  }

  lemma KeysStep(records: Records, c: Record)
    ensures records[c.id := c].Keys == records.Keys + {c.id} && |records[c.id := c]| == |records[c.id := c].Keys|
  {
  }

  lemma UnionStep(records: Records, members: seq<Record>, all: Records)
    requires members != [] && (members[0].id in records ==> records[members[0].id] == members[0])
    requires IsUnion(records[members[0].id := members[0]], members[1..], all)
    ensures IsUnion(records, members, all)
  {
    IdSetStep(members);
    assert forall d :: d in members <==> d == members[0] || d in members[1..];
  }

  lemma IdSetStep(members: seq<Record>)
    requires members != []
    ensures IdSet(members) == {members[0].id} + IdSet(members[1..])
  {
    assert forall d :: d in members <==> d == members[0] || d in members[1..];
  }

  lemma AgreeStep(records: Records, members: seq<Record>)
    requires members != [] && (members[0].id in records ==> records[members[0].id] == members[0])
    ensures Agree(records, members) <==> Agree(records[members[0].id := members[0]], members[1..])
  {
    var c, rest := members[0], members[1..];
    assert forall d :: d in members <==> d == c || d in rest;
  }

  // ------------------------------------------------------------ what is sent

  /** The members of the selected lists, when every list could be read. */
  ghost predicate IsMember(store: Store, ids: seq<string>, c: Record) {
    exists id | id in ids :: store.members(id).Ok? && c in store.members(id).value
  }

  lemma {:induction false} PoolMeaning(store: Store, ids: seq<string>, c: Record)
    ensures c in Pool(store, ids) <==> IsMember(store, ids, c)
  {
    if ids != [] {
      PoolMeaning(store, ids[1..], c);
      assert ids == [ids[0]] + ids[1..];
      if IsMember(store, ids, c) {
        var id :| id in ids && store.members(id).Ok? && c in store.members(id).value;
        assert id == ids[0] || id in ids[1..];
      }
    }
  }

  /** An identifier that may be asked for, or answered. */
  ghost predicate GoodId(s: string) { 0 < ByteLen(s) <= 512 && forall c | c in s :: c != '\0' }

  /** All that a selection needs: sound arguments, the container just once, and the lists asked for among its lists. */
  ghost predicate CanSelect(store: Store, containerId: string, groupIds: Option<seq<string>>, limit: int) {
    && GoodId(containerId) && 1 <= limit <= 10_000
    && (groupIds.Some? ==>
          && 1 <= |groupIds.value| <= 100 && Distinct(groupIds.value) && forall id | id in groupIds.value :: GoodId(id))
    && store.before.Ok? && store.containers.Ok? && |store.containers.value| <= 100
    && (exists i :: 0 <= i < |store.containers.value| && store.containers.value[i] == containerId)
    && (forall i, j | 0 <= i < j < |store.containers.value| ::
          store.containers.value[i] != containerId || store.containers.value[j] != containerId)
    && store.groups.Ok? && |store.groups.value| <= 1000 && Distinct(store.groups.value)
    && match groupIds
       case Some(ids) => forall id | id in ids :: id in store.groups.value
       case None => |store.groups.value| <= 100 && forall id | id in store.groups.value :: GoodId(id)
  }

  lemma BoundedIff(s: string)
    ensures IsBounded(s) <==> GoodId(s)
  {
  }

  lemma {:induction false} OccursOnce(s: seq<string>, x: string)
    ensures multiset(s)[x] >= 1 <==> exists i :: 0 <= i < |s| && s[i] == x
    ensures multiset(s)[x] <= 1 <==> forall i, j | 0 <= i < j < |s| :: s[i] != x || s[j] != x
  {
    if s != [] {
      var n := |s| - 1;
      OccursOnce(s[..n], x);
      assert s == s[..n] + [s[n]];
      assert multiset(s)[x] == multiset(s[..n])[x] + if s[n] == x then 1 else 0;
      assert forall i | 0 <= i < n :: s[..n][i] == s[i];
    }
  }

  /** When a selection is made, and of what: the lists asked for, or all lists of the container, sorted. */
  lemma SelectionIff(store: Store, containerId: string, groupIds: Option<seq<string>>, limit: int)
    ensures var r := Selection(store, containerId, groupIds, limit);
            && (r.Ok? <==> CanSelect(store, containerId, groupIds, limit))
            && (r.Ok? ==>
                  && Sorted(r.value) && Distinct(r.value)
                  && forall id :: id in r.value <==>
                       id in if groupIds.Some? then groupIds.value else store.groups.value)
  {
    forall s {
      BoundedIff(s);
    }
    if store.containers.Ok? {
      OccursOnce(store.containers.value, containerId);
    }
    if store.groups.Ok? {
      var selected := Selected(store.groups.value, groupIds);
      SortElements(selected);
      SortSorts(selected);
      assert forall id :: id in selected <==> id in Elements(selected);
      assert forall id :: id in Sort(selected) <==> id in Elements(Sort(selected));
    }
  }

  /** A contact that may be sent. */
  ghost predicate GoodRecord(c: Record) {
    && GoodId(c.id) && |c.phones| <= 100 && |c.emails| <= 100
    && forall f | f in c.phones || f in c.emails :: ByteLen(f) <= 512
  }

  lemma RecordIff(c: Record)
    ensures RecordOk(c) <==> GoodRecord(c)
  {
    BoundedIff(c.id);
    assert forall f :: f in c.phones + c.emails <==> f in c.phones || f in c.emails;
  }

  /** The selected members are acceptable, tell the same story of each contact, and fit. */
  ghost predicate Collectable(store: Store, ids: seq<string>, limit: int) {
    && ListsOk(store, ids, limit)
    && (forall c | IsMember(store, ids, c) :: GoodRecord(c))
    && (forall c, d | IsMember(store, ids, c) && IsMember(store, ids, d) && c.id == d.id :: c == d)
    && |IdSet(Pool(store, ids))| <= limit
  }

  /** The card list holds exactly the selected members, once each and in order of their ids. */
  ghost predicate IsSortedUnion(store: Store, ids: seq<string>, cards: seq<C.Contact>) {
    && Sorted(C.Ids(cards)) && Distinct(C.Ids(cards))
    && (forall c | IsMember(store, ids, c) :: C.Contact(c.id, Some(c.phones), Some(c.emails)) in cards)
    && (forall card | card in cards ::
          exists c | IsMember(store, ids, c) :: card == C.Contact(c.id, Some(c.phones), Some(c.emails)))
  }

  /** A snapshot is taken exactly of a sound selection in an unchanged store, and is the sorted union. */
  lemma TakenIff(store: Store, containerId: string, groupIds: Option<seq<string>>, limit: int)
    ensures var selection := Selection(store, containerId, groupIds, limit);
            var r := Taken(store, containerId, groupIds, limit);
            && (r.Ok? <==> selection.Ok? && Collectable(store, selection.value, limit) && store.after == store.before)
            && (r.Ok? ==>
                  && r.value.complete && r.value.containerId == containerId && r.value.groupIds == Some(selection.value)
                  && r.value.contacts.Some? && IsSortedUnion(store, selection.value, r.value.contacts.value))
  {
    var selection := Selection(store, containerId, groupIds, limit);
    if selection.Ok? {
      var ids := selection.value;
      AddListsMeaning(store, ids, limit);
      if AddLists(store, ids, map[], limit).Ok? {
        CardsAreTheUnion(store, ids, AddLists(store, ids, map[], limit).value);
      }
    }
  }

  lemma AddListsMeaning(store: Store, ids: seq<string>, limit: int)
    requires 0 < limit
    ensures var r := AddLists(store, ids, map[], limit);
            && (r.Ok? <==> Collectable(store, ids, limit))
            && (r.Ok? ==> IsUnion(map[], Pool(store, ids), r.value))
  {
    AddListsIsOnePass(store, ids, map[], limit);
    AddAllMeaning(map[], Pool(store, ids), limit);
    var none: Records := map[];
    assert none.Keys + IdSet(Pool(store, ids)) == IdSet(Pool(store, ids));
    forall c {
      PoolMeaning(store, ids, c);
    }
    forall c ensures RecordOk(c) <==> GoodRecord(c) {
      RecordIff(c);
    }
  }

  lemma CardsAreTheUnion(store: Store, ids: seq<string>, records: Records)
    requires IsUnion(map[], Pool(store, ids), records)
    ensures IsSortedUnion(store, ids, Cards(Ordered(records.Keys), records))
  {
    var order := Ordered(records.Keys);
    var cards := Cards(order, records);
    assert C.Ids(cards) == order by {
      forall i | 0 <= i < |order| ensures records[order[i]].id == order[i] {
        RecordOfKey(store, ids, records, order[i]);
      }
    }
    forall c | IsMember(store, ids, c) ensures Card(c) in cards {
      PoolMeaning(store, ids, c);
      assert c.id in Elements(order);
      var i :| 0 <= i < |order| && order[i] == c.id;
      assert cards[i] == Card(c);
    }
    forall card | card in cards ensures exists c | IsMember(store, ids, c) :: card == Card(c) {
      var i :| 0 <= i < |cards| && cards[i] == card;
      RecordOfKey(store, ids, records, order[i]);
    }
  }

  lemma RecordOfKey(store: Store, ids: seq<string>, records: Records, key: string)
    requires IsUnion(map[], Pool(store, ids), records) && key in records
    ensures records[key].id == key && IsMember(store, ids, records[key])
  {
    var none: Records := map[];
    assert key in none.Keys + IdSet(Pool(store, ids));
    var c :| c in Pool(store, ids) && c.id == key;
    PoolMeaning(store, ids, c);
  }

  /** Whatever snapshot the helper takes for a configuration, the broker with that configuration accepts. */
  lemma TakenIsAccepted(store: Store, cfg: C.Source)
    requires Taken(store, cfg.containerId, cfg.groupIds, cfg.maxContacts).Ok?
    ensures C.Acceptable(cfg, Taken(store, cfg.containerId, cfg.groupIds, cfg.maxContacts).value)
  {
    var limit := cfg.maxContacts;
    var ids := Selection(store, cfg.containerId, cfg.groupIds, limit).value;
    var s := Taken(store, cfg.containerId, cfg.groupIds, limit).value;
    TakenIff(store, cfg.containerId, cfg.groupIds, limit);
    SelectionGroups(store, cfg, s);
    CardsFit(store, ids, limit, s.contacts.value);
    SentCardsOk(store, ids, limit, s.contacts.value);
    assert ids == [] ==> IdSet(Pool(store, ids)) == {};
  }

  lemma SelectionGroups(store: Store, cfg: C.Source, s: C.Snapshot)
    requires Selection(store, cfg.containerId, cfg.groupIds, cfg.maxContacts).Ok?
    requires s.groupIds == Some(Selection(store, cfg.containerId, cfg.groupIds, cfg.maxContacts).value)
    ensures |s.groupIds.value| <= 100 && (cfg.groupIds.Some? ==> |s.groupIds.value| == |cfg.groupIds.value|)
    ensures C.GroupsOk(cfg, s.groupIds.value)
  {
    var selected := Selected(store.groups.value, cfg.groupIds);
    SortElements(selected);
    assert forall id | id in s.groupIds.value :: id in Elements(Sort(selected));
  }

  lemma CardsFit(store: Store, ids: seq<string>, limit: int, cards: seq<C.Contact>)
    requires Collectable(store, ids, limit) && IsSortedUnion(store, ids, cards)
    ensures |cards| <= |IdSet(Pool(store, ids))| <= limit
  {
    DistinctCard(C.Ids(cards));
    forall id | id in Elements(C.Ids(cards)) ensures id in IdSet(Pool(store, ids)) {
      var i :| 0 <= i < |cards| && C.Ids(cards)[i] == id;
      assert cards[i] in cards;
      var c :| IsMember(store, ids, c) && cards[i] == C.Contact(c.id, Some(c.phones), Some(c.emails));
      PoolMeaning(store, ids, c);
      assert c.id == id;
    }
    SubsetSize(Elements(C.Ids(cards)), IdSet(Pool(store, ids)));
  }

  lemma SentCardsOk(store: Store, ids: seq<string>, limit: int, cards: seq<C.Contact>)
    requires Collectable(store, ids, limit) && IsSortedUnion(store, ids, cards)
    ensures C.CardsOk(cards)
  {
    forall card | card in cards ensures C.CardOk(card) {
      var c :| IsMember(store, ids, c) && card == Card(c);
      RecordIff(c);
      SentCardOk(c);
    }
  }

  lemma SentCardOk(c: Record)
    requires RecordOk(c)
    ensures C.CardOk(Card(c))
  {
    assert forall f | f in c.phones || f in c.emails :: f in c.phones + c.emails;
  }

  /** End to end: the identities granted are the accepted normal forms over the selected lists' members. */
  lemma GrantsComeFromTheSelectedLists(store: Store, cfg: C.Source)
    requires Taken(store, cfg.containerId, cfg.groupIds, cfg.maxContacts).Ok?
    ensures var s := Taken(store, cfg.containerId, cfg.groupIds, cfg.maxContacts).value;
            && C.Identities(cfg, s).Ok?
            && forall v :: v in C.Identities(cfg, s).value.identities <==>
                 exists c | IsMember(store, s.groupIds.value, c) ::
                   || (exists f :: f in c.phones && C.NormalizePhone(f, cfg.region) == Some(v) && C.HasPlus(v))
                   || (exists f :: f in c.emails && I.Normalize(f) == Some(v) && '@' in v)
  {
    var s := Taken(store, cfg.containerId, cfg.groupIds, cfg.maxContacts).value;
    TakenIsAccepted(store, cfg);
    TakenIff(store, cfg.containerId, cfg.groupIds, cfg.maxContacts);
    C.IdentitiesMeaning(cfg, s);
    forall v ensures v in C.Identities(cfg, s).value.identities <==>
                     exists c | IsMember(store, s.groupIds.value, c) :: C.Grants(Card(c), cfg.region, v) {
      SameGrants(store, s.groupIds.value, s.contacts.value, cfg.region, v);
    }
  }

  lemma SameGrants(store: Store, ids: seq<string>, cards: seq<C.Contact>, region: string, v: string)
    requires IsSortedUnion(store, ids, cards)
    ensures (exists card | card in cards :: C.Grants(card, region, v)) <==>
            (exists c | IsMember(store, ids, c) :: C.Grants(Card(c), region, v))
  {
    if card :| card in cards && C.Grants(card, region, v) {
      var c :| IsMember(store, ids, c) && card == Card(c);
      assert C.Grants(Card(c), region, v);
    }
    if c :| IsMember(store, ids, c) && C.Grants(Card(c), region, v) {
      assert Card(c) in cards;
    }
  }
}
