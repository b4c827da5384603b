/**
 Who may be read: the owner's policy, the grants derived from Contacts, and the authorization of
 one conversation (internal/policy/policy.go).
 */
module Policy {
  import opened Lists
  import opened Wrappers
  import opened Text
  import opened Identity

  datatype Policy = Policy(owners: set<string>, direct: set<string>, excluded: set<string>) {
    /** What Load establishes and WithDirect keeps. */
    ghost predicate Valid() {
      && owners != {} && owners !! direct
      && forall v | v in owners + direct :: IsNormal(v)
    }
  }

  datatype PolicyFile = PolicyFile(ownerAliases: seq<string>, allowedDirect: seq<string>,
                                   excludedConversations: seq<string>)

  datatype Conversation = Conversation(
    guid: string, identifier: string, isGroup: Option<bool>, participants: Option<seq<string>>)

  datatype Decision = Decision(valid: bool, allowed: bool, isGroup: bool, participants: seq<string>)

  const INVALID := Decision(false, false, false, [])

  // -------------------------------------------------------------- identity lists

  predicate AllNormalize(raws: seq<string>) { forall s | s in raws :: Normalize(s).Some? }

  /** The normal forms of a list of identities. */
  function Normals(raws: seq<string>): set<string> {
    set s | s in raws && Normalize(s).Some? :: Normalize(s).value
  }

  lemma NormalsAppend(a: seq<string>, b: seq<string>)
    ensures Normals(a + b) == Normals(a) + Normals(b)
    ensures AllNormalize(a + b) <==> AllNormalize(a) && AllNormalize(b)
  {
    assert forall s | s in a || s in b :: s in a + b;
    forall v ensures v in Normals(a + b) <==> v in Normals(a) + Normals(b) {
    }
  }

  lemma NormalsStep(raws: seq<string>, i: nat)
    requires i < |raws|
    ensures AllNormalize(raws[..i + 1]) <==> AllNormalize(raws[..i]) && Normalize(raws[i]).Some?
    ensures Normalize(raws[i]).Some? ==> Normals(raws[..i + 1]) == Normals(raws[..i]) + {Normalize(raws[i]).value}
  {
    assert raws[..i + 1] == raws[..i] + [raws[i]];
    NormalsAppend(raws[..i], [raws[i]]);
    assert raws[i] in [raws[i]];
    if Normalize(raws[i]).Some? {
      assert Normals([raws[i]]) == {Normalize(raws[i]).value};
    }
  }

  /** The members of a conversation: every entry normalized, the first of equal ones kept. */
  ghost predicate IsParticipantList(raws: seq<string>, r: Option<seq<string>>) {
    match r
    case None => !AllNormalize(raws)
    case Some(list) => AllNormalize(raws) && Distinct(list) && Elements(list) == Normals(raws)
  }

  function Participants(raws: seq<string>): (r: Option<seq<string>>) {
    if raws == [] then Some([])
    else
      var before := Participants(raws[..|raws| - 1]);
      var last := Normalize(raws[|raws| - 1]);
      if before.None? || last.None? then None
      else if last.value in before.value then before
      else Some(before.value + [last.value])
  }

  lemma {:induction false} ParticipantsMeaning(raws: seq<string>)
    ensures IsParticipantList(raws, Participants(raws))
  {
    if raws != [] {
      var n := |raws| - 1;
      ParticipantsMeaning(raws[..n]);
      NormalsStep(raws, n);
      assert raws[..n + 1] == raws;
      var r := Participants(raws);
      if r.Some? && r != Participants(raws[..n]) {
        var before := Participants(raws[..n]).value;
        assert Elements(r.value) == Elements(before) + {Normalize(raws[n]).value};
      }
    } else {
      assert Elements<string>([]) == Normals([]);
    }
  }

  /** Some entry means the one, and no entry up to it means the other. */
  ghost predicate Precedes(raws: seq<string>, a: string, b: string) {
    exists k | 0 <= k < |raws| ::
      Normalize(raws[k]) == Some(a) && forall j | 0 <= j <= k :: Normalize(raws[j]) != Some(b)
  }

  /** The members are listed in the order in which they first occur. */
  lemma {:induction false} ParticipantsInOrder(raws: seq<string>)
    requires Participants(raws).Some?
    ensures var list := Participants(raws).value;
            forall i, j | 0 <= i < j < |list| :: Precedes(raws, list[i], list[j])
  {
    if raws != [] {
      var n := |raws| - 1;
      var before, list := Participants(raws[..n]).value, Participants(raws).value;
      ParticipantsInOrder(raws[..n]);
      ParticipantsMeaning(raws[..n]);
      forall i, j | 0 <= i < j < |list| ensures Precedes(raws, list[i], list[j]) {
        if j < |before| {
          PrecedesLonger(raws, n, list[i], list[j]);
        } else {
          NewcomerIsLast(raws, n, list[i], list[j]);
        }
      }
    }
  }

  lemma PrecedesLonger(raws: seq<string>, n: nat, a: string, b: string)
    requires n <= |raws| && Precedes(raws[..n], a, b)
    ensures Precedes(raws, a, b)
  {
    var k :| && 0 <= k < n && Normalize(raws[..n][k]) == Some(a)
             && forall j | 0 <= j <= k :: Normalize(raws[..n][j]) != Some(b);
    assert forall j | 0 <= j <= k :: raws[j] == raws[..n][j];
  }

  lemma NewcomerIsLast(raws: seq<string>, n: nat, a: string, b: string)
    requires n < |raws| && IsParticipantList(raws[..n], Participants(raws[..n])) && Participants(raws[..n]).Some?
    requires a in Participants(raws[..n]).value && b !in Participants(raws[..n]).value
    ensures Precedes(raws, a, b)
  {
    var before := Participants(raws[..n]).value;
    assert a in Elements(before) && b !in Elements(before);
    var s :| s in raws[..n] && Normalize(s) == Some(a);
    var k :| 0 <= k < n && raws[k] == s;
    forall j | 0 <= j <= k ensures Normalize(raws[j]) != Some(b) {
      assert raws[j] in raws[..n];
    }
  }

  lemma {:induction false} ParticipantsFail(raws: seq<string>, i: nat)
    requires i < |raws| && Normalize(raws[i]).None?
    ensures Participants(raws).None?
  {
    ParticipantsMeaning(raws);
    assert raws[i] in raws;
  }

  method NormalizeParticipants(raws: seq<string>) returns (r: Option<seq<string>>)
    ensures r == Participants(raws)
  {
    var participants: seq<string> := [];
    var seen: set<string> := {};
    for i := 0 to |raws|
      invariant Participants(raws[..i]) == Some(participants)
      invariant seen == Elements(participants)
    {
      assert raws[..i + 1][..i] == raws[..i];
      var normalized := NormalizeIdentity(raws[i]);
      if normalized.None? {
        ParticipantsFail(raws, i);
        return None;
      }
      if normalized.value !in seen {
        seen := seen + {normalized.value};
        participants := participants + [normalized.value];
      }
    }
    assert raws[..|raws|] == raws;
    return Some(participants);
  }

  // --------------------------------------------------------------- authorization

  /** The branches of Authorize, in source order, once the participants are known. */
  function Decide(p: Policy, c: Conversation, participants: Option<seq<string>>): Decision {
    if c.isGroup.None? || c.participants.None? || Trim(c.guid) == "" then INVALID
    else
      var parts := Split(c.guid, ';');
      if |parts| != 3 || parts[0] == "" || parts[2] == "" || (parts[1] != "+" && parts[1] != "-")
         || c.identifier == "" then INVALID
      else
        var marker := parts[1] == "+";
        if c.isGroup.value != marker then INVALID
        else if ';' in c.identifier && c.identifier != c.guid then INVALID
        else
          var identifier := if ';' in c.identifier then parts[2] else c.identifier;
          if marker && identifier != parts[2] then INVALID
          else if participants.None? || participants.value == [] then INVALID
          else if marker then Decision(true, c.guid !in p.excluded, true, participants.value)
          else DecideDirect(p, c, identifier, parts[2], participants.value)
  }

  function DecideDirect(p: Policy, c: Conversation, identifier: string, address: string, participants: seq<string>)
    : Decision
    requires participants != []
  {
    if |participants| != 1 || Normalize(identifier) != Some(participants[0])
       || Normalize(address) != Normalize(identifier) then INVALID
    else
      var id := participants[0];
      if id in p.owners then Decision(true, false, false, participants)
      else Decision(true, id in p.direct && c.guid !in p.excluded, false, participants)
  }

  function Authorize(p: Policy, c: Conversation): Decision {
    Decide(p, c, if c.participants.Some? then Participants(c.participants.value) else None)
  }

  /** The fields of a native chat GUID: service, kind marker, address. */
  ghost predicate IsGuid(guid: string, service: string, marker: char, address: string) {
    && service != "" && address != "" && (marker == '+' || marker == '-')
    && ';' !in service && ';' !in address
    && guid == service + ";" + [marker] + ";" + address
  }

  /** The conversation's identifier names the given address, plainly or by repeating the GUID. */
  ghost predicate Names(c: Conversation, address: string) {
    c.identifier != "" && (if ';' in c.identifier then c.identifier == c.guid else c.identifier == address)
  }

  lemma GuidParts(guid: string)
    ensures (|Split(guid, ';')| == 3 && Split(guid, ';')[0] != "" && Split(guid, ';')[2] != ""
             && Split(guid, ';')[1] in ["+", "-"])
       <==> exists s, m, a :: IsGuid(guid, s, m, a)
    ensures forall s, m, a | IsGuid(guid, s, m, a) :: Split(guid, ';') == [s, [m], a]
  {
    forall s, m, a | IsGuid(guid, s, m, a) ensures Split(guid, ';') == [s, [m], a] {
      JoinThree(s, [m], a);
      SplitJoin([s, [m], a], ';');
    }
    var parts := Split(guid, ';');
    if |parts| == 3 && parts[0] != "" && parts[2] != "" && parts[1] in ["+", "-"] {
      JoinSplit(guid, ';');
      PartsHoldNoSeparator(guid, ';');
      assert parts == [parts[0], parts[1], parts[2]];
      JoinThree(parts[0], parts[1], parts[2]);
      assert parts[1] == [parts[1][0]];
      assert IsGuid(guid, parts[0], parts[1][0], parts[2]);
    }
  }

  lemma JoinThree(x: string, y: string, z: string)
    ensures Join([x, y, z], ';') == x + ";" + y + ";" + z
  {
    assert [x, y, z][1..] == [y, z] && [y, z][1..] == [z];
    assert Join([z], ';') == z && Join([y, z], ';') == y + ";" + z;
    assert x + ";" + (y + ";" + z) == x + ";" + y + ";" + z;
  }

  lemma {:induction false} PartsHoldNoSeparator(s: string, sep: char)
    ensures forall p | p in Split(s, sep) :: sep !in p
  {
    if s != "" {
      PartsHoldNoSeparator(s[1..], sep);
      var rest := Split(s[1..], sep);
      assert rest[0] in rest;
      assert forall p | p in rest[1..] :: p in rest;
    }
  }

  /** A group conversation whose GUID, flag, identifier and members agree. */
  ghost predicate IsGroupChat(c: Conversation) {
    && c.isGroup == Some(true) && c.participants.Some?
    && AllNormalize(c.participants.value) && c.participants.value != []
    && exists s, a :: IsGuid(c.guid, s, '+', a) && Names(c, a)
  }

  /** A direct conversation with exactly one counterpart, named alike by GUID, identifier and members. */
  ghost predicate IsDirectChat(c: Conversation, id: string) {
    && c.isGroup == Some(false) && c.participants.Some?
    && AllNormalize(c.participants.value) && Normals(c.participants.value) == {id}
    && exists s, a :: IsGuid(c.guid, s, '-', a) && Normalize(a) == Some(id)
                      && c.identifier != ""
                      && (if ';' in c.identifier then c.identifier == c.guid else Normalize(c.identifier) == Some(id))
  }

  /** The policy permits the conversation: a group, or a direct chat with a granted counterpart; neither excluded. */
  ghost predicate Permits(p: Policy, c: Conversation) {
    && c.guid !in p.excluded
    && (IsGroupChat(c) || exists id :: IsDirectChat(c, id) && id in p.direct && id !in p.owners)
  }

  lemma GuidIsNotBlank(guid: string, s: string, m: char, a: string)
    requires IsGuid(guid, s, m, a)
    ensures Trim(guid) != ""
  {
    assert guid[|s|] == ';';
    TrimKeepsInk(guid, |s|);
  }

  lemma {:induction false} TrimKeepsInk(s: string, k: nat)
    requires k < |s| && !IsSpace(s[k])
    ensures Trim(s) != ""
  {
    TrimLeftKeepsInk(s, k);
    var t := TrimLeft(s);
    TrimRightStops(t, 0);
  }

  lemma {:induction false} TrimLeftKeepsInk(s: string, k: nat)
    requires k < |s| && !IsSpace(s[k])
    ensures TrimLeft(s) != ""
  {
    if IsSpace(s[0]) {
      TrimLeftKeepsInk(s[1..], k - 1);
    }
  }

  /**
   What authorization means. A decision is valid exactly for consistent group and direct chats; an
   exclusion always denies; a group is otherwise allowed; a direct chat needs a grant for its one
   counterpart, which must not be the owner.
   */
  lemma AuthorizeMeaning(p: Policy, c: Conversation)
    ensures var d := Authorize(p, c);
            && (d.valid <==> IsGroupChat(c) || exists id :: IsDirectChat(c, id))
            && (d.valid ==> (d.isGroup <==> IsGroupChat(c)) && c.isGroup == Some(d.isGroup))
            && (d.valid ==> Distinct(d.participants) && d.participants != []
                            && Elements(d.participants) == Normals(c.participants.value))
            && (d.allowed <==> Permits(p, c))
  {
    GuidParts(c.guid);
    var parts := Split(c.guid, ';');
    var d := Authorize(p, c);
    if c.participants.Some? {
      ParticipantsMeaning(c.participants.value);
      EmptyNormals(c.participants.value);
    }
    if d.valid {
      var s, m, a :| IsGuid(c.guid, s, m, a);
      assert parts == [s, [m], a];
      var id := d.participants[0];
      if m == '+' {
        assert IsGuid(c.guid, s, '+', a) && Names(c, a);
        assert IsGroupChat(c);
      } else {
        SingletonElements(d.participants);
        assert IsGuid(c.guid, s, '-', a) && Normalize(a) == Some(id);
        assert IsDirectChat(c, id);
        DirectIsUnique(c, id);
      }
    }
    if IsGroupChat(c) {
      GroupIsValid(p, c);
    }
    if id :| IsDirectChat(c, id) {
      DirectIsValid(p, c, id);
    }
  }

  /** Authorize as the source runs it; what it promises is the meaning of validity and permission. */
  method AuthorizeConversation(p: Policy, c: Conversation) returns (d: Decision)
    ensures d == Authorize(p, c)
    ensures d.valid <==> IsGroupChat(c) || exists id :: IsDirectChat(c, id)
    ensures d.valid ==> c.isGroup == Some(d.isGroup)
    ensures d.valid ==> Distinct(d.participants) && Elements(d.participants) == Normals(c.participants.value)
    ensures d.allowed <==> Permits(p, c)
  {
    AuthorizeMeaning(p, c);
    if c.isGroup.None? || c.participants.None? || Trim(c.guid) == "" {
      return INVALID;
    }
    var parts := Split(c.guid, ';');
    if |parts| != 3 || parts[0] == "" || parts[2] == "" || (parts[1] != "+" && parts[1] != "-") || c.identifier == "" {
      return INVALID;
    }
    var marker := parts[1] == "+";
    if c.isGroup.value != marker {
      return INVALID;
    }
    var identifier := c.identifier;
    if ';' in identifier {
      if identifier != c.guid {
        return INVALID;
      }
      identifier := parts[2];
    }
    if marker && identifier != parts[2] {
      return INVALID;
    }
    var participants := NormalizeParticipants(c.participants.value);
    if participants.None? || participants.value == [] {
      return INVALID;
    }
    if marker {
      return Decision(true, c.guid !in p.excluded, true, participants.value);
    }
    d := AuthorizeDirect(p, c, identifier, parts[2], participants.value);
  }

  /** The rest of the branches, for a conversation that is not a group. */
  method AuthorizeDirect(p: Policy, c: Conversation, identifier: string, address: string, participants: seq<string>)
    returns (d: Decision)
    requires participants != []
    ensures d == DecideDirect(p, c, identifier, address, participants)
  {
    if |participants| != 1 {
      return INVALID;
    }
    var normalized := NormalizeIdentity(identifier);
    if normalized.None? || normalized.value != participants[0] {
      return INVALID;
    }
    var guidIdentity := NormalizeIdentity(address);
    if guidIdentity.None? || guidIdentity.value != normalized.value {
      return INVALID;
    }
    if normalized.value in p.owners {
      return Decision(true, false, false, participants);
    }
    var allowed := normalized.value in p.direct;
    if c.guid in p.excluded {
      allowed := false;
    }
    return Decision(true, allowed, false, participants);
  }

  lemma EmptyNormals(raws: seq<string>)
    ensures AllNormalize(raws) ==> (Normals(raws) == {} <==> raws == [])
  {
    if AllNormalize(raws) && raws != [] {
      assert raws[0] in raws;
      assert Normalize(raws[0]).value in Normals(raws);
    }
  }

  lemma SingletonElements(s: seq<string>)
    requires |s| == 1
    ensures Elements(s) == {s[0]}
  {
  }

  lemma DirectIsUnique(c: Conversation, id: string)
    requires IsDirectChat(c, id)
    ensures !IsGroupChat(c) && forall other | IsDirectChat(c, other) :: other == id
  {
    forall other | IsDirectChat(c, other) ensures other == id {
      assert other in {id};
    }
  }

  lemma GroupIsValid(p: Policy, c: Conversation)
    requires IsGroupChat(c)
    ensures Authorize(p, c).valid && Authorize(p, c).isGroup
    ensures Authorize(p, c).allowed <==> c.guid !in p.excluded
  {
    var s, a :| IsGuid(c.guid, s, '+', a) && Names(c, a);
    GuidParts(c.guid);
    GuidIsNotBlank(c.guid, s, '+', a);
    assert Split(c.guid, ';') == [s, "+", a];
    ParticipantsMeaning(c.participants.value);
    EmptyNormals(c.participants.value);
    assert Elements<string>([]) == {};
  }

  lemma DirectIsValid(p: Policy, c: Conversation, id: string)
    requires IsDirectChat(c, id)
    ensures Authorize(p, c).valid && !Authorize(p, c).isGroup && Authorize(p, c).participants == [id]
    ensures Authorize(p, c).allowed <==> c.guid !in p.excluded && id in p.direct && id !in p.owners
  {
    var s, a :| IsGuid(c.guid, s, '-', a) && Normalize(a) == Some(id)
                && (if ';' in c.identifier then c.identifier == c.guid else Normalize(c.identifier) == Some(id));
    GuidParts(c.guid);
    GuidIsNotBlank(c.guid, s, '-', a);
    assert Split(c.guid, ';') == [s, "-", a];
    ParticipantsMeaning(c.participants.value);
    var list := Participants(c.participants.value).value;
    DistinctSingleton(list, id);
  }

  lemma DistinctSingleton(s: seq<string>, x: string)
    requires Distinct(s) && Elements(s) == {x}
    ensures s == [x]
  {
    DistinctMultiset(s);
    assert |s| == |multiset(s)| == 1;
    assert s[0] in Elements(s);
  }

  // -------------------------------------------------------------- derived grants

  /** What WithDirect returns: all the grants it can derive, or nothing. */
  function WithDirect(p: Policy, identities: seq<string>): Option<Policy> {
    if AllNormalize(identities) then Some(p.(direct := p.direct + (Normals(identities) - p.owners))) else None
  }

  method AddDirect(p: Policy, identities: seq<string>) returns (r: Option<Policy>)
    ensures r == WithDirect(p, identities)
  {
    var direct := p.direct;
    for i := 0 to |identities|
      invariant AllNormalize(identities[..i])
      invariant direct == p.direct + (Normals(identities[..i]) - p.owners)
    {
      NormalsStep(identities, i);
      var normalized := NormalizeIdentity(identities[i]);
      if normalized.None? {
        assert identities[i] in identities;
        return None;
      }
      if normalized.value !in p.owners {
        direct := direct + {normalized.value};
      }
    }
    assert identities[..|identities|] == identities;
    return Some(p.(direct := direct));
  }

  lemma WithDirectKeepsValid(p: Policy, identities: seq<string>)
    requires p.Valid() && WithDirect(p, identities).Some?
    ensures WithDirect(p, identities).value.Valid()
  {
    forall v | v in Normals(identities) ensures IsNormal(v) {
      var s :| s in identities && Normalize(s) == Some(v);
      NormalFormIsCanonical(s);
    }
  }

  /** Two batches of grants are one batch, failures included. */
  lemma WithDirectComposes(p: Policy, a: seq<string>, b: seq<string>)
    ensures WithDirect(p, a + b) ==
            match WithDirect(p, a) { case None => None case Some(q) => WithDirect(q, b) }
  {
    NormalsAppend(a, b);
    if AllNormalize(a) && AllNormalize(b) {
      assert p.direct + (Normals(a) + Normals(b) - p.owners)
          == p.direct + (Normals(a) - p.owners) + (Normals(b) - p.owners);
    }
  }

  /** Neither order nor repetition of the derived identities matters. */
  lemma WithDirectReadsASet(p: Policy, a: seq<string>, b: seq<string>)
    requires Elements(a) == Elements(b)
    ensures WithDirect(p, a) == WithDirect(p, b)
  {
    assert forall s :: (s in a <==> s in Elements(a)) && (s in b <==> s in Elements(b));
    assert Normals(a) == Normals(b);
  }

  /**
   Derived grants extend the policy and nothing else: validity, kind and participants of every
   decision are kept, and a decision changes from denied to allowed exactly for a direct chat,
   not excluded, with a counterpart who is a derived identity and not the owner.
   */
  lemma WithDirectFrame(p: Policy, identities: seq<string>, c: Conversation)
    requires WithDirect(p, identities).Some?
    ensures var d, e := Authorize(p, c), Authorize(WithDirect(p, identities).value, c);
            && e.valid == d.valid && e.isGroup == d.isGroup && e.participants == d.participants
            && (d.allowed ==> e.allowed)
            && (e.allowed && !d.allowed <==>
                !d.allowed && c.guid !in p.excluded
                && exists id :: IsDirectChat(c, id) && id in Normals(identities) && id !in p.owners)
  {
    var q := WithDirect(p, identities).value;
    AuthorizeMeaning(p, c);
    AuthorizeMeaning(q, c);
    if id :| IsDirectChat(c, id) {
      DirectIsUnique(c, id);
    }
  }

  // ----------------------------------------------------------------------- load

  predicate GoodExclusion(guid: string) { Trim(guid) != "" && ByteLen(Trim(guid)) <= 512 }

  /** The policy a well-formed file denotes; None for a file that is refused. */
  function Loaded(f: PolicyFile): Option<Policy> {
    if AllNormalize(f.ownerAliases) && f.ownerAliases != []
       && AllNormalize(f.allowedDirect) && Normals(f.allowedDirect) !! Normals(f.ownerAliases)
       && (forall g | g in f.excludedConversations :: GoodExclusion(g))
    then Some(Policy(Normals(f.ownerAliases), Normals(f.allowedDirect),
                     set g | g in f.excludedConversations :: Trim(g)))
    else None
  }

  /** Trimmed of white space, the entry is an exclusion that may be loaded. */
  ghost predicate Excludes(entry: string, guid: string) { IsTrimOf(guid, entry) && guid != "" && ByteLen(guid) <= 512 }

  /** Every entry of a file that loads is good, and no allowed identity is an owner's. */
  ghost predicate WellFormedFile(f: PolicyFile) {
    && f.ownerAliases != [] && (forall o | o in f.ownerAliases :: Normalize(o).Some?)
    && (forall s | s in f.allowedDirect ::
          Normalize(s).Some? && forall o | o in f.ownerAliases :: Normalize(o) != Normalize(s))
    && (forall g | g in f.excludedConversations :: exists guid :: Excludes(g, guid))
  }

  /** What a file permits: groups it does not exclude, and direct chats it neither excludes nor fails to list. */
  ghost predicate FileAllows(f: PolicyFile, c: Conversation) {
    && (forall g | g in f.excludedConversations :: !IsTrimOf(c.guid, g))
    && (IsGroupChat(c) || exists id, s :: IsDirectChat(c, id) && s in f.allowedDirect && Normalize(s) == Some(id))
  }

  /** A file loads exactly when each of its entries is good. */
  lemma LoadedIff(f: PolicyFile)
    ensures Loaded(f).Some? <==> WellFormedFile(f)
  {
    forall g ensures GoodExclusion(g) <==> exists guid :: Excludes(g, guid) {
      ExclusionIff(g);
    }
    if AllNormalize(f.allowedDirect) && AllNormalize(f.ownerAliases) {
      DisjointIff(f.allowedDirect, f.ownerAliases);
    }
  }

  lemma ExclusionIff(g: string)
    ensures GoodExclusion(g) <==> exists guid :: Excludes(g, guid)
  {
    TrimIff(g, Trim(g));
    if GoodExclusion(g) {
      assert Excludes(g, Trim(g));
    }
    if guid :| Excludes(g, guid) {
      TrimIff(g, guid);
    }
  }

  lemma DisjointIff(a: seq<string>, b: seq<string>)
    requires AllNormalize(a) && AllNormalize(b)
    ensures Normals(a) !! Normals(b) <==> forall s | s in a :: forall o | o in b :: Normalize(o) != Normalize(s)
  {
    forall s, o | s in a && o in b ensures Normalize(s).value in Normals(a) && Normalize(o).value in Normals(b) {
    }
    if v :| v in Normals(a) && v in Normals(b) {
      var s :| s in a && Normalize(s) == Some(v);
      var o :| o in b && Normalize(o) == Some(v);
    }
  }

  /** From file to decision: a loaded file permits exactly the conversations that its entries permit. */
  lemma LoadedAllowsIff(f: PolicyFile, c: Conversation)
    requires Loaded(f).Some?
    ensures Authorize(Loaded(f).value, c).allowed <==> FileAllows(f, c)
  {
    var p := Loaded(f).value;
    AuthorizeMeaning(p, c);
    ExcludedIff(f, c.guid);
    forall id ensures id in p.direct <==> exists s :: s in f.allowedDirect && Normalize(s) == Some(id) {
    }
    assert p.direct !! p.owners;
  }

  lemma ExcludedIff(f: PolicyFile, guid: string)
    requires Loaded(f).Some?
    ensures guid in Loaded(f).value.excluded <==> exists g :: g in f.excludedConversations && IsTrimOf(guid, g)
  {
    forall g ensures IsTrimOf(guid, g) <==> guid == Trim(g) {
      TrimIff(g, guid);
    }
  }

  method Load(f: PolicyFile) returns (r: Option<Policy>)
    ensures r == Loaded(f)
    ensures r.Some? <==> WellFormedFile(f)
    ensures r.Some? ==> r.value.Valid()
    ensures r.Some? ==> forall c :: Authorize(r.value, c).allowed <==> FileAllows(f, c)
  {
    LoadedIff(f);
    if Loaded(f).Some? {
      forall c ensures Authorize(Loaded(f).value, c).allowed <==> FileAllows(f, c) {
        LoadedAllowsIff(f, c);
      }
    }
    var owners := LoadIdentities(f.ownerAliases, {});
    if owners.None? || owners.value == {} {
      EmptyNormals(f.ownerAliases);
      return None;
    }
    var direct := LoadIdentities(f.allowedDirect, owners.value);
    if direct.None? {
      return None;
    }
    var excluded := LoadExclusions(f.excludedConversations);
    if excluded.None? {
      return None;
    }
    EmptyNormals(f.ownerAliases);
    LoadedIsValid(f);
    return Some(Policy(owners.value, direct.value, excluded.value));
  }

  /** The identity loops of Load: every entry must normalize, and to none of the forbidden identities. */
  method LoadIdentities(raws: seq<string>, forbidden: set<string>) returns (r: Option<set<string>>)
    ensures r == if AllNormalize(raws) && Normals(raws) !! forbidden then Some(Normals(raws)) else None
  {
    var values: set<string> := {};
    for i := 0 to |raws|
      invariant AllNormalize(raws[..i]) && values == Normals(raws[..i]) && values !! forbidden
    {
      NormalsStep(raws, i);
      var normalized := NormalizeIdentity(raws[i]);
      assert raws[i] in raws;
      if normalized.None? {
        return None;
      }
      if normalized.value in forbidden {
        assert normalized.value in Normals(raws);
        return None;
      }
      values := values + {normalized.value};
    }
    assert raws[..|raws|] == raws;
    return Some(values);
  }

  method LoadExclusions(guids: seq<string>) returns (r: Option<set<string>>)
    ensures r == if forall g | g in guids :: GoodExclusion(g) then Some(set g | g in guids :: Trim(g)) else None
  {
    var excluded: set<string> := {};
    for i := 0 to |guids|
      invariant forall k | 0 <= k < i :: GoodExclusion(guids[k])
      invariant excluded == set k | 0 <= k < i :: Trim(guids[k])
    {
      var guid := Trim(guids[i]);
      if guid == "" || ByteLen(guid) > 512 {
        assert !GoodExclusion(guids[i]);
        return None;
      }
      excluded := excluded + {guid};
    }
    assert excluded == set g | g in guids :: Trim(g);
    return Some(excluded);
  }

  lemma LoadedIsValid(f: PolicyFile)
    requires Loaded(f).Some?
    ensures Loaded(f).value.Valid()
  {
    EmptyNormals(f.ownerAliases);
    forall v | v in Normals(f.ownerAliases) + Normals(f.allowedDirect) ensures IsNormal(v) {
      var s :| (s in f.ownerAliases || s in f.allowedDirect) && Normalize(s) == Some(v);
      NormalFormIsCanonical(s);
    }
  }
}
