/**
 How long derived grants last: the refresh and expiry manager (internal/contacts/source.go) over any
 history of refreshes and any clock, and the policy the broker then loads (internal/broker/server.go).
 */
module GrantManager {
  import opened Lists
  import opened Wrappers
  import opened Text
  import C = Contacts
  import P = Policy
  import I = Identity

  /** An error from fetching: one of the known codes, or anything else. */
  datatype Failure = Coded(code: C.Error) | Foreign

  /** What one refresh saw: the clock before and after, the helper's answer, and whether its time had run out. */
  datatype Attempt = Attempt(started: int, fetched: Result<C.Snapshot, Failure>, expired: bool, finished: int)

  function ErrorCode(f: Failure): C.Error { if f.Coded? then f.code else C.Unavailable }

  /** The identities a refresh publishes, or the code it ends with; an expired context overrides both. */
  function Outcome(cfg: C.Source, a: Attempt): Result<seq<string>, C.Error> {
    if a.expired then Err(C.Timeout)
    else
      match a.fetched
      case Err(f) => Err(ErrorCode(f))
      case Ok(s) =>
        match C.Identities(cfg, s)
        case Err(e) => Err(e)
        case Ok(d) => Ok(d.identities)
  }

  predicate IsTransient(e: C.Error) { e == C.Unavailable || e == C.Timeout || e == C.StoreChanged }

  // ----------------------------------------------------- what a history says

  predicate Publishes(cfg: C.Source, a: Attempt) { Outcome(cfg, a).Ok? }

  predicate Revokes(cfg: C.Source, a: Attempt) { Outcome(cfg, a).Err? && !IsTransient(Outcome(cfg, a).error) }

  /** The k-th refresh published, and every later one failed in passing. */
  ghost predicate Stands(cfg: C.Source, h: seq<Attempt>, k: nat) {
    k < |h| && Publishes(cfg, h[k]) && forall j | k < j < |h| :: !Publishes(cfg, h[j]) && !Revokes(cfg, h[j])
  }

  predicate IsFresh(a: Attempt, maxAge: int, now: int) { a.finished <= now < a.finished + maxAge }

  /** At this moment the history grants exactly these identities. */
  ghost predicate GrantsAt(cfg: C.Source, maxAge: int, h: seq<Attempt>, now: int, identities: seq<string>) {
    exists k | 0 <= k < |h| :: Stands(cfg, h, k) && IsFresh(h[k], maxAge, now) && identities == Outcome(cfg, h[k]).value
  }

  ghost predicate HasGrants(cfg: C.Source, maxAge: int, h: seq<Attempt>, now: int) {
    exists k | 0 <= k < |h| :: Stands(cfg, h, k) && IsFresh(h[k], maxAge, now)
  }

  lemma StandsOnce(cfg: C.Source, h: seq<Attempt>, j: nat, k: nat)
    requires Stands(cfg, h, j) && Stands(cfg, h, k)
    ensures j == k
  {
  }

  // ---------------------------------------------------------------- the manager

  datatype State = Unavailable | Ready | Degraded

  /** Absent times are the zero time of the source. */
  datatype Status = Status(
    state: State, lastAttemptAt: Option<int>, lastSuccessAt: Option<int>, expiresAt: Option<int>,
    lastErrorCode: Option<C.Error>)

  class Manager {
    const cfg: C.Source
    const maxAge: int

    var identities: Option<seq<string>>
    var lastAttempt: Option<int>
    var lastSuccess: Option<int>
    var lastError: Option<C.Error>

    /** The refreshes so far. */
    ghost var history: seq<Attempt>

    /** The fields are what the history makes of them. */
    ghost predicate Valid()
      reads this
    {
      && Remembers(cfg, history, identities, lastSuccess)
      && lastAttempt == (if history == [] then None else Some(history[|history| - 1].started))
      && lastError == LastError(cfg, history)
    }

    constructor (cfg: C.Source, maxAge: int)
      ensures Valid() && history == [] && this.cfg == cfg && this.maxAge == maxAge
    {
      this.cfg, this.maxAge := cfg, maxAge;
      identities, lastAttempt, lastSuccess, lastError := None, None, None, None;
      history := [];
    }

    method Refresh(a: Attempt)
      requires Valid()
      modifies this
      ensures Valid() && history == old(history) + [a]
    {
      var values: seq<string>, err: Option<C.Error> := [], None;
      if a.fetched.Err? {
        err := Some(ErrorCode(a.fetched.error));
      } else {
        var derived := C.DeriveIdentities(cfg, a.fetched.value);
        if derived.Err? {
          err := Some(derived.error);
        } else {
          values := derived.value.identities;
        }
      }
      if a.expired {
        err := Some(C.Timeout);
      }
      RemembersStep(cfg, history, identities, lastSuccess, a);
      history := history + [a];
      lastAttempt := Some(a.started);
      if err.None? {
        identities, lastSuccess, lastError := Some(values), Some(a.finished), None;
        return;
      }
      lastError := err;
      if err.value != C.Unavailable && err.value != C.Timeout && err.value != C.StoreChanged {
        identities := None;
      }
    }

    predicate Available(now: int)
      reads this
    {
      identities.Some? && lastSuccess.Some? && lastSuccess.value <= now < lastSuccess.value + maxAge
    }

    /** The grants of the latest publish, exactly while it stands and is fresh. */
    method Get(now: int) returns (r: Option<seq<string>>)
      requires Valid()
      ensures r.Some? <==> HasGrants(cfg, maxAge, history, now)
      ensures r.Some? <==> exists k | 0 <= k < |history| ::
                Stands(cfg, history, k) && history[k].finished <= now < history[k].finished + maxAge
      ensures r.Some? ==> GrantsAt(cfg, maxAge, history, now, r.value)
    {
      AvailableIff(this, now);
      if !Available(now) {
        return None;
      }
      return identities;
    }

    /** Ready or degraded exactly when Get would succeed, and ready when the latest refresh published. */
    method Report(now: int) returns (s: Status)
      requires Valid()
      ensures s.state != Unavailable <==> HasGrants(cfg, maxAge, history, now)
      ensures s.state == Ready <==> HasGrants(cfg, maxAge, history, now) && Publishes(cfg, history[|history| - 1])
      ensures s.lastErrorCode.None? <==> history == [] || Publishes(cfg, history[|history| - 1])
      ensures s.lastErrorCode.Some? ==> Outcome(cfg, history[|history| - 1]) == Err(s.lastErrorCode.value)
      ensures s.lastAttemptAt == if history == [] then None else Some(history[|history| - 1].started)
      ensures PublishedLast(cfg, history, s.lastSuccessAt)
      ensures s.expiresAt == match s.lastSuccessAt { case None => None case Some(t) => Some(t + maxAge) }
    {
      AvailableIff(this, now);
      TimesAreKept(this);
      var state := Unavailable;
      if Available(now) {
        state := Ready;
        if lastError.Some? {
          state := Degraded;
        }
      }
      s := Status(state, lastAttempt, lastSuccess,
                  if lastSuccess.Some? then Some(lastSuccess.value + maxAge) else None, lastError);
    }
  }

  // ------------------------------------------------------------------ proofs

  /** The code of the latest refresh, absent after a publish. */
  function LastError(cfg: C.Source, h: seq<Attempt>): Option<C.Error> {
    if h == [] || Publishes(cfg, h[|h| - 1]) then None else Some(Outcome(cfg, h[|h| - 1]).error)
  }

  /** When the latest publish happened, revoked since or not. */
  function LastPublish(cfg: C.Source, h: seq<Attempt>): Option<int> {
    if h == [] then None
    else if Publishes(cfg, h[|h| - 1]) then Some(h[|h| - 1].finished)
    else LastPublish(cfg, h[..|h| - 1])
  }

  /** What the fields keep of the latest refresh and of the latest publish. */
  lemma TimesAreKept(m: Manager)
    requires m.Valid()
    ensures PublishedLast(m.cfg, m.history, m.lastSuccess)
    ensures m.lastError.None? <==> m.history == [] || Publishes(m.cfg, m.history[|m.history| - 1])
    ensures m.lastError.Some? ==> Outcome(m.cfg, m.history[|m.history| - 1]) == Err(m.lastError.value)
  {
    LastPublishIff(m.cfg, m.history);
  }

  ghost predicate IsLatest(cfg: C.Source, h: seq<Attempt>, k: nat) {
    k < |h| && Publishes(cfg, h[k]) && forall j | k < j < |h| :: !Publishes(cfg, h[j])
  }

  /** The latest refresh that published ended at this time; or none did. */
  ghost predicate PublishedLast(cfg: C.Source, h: seq<Attempt>, t: Option<int>) {
    match t
    case None => forall k | 0 <= k < |h| :: !Publishes(cfg, h[k])
    case Some(finished) => exists k | 0 <= k < |h| :: IsLatest(cfg, h, k) && h[k].finished == finished
  }

  lemma {:induction false} LastPublishIff(cfg: C.Source, h: seq<Attempt>)
    ensures PublishedLast(cfg, h, LastPublish(cfg, h))
  {
    if h != [] {
      var n := |h| - 1;
      if Publishes(cfg, h[n]) {
        assert IsLatest(cfg, h, n);
      } else {
        LastPublishIff(cfg, h[..n]);
        StillPublishedLast(cfg, h, LastPublish(cfg, h[..n]));
      }
    }
  }

  lemma StillPublishedLast(cfg: C.Source, h: seq<Attempt>, t: Option<int>)
    requires h != [] && !Publishes(cfg, h[|h| - 1]) && PublishedLast(cfg, h[..|h| - 1], t)
    ensures PublishedLast(cfg, h, t)
  {
    var g := h[..|h| - 1];
    assert forall k | 0 <= k < |g| :: g[k] == h[k];
    if t.Some? {
      var k :| 0 <= k < |g| && IsLatest(cfg, g, k) && g[k].finished == t.value;
      forall j | k < j < |h| ensures !Publishes(cfg, h[j]) {
        assert j < |g| ==> g[j] == h[j] && !Publishes(cfg, g[j]);
      }
      assert IsLatest(cfg, h, k);
    }
  }

  /** The identities kept are those of the publish that stands, if one does. */
  ghost predicate Remembers(cfg: C.Source, h: seq<Attempt>, identities: Option<seq<string>>, lastSuccess: Option<int>) {
    && lastSuccess == LastPublish(cfg, h)
    && (identities.None? ==> forall k | 0 <= k < |h| :: !Stands(cfg, h, k))
    && (identities.Some? ==>
          exists k | 0 <= k < |h| ::
            Stands(cfg, h, k) && identities == Some(Outcome(cfg, h[k]).value) && lastSuccess == Some(h[k].finished))
  }

  lemma StandsStep(cfg: C.Source, h: seq<Attempt>, a: Attempt, k: nat)
    ensures Stands(cfg, h + [a], k) <==>
              if k == |h| then Publishes(cfg, a) else Stands(cfg, h, k) && !Publishes(cfg, a) && !Revokes(cfg, a)
  {
    var g := h + [a];
    if k < |h| && Stands(cfg, g, k) {
      assert g[|h|] == a;
      assert forall j | k < j < |h| :: g[j] == h[j];
    }
  }

  lemma RemembersStep(cfg: C.Source, h: seq<Attempt>, identities: Option<seq<string>>, lastSuccess: Option<int>,
                      a: Attempt)
    requires Remembers(cfg, h, identities, lastSuccess)
    ensures Publishes(cfg, a) ==> Remembers(cfg, h + [a], Some(Outcome(cfg, a).value), Some(a.finished))
    ensures Revokes(cfg, a) ==> Remembers(cfg, h + [a], None, lastSuccess)
    ensures !Publishes(cfg, a) && !Revokes(cfg, a) ==> Remembers(cfg, h + [a], identities, lastSuccess)
  {
    var g := h + [a];
    assert g[..|h|] == h && g[|h|] == a;
    forall k: nat {
      StandsStep(cfg, h, a, k);
    }
    if Publishes(cfg, a) {
      assert Stands(cfg, g, |h|);
    } else if !Revokes(cfg, a) && identities.Some? {
      var k :| && 0 <= k < |h| && Stands(cfg, h, k) && identities == Some(Outcome(cfg, h[k]).value)
               && lastSuccess == Some(h[k].finished);
      assert Stands(cfg, g, k) && g[k] == h[k];
    }
  }

  lemma AvailableIff(m: Manager, now: int)
    requires m.Valid()
    ensures m.Available(now) <==> HasGrants(m.cfg, m.maxAge, m.history, now)
    ensures m.Available(now) ==> GrantsAt(m.cfg, m.maxAge, m.history, now, m.identities.value)
  {
    var h := m.history;
    if m.identities.Some? {
      var k :| 0 <= k < |h| && Stands(m.cfg, h, k)
               && m.identities == Some(Outcome(m.cfg, h[k]).value) && m.lastSuccess == Some(h[k].finished);
      if HasGrants(m.cfg, m.maxAge, h, now) {
        var j :| 0 <= j < |h| && Stands(m.cfg, h, j) && IsFresh(h[j], m.maxAge, now);
        StandsOnce(m.cfg, h, j, k);
      }
    }
  }

  /** What a refresh amounts to: identities from an answer that may be used, in time; otherwise one code. */
  lemma OutcomeIff(cfg: C.Source, a: Attempt)
    ensures Publishes(cfg, a) <==> !a.expired && a.fetched.Ok? && C.AnswersTheQuestion(cfg, a.fetched.value)
    ensures forall e :: Outcome(cfg, a) == Err(e) <==>
              if a.expired then e == C.Timeout
              else match a.fetched
                   case Err(Coded(code)) => e == code
                   case Err(Foreign) => e == C.Unavailable
                   case Ok(s) => e == C.Invalid && !C.AnswersTheQuestion(cfg, s)
    ensures Revokes(cfg, a) <==>
              exists e :: Outcome(cfg, a) == Err(e) && e != C.Unavailable && e != C.Timeout && e != C.StoreChanged
  {
    if a.fetched.Ok? {
      C.IdentitiesIff(cfg, a.fetched.value);
    }
  }

  // ------------------------------------------------------------- consequences

  /** A moment has at most one list of grants. */
  lemma GrantsAreDetermined(cfg: C.Source, maxAge: int, h: seq<Attempt>, now: int, a: seq<string>, b: seq<string>)
    requires GrantsAt(cfg, maxAge, h, now, a) && GrantsAt(cfg, maxAge, h, now, b)
    ensures a == b
  {
    var j :| 0 <= j < |h| && Stands(cfg, h, j) && a == Outcome(cfg, h[j]).value;
    var k :| 0 <= k < |h| && Stands(cfg, h, k) && b == Outcome(cfg, h[k]).value;
    StandsOnce(cfg, h, j, k);
  }

  /** A refresh that publishes nothing new never adds a grant nor prolongs one. */
  lemma FailuresNeverGrant(cfg: C.Source, maxAge: int, h: seq<Attempt>, a: Attempt, now: int)
    requires !Publishes(cfg, a)
    ensures HasGrants(cfg, maxAge, h + [a], now) <==> HasGrants(cfg, maxAge, h, now) && !Revokes(cfg, a)
  {
    var g := h + [a];
    forall k: nat {
      StandsStep(cfg, h, a, k);
    }
    if k :| 0 <= k < |h| && Stands(cfg, h, k) && IsFresh(h[k], maxAge, now) {
      assert g[k] == h[k];
    }
    if k :| 0 <= k < |g| && Stands(cfg, g, k) && IsFresh(g[k], maxAge, now) {
      assert k < |h| && g[k] == h[k];
    }
  }

  /** An answer that is refused for good ends current grants exactly when the refresh had not run out of time. */
  lemma HardFailureRevokesIff(cfg: C.Source, maxAge: int, h: seq<Attempt>, a: Attempt, now: int)
    requires HasGrants(cfg, maxAge, h, now)
    requires Outcome(cfg, a.(expired := false)).Err? && !IsTransient(Outcome(cfg, a.(expired := false)).error)
    ensures !HasGrants(cfg, maxAge, h + [a], now) <==> !a.expired
  {
    FailuresNeverGrant(cfg, maxAge, h, a, now);
    assert !a.expired ==> a == a.(expired := false);
  }

  // --------------------------------------------------------- the loaded policy

  /** The policy file with the grants of the moment; nothing when either is missing. */
  function Effective(file: Option<P.Policy>, grants: Option<seq<string>>): Option<P.Policy> {
    if file.None? || grants.None? then None else P.WithDirect(file.value, grants.value)
  }

  lemma NormalFormsStay(ids: seq<string>)
    requires forall v | v in ids :: I.IsNormal(v)
    ensures P.AllNormalize(ids) && P.Normals(ids) == Elements(ids)
  {
    forall v ensures v in P.Normals(ids) <==> v in Elements(ids) {
      if v in ids {
        assert I.IsNormal(v);
      }
    }
  }

  lemma GrantAllowsIff(grants: seq<string>, file: P.Policy, c: P.Conversation, id: string)
    requires file.Valid() && (forall v | v in grants :: I.IsNormal(v))
    requires P.IsDirectChat(c, id) && id !in file.direct
    ensures Effective(Some(file), Some(grants)).Some? && Effective(Some(file), Some(grants)).value.Valid()
    ensures P.Authorize(Effective(Some(file), Some(grants)).value, c).allowed <==>
              c.guid !in file.excluded && id !in file.owners && id in grants
  {
    NormalFormsStay(grants);
    P.WithDirectKeepsValid(file, grants);
    P.DirectIsValid(P.WithDirect(file, grants).value, c, id);
    assert id in grants <==> id in Elements(grants);
  }

  /** Some field of the published snapshot normalizes to the identity. */
  ghost predicate SnapshotGrants(cfg: C.Source, a: Attempt, id: string) {
    && a.fetched.Ok? && a.fetched.value.contacts.Some?
    && exists card | card in a.fetched.value.contacts.value :: C.Grants(card, cfg.region, id)
  }

  lemma PublishedIdentities(cfg: C.Source, a: Attempt)
    requires Publishes(cfg, a)
    ensures forall id :: id in Outcome(cfg, a).value <==> SnapshotGrants(cfg, a, id)
    ensures forall v | v in Outcome(cfg, a).value :: I.IsNormal(v)
  {
    C.IdentitiesMeaning(cfg, a.fetched.value);
  }

  /**
   From a card to a decision: with grants available the policy always loads and stays valid, and a
   direct chat that the file alone does not allow is allowed exactly while a snapshot that grants its
   counterpart stands and is fresh, and neither exclusion nor the owner's own address forbids it.
   */
  lemma DerivedGrantAllowsIff(
      cfg: C.Source, maxAge: int, h: seq<Attempt>, now: int, grants: seq<string>, file: P.Policy, c: P.Conversation,
      id: string)
    requires file.Valid() && GrantsAt(cfg, maxAge, h, now, grants)
    requires P.IsDirectChat(c, id) && id !in file.direct
    ensures Effective(Some(file), Some(grants)).Some? && Effective(Some(file), Some(grants)).value.Valid()
    ensures P.Authorize(Effective(Some(file), Some(grants)).value, c).allowed <==>
              && c.guid !in file.excluded && id !in file.owners
              && exists k | 0 <= k < |h| ::
                   Stands(cfg, h, k) && IsFresh(h[k], maxAge, now) && SnapshotGrants(cfg, h[k], id)
  {
    var k :| 0 <= k < |h| && Stands(cfg, h, k) && IsFresh(h[k], maxAge, now) && grants == Outcome(cfg, h[k]).value;
    PublishedIdentities(cfg, h[k]);
    GrantAllowsIff(grants, file, c, id);
    forall j | 0 <= j < |h| && Stands(cfg, h, j) ensures j == k {
      StandsOnce(cfg, h, j, k);
    }
  }

  /**
   Without grants there is no policy: with what the manager gives at a moment, a file loads exactly when the
   history grants something then, and no file loads when there is none.
   */
  lemma PolicyLoadsIff(cfg: C.Source, maxAge: int, h: seq<Attempt>, now: int, file: Option<P.Policy>,
                       got: Option<seq<string>>)
    requires if got.Some? then GrantsAt(cfg, maxAge, h, now, got.value) else !HasGrants(cfg, maxAge, h, now)
    requires file.Some? ==> file.value.Valid()
    ensures Effective(file, got).Some? <==> file.Some? && HasGrants(cfg, maxAge, h, now)
    ensures Effective(file, got).Some? ==>
              var p := Effective(file, got).value;
              && p.owners == file.value.owners && p.excluded == file.value.excluded
              && forall v :: v in p.direct <==> v in file.value.direct || (v in got.value && v !in p.owners)
  {
    if got.Some? {
      var k :| 0 <= k < |h| && Stands(cfg, h, k) && IsFresh(h[k], maxAge, now) && got.value == Outcome(cfg, h[k]).value;
      PublishedIdentities(cfg, h[k]);
      NormalFormsStay(got.value);
      assert forall v :: v in Elements(got.value) <==> v in got.value;
    }
  }
}
