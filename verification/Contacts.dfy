/**
 Grants derived from one Contacts snapshot (internal/contacts/source.go): telephone numbers under an
 owner region, and the identities that a whole snapshot yields.
 */
module Contacts {
  import opened Lists
  import opened Wrappers
  import opened Text
  import opened Identity

  /** The owner's selection, from the configuration. */
  datatype Source = Source(containerId: string, groupIds: Option<seq<string>>, region: string, maxContacts: int)

  /** A card as it arrives; None is an absent array. */
  datatype Contact = Contact(id: string, phones: Option<seq<string>>, emails: Option<seq<string>>)

  datatype Snapshot = Snapshot(
    containerId: string, groupIds: Option<seq<string>>, contacts: Option<seq<Contact>>, complete: bool)

  datatype Derived = Derived(identities: seq<string>, skipped: nat)

  datatype Error =
    | Unavailable | Invalid | PermissionRequired | PermissionDenied | SelectionMissing | Overflow
    | StoreChanged | Timeout | UnsafeHelper | Unsupported | InvalidConfig

  // ------------------------------------------------------- telephone numbers

  predicate HasPlus(v: string) { v != "" && v[0] == '+' }

  predicate IsNanpRegion(region: string) { region == "US" || region == "CA" }

  predicate AllNumberChars(v: string) { forall c | c in v :: IsDigit(c) || IsSeparator(c) }

  /** Eleven digits: 1, an area code and an exchange code that begin with 2 to 9, and the rest. */
  predicate IsNanp(d: string) { |d| == 11 && d[0] == '1' && d[1] >= '2' && d[4] >= '2' }

  function WithCountry(d: string): string { if |d| == 10 then "1" + d else d }

  function NormalizePhone(raw: string, region: string): Option<string> {
    var v := Trim(raw);
    if HasPlus(v) || !IsNanpRegion(region) then Normalize(v)
    else if AllNumberChars(v) && IsNanp(WithCountry(Digits(v))) then Normalize("+" + WithCountry(Digits(v)))
    else None
  }

  method NormalizePhoneField(raw: string, region: string) returns (r: Option<string>)
    ensures r == NormalizePhone(raw, region)
  {
    var value := Trim(raw);
    if !HasPlus(value) && (region == "US" || region == "CA") {
      var digits := NationalDigits(value);
      if digits.None? {
        return None;
      }
      value := digits.value;
      if |value| == 10 {
        value := "1" + value;
      }
      if |value| != 11 || value[0] != '1' || value[1] < '2' || value[4] < '2' {
        return None;
      }
      value := "+" + value;
    }
    r := NormalizeIdentity(value);
  }

  /** The digit loop, which gives up on any character that is no digit or separator. */
  method NationalDigits(value: string) returns (r: Option<string>)
    ensures r == if AllNumberChars(value) then Some(Digits(value)) else None
  {
    var digits := "";
    for i := 0 to |value|
      invariant digits == Digits(value[..i]) && AllNumberChars(value[..i])
    {
      assert value[..i + 1] == value[..i] + [value[i]];
      DigitsAppend(value[..i], value[i]);
      if IsDigit(value[i]) {
        digits := digits + [value[i]];
      } else if !IsSeparator(value[i]) {
        assert value[i] in value;
        return None;
      }
    }
    assert value[..|value|] == value;
    return Some(digits);
  }

  lemma NanpIsNormal(d: string)
    requires IsNanp(d) && forall c | c in d :: IsDigit(c)
    ensures Normalize("+" + d) == Some("+" + d)
  {
    var v := "+" + d;
    assert forall i | 1 <= i < |v| :: v[i] == d[i - 1] && d[i - 1] in d;
    PhoneFormFixed(v);
    E164Characters(v);
    assert '@' !in v;
  }

  lemma WithCountryDigits(v: string)
    ensures forall c | c in WithCountry(Digits(v)) :: IsDigit(c)
  {
  }

  /** Whatever a field normalizes to is a fixed point in the same region. */
  lemma NormalizePhoneFixesItsOutput(raw: string, region: string)
    requires NormalizePhone(raw, region).Some?
    ensures NormalizePhone(NormalizePhone(raw, region).value, region) == NormalizePhone(raw, region)
  {
    var v, out := Trim(raw), NormalizePhone(raw, region).value;
    if HasPlus(v) || !IsNanpRegion(region) {
      NormalFormIsCanonical(v);
      NormalFormIsTrimmed(out);
      if HasPlus(v) {
        PlusIsKept(v);
      }
    } else {
      WithCountryDigits(v);
      NanpIsNormal(WithCountry(Digits(v)));
      E164Characters(out);
    }
  }

  lemma NormalFormIsTrimmed(v: string)
    requires IsNormal(v)
    ensures Trim(v) == v
  {
    if IsE164(v) {
      E164Characters(v);
    } else {
      assert Normalize(v) == Some(Lower(Trim(v)));
      assert |Trim(v)| == |v|;
      TrimOfEqualLength(v);
    }
  }

  lemma TrimOfEqualLength(s: string)
    requires |Trim(s)| == |s|
    ensures Trim(s) == s
  {
  }

  lemma PlusIsKept(v: string)
    requires Trim(v) == v && HasPlus(v) && Normalize(v).Some?
    ensures HasPlus(Normalize(v).value)
  {
  }

  /**
   In a national region, a field without a plus sign is accepted exactly when it is a ten-digit
   number, spelled with or without the leading 1 and with any separators, and means +1 and that number.
   */
  lemma NationalAcceptedIff(raw: string, region: string, out: string)
    requires IsNanpRegion(region) && !HasPlus(Trim(raw))
    ensures NormalizePhone(raw, region) == Some(out) <==>
            exists n: string ::
              && |n| == 10 && n[0] >= '2' && n[3] >= '2' && AllNumberChars(Trim(raw))
              && (Digits(Trim(raw)) == n || Digits(Trim(raw)) == "1" + n) && out == "+1" + n
  {
    var v := Trim(raw);
    var d := WithCountry(Digits(v));
    WithCountryDigits(v);
    if AllNumberChars(v) && IsNanp(d) {
      NanpIsNormal(d);
      var n := d[1..];
      assert d == "1" + n && "+" + d == "+1" + n;
    }
    if n: string :|
        && |n| == 10 && n[0] >= '2' && n[3] >= '2' && AllNumberChars(v)
        && (Digits(v) == n || Digits(v) == "1" + n) && out == "+1" + n {
      assert d == "1" + n;
      NanpIsNormal(d);
      assert "+" + d == "+1" + n;
    }
  }

  /** Every accepted national spelling means the same as its international spelling, in every region. */
  lemma NationalEqualsInternational(raw: string, region: string, anywhere: string)
    requires IsNanpRegion(region) && !HasPlus(Trim(raw)) && NormalizePhone(raw, region).Some?
    ensures var prefix := if |Digits(Trim(raw))| == 10 then "+1" else "+";
            NormalizePhone(prefix + Trim(raw), anywhere) == NormalizePhone(raw, region)
  {
    var v := Trim(raw);
    var d := WithCountry(Digits(v));
    WithCountryDigits(v);
    NationalMeansNanp(raw, region);
    if |Digits(v)| == 10 {
      TenDigitsAbroad(v, d, anywhere);
    } else {
      ElevenDigitsAbroad(v, d, anywhere);
    }
  }

  lemma NationalMeansNanp(raw: string, region: string)
    requires IsNanpRegion(region) && !HasPlus(Trim(raw)) && NormalizePhone(raw, region).Some?
    ensures var v := Trim(raw);
            && AllNumberChars(v) && v != "" && IsNanp(WithCountry(Digits(v)))
            && NormalizePhone(raw, region) == Some("+" + WithCountry(Digits(v)))
  {
    WithCountryDigits(Trim(raw));
    NanpIsNormal(WithCountry(Digits(Trim(raw))));
  }

  lemma TenDigitsAbroad(v: string, d: string, anywhere: string)
    requires AllNumberChars(v) && d == "1" + Digits(v) && v != "" && !IsSpace(v[|v| - 1])
    requires IsNanp(d) && forall c | c in d :: IsDigit(c)
    ensures NormalizePhone("+1" + v, anywhere) == Some("+" + d)
  {
    var t := WithOne(v);
    ElevenDigitsAbroad(t, d, anywhere);
  }

  lemma ElevenDigitsAbroad(v: string, d: string, anywhere: string)
    requires AllNumberChars(v) && d == Digits(v) && v != "" && !IsSpace(v[|v| - 1])
    requires IsNanp(d) && forall c | c in d :: IsDigit(c)
    ensures NormalizePhone("+" + v, anywhere) == Some("+" + d)
  {
    Spelled(v, d);
    PlusIsInternational("+" + v, v, d, anywhere);
  }

  /** A number spelled with the country digit in front. */
  lemma WithOne(v: string) returns (t: string)
    requires AllNumberChars(v) && v != ""
    ensures Digits(t) == "1" + Digits(v) && AllNumberChars(t) && "+" + t == "+1" + v
    ensures t != "" && t[|t| - 1] == v[|v| - 1]
  {
    t := "1" + v;
    assert t[0] == '1' && t[1..] == v;
    DigitsHead(t);
    assert forall c | c in t :: c == '1' || c in v;
  }

  lemma PlusIsInternational(text: string, tail: string, d: string, anywhere: string)
    requires text == "+" + tail && Trim(text) == text && Normalize(text) == Some("+" + d)
    ensures NormalizePhone(text, anywhere) == Some("+" + d)
  {
    assert text[0] == '+';
  }

  lemma Spelled(tail: string, d: string)
    requires IsNanp(d) && Digits(tail) == d && AllNumberChars(tail)
    requires tail != "" && !IsSpace(tail[|tail| - 1])
    ensures Trim("+" + tail) == "+" + tail && Normalize("+" + tail) == Some("+" + d)
  {
    TrimPlusText(tail);
    SpelledForm(tail, d);
    NormalizePlus(tail, d);
  }

  lemma TrimPlusText(tail: string)
    requires tail != "" && !IsSpace(tail[|tail| - 1])
    ensures Trim("+" + tail) == "+" + tail
  {
    var spelled := "+" + tail;
    assert spelled[|spelled| - 1] == tail[|tail| - 1];
    TrimFixed(spelled);
  }

  lemma NormalizePlus(tail: string, d: string)
    requires Trim("+" + tail) == "+" + tail && AllNumberChars(tail)
    requires PhoneForm("+" + tail) == Some("+" + d)
    ensures Normalize("+" + tail) == Some("+" + d)
  {
    assert '@' !in "+" + tail;
  }

  lemma SpelledForm(tail: string, d: string)
    requires IsNanp(d) && Digits(tail) == d && AllNumberChars(tail)
    ensures PhoneForm("+" + tail) == Some("+" + d)
  {
    assert ("+" + tail)[1..] == tail;
    E164OfNanp(d);
  }

  lemma E164OfNanp(d: string)
    requires IsNanp(d) && forall c | c in d :: IsDigit(c)
    ensures IsE164("+" + d)
  {
    var v := "+" + d;
    assert forall i | 1 <= i < |v| :: v[i] == d[i - 1] && d[i - 1] in d;
  }

  /** The text spells a ten-digit national number, its area and exchange codes beginning with 2 to 9. */
  ghost predicate SpellsNational(t: string, n: string) {
    && |n| == 10 && (forall c | c in n :: '0' <= c <= '9') && '2' <= n[0] && '2' <= n[3]
    && (forall c | c in t :: '0' <= c <= '9' || c in " -().") && (Digits(t) == n || Digits(t) == "1" + n)
  }

  /**
   What a telephone field is accepted as: in the United States and Canada, unless it begins with a plus
   sign, a national number; in every other case, whatever identity it spells.
   */
  lemma PhoneFieldIff(raw: string, region: string, out: string)
    ensures NormalizePhone(raw, region) == Some(out) <==>
            exists t :: IsTrimOf(t, raw) &&
                        if region in ["US", "CA"] && (t == "" || t[0] != '+')
                        then exists n :: SpellsNational(t, n) && out == "+1" + n
                        else Normalize(raw) == Some(out)
  {
    var t := Trim(raw);
    TrimIff(raw, t);
    forall u ensures IsTrimOf(u, raw) <==> u == t {
      TrimIff(raw, u);
    }
    TrimFixed(t);
    if IsNanpRegion(region) && !HasPlus(t) {
      NationalAcceptedIff(raw, region, out);
      NationalIff(t);
    }
  }

  lemma NationalIff(t: string)
    ensures forall n: string ::
              (&& |n| == 10 && n[0] >= '2' && n[3] >= '2' && AllNumberChars(t)
               && (Digits(t) == n || Digits(t) == "1" + n)) <==> SpellsNational(t, n)
  {
    forall n: string | Digits(t) == n || Digits(t) == "1" + n ensures forall c | c in n :: '0' <= c <= '9' {
      forall c | c in n ensures '0' <= c <= '9' {
        assert c in Digits(t);
      }
    }
    assert AllNumberChars(t) <==> forall c | c in t :: '0' <= c <= '9' || c in " -().";
  }

  // -------------------------------------------------------------- one field

  /** A phone field counts when its normal form begins with a plus sign. */
  function PhoneGrant(raw: string, region: string): Option<string> {
    var n := NormalizePhone(raw, region);
    if n.Some? && HasPlus(n.value) then n else None
  }

  /** An email field counts when its normal form holds an at sign. */
  function EmailGrant(raw: string): Option<string> {
    var n := Normalize(raw);
    if n.Some? && '@' in n.value then n else None
  }

  method GrantPhone(raw: string, region: string) returns (grant: Option<string>)
    ensures grant == PhoneRule(region)(raw)
  {
    var normalized := NormalizePhoneField(raw, region);
    if normalized.None? || !HasPlus(normalized.value) {
      return None;
    }
    return normalized;
  }

  method GrantEmail(raw: string) returns (grant: Option<string>)
    ensures grant == EmailRule()(raw)
  {
    var normalized := NormalizeIdentity(raw);
    if normalized.None? || '@' !in normalized.value {
      return None;
    }
    return normalized;
  }

  /** Every derived identity is a normal form, so it can join the direct identities of a policy. */
  lemma GrantsAreNormal(raw: string, region: string)
    ensures PhoneGrant(raw, region).Some? ==> IsNormal(PhoneGrant(raw, region).value)
    ensures EmailGrant(raw).Some? ==> IsNormal(EmailGrant(raw).value)
  {
    if EmailGrant(raw).Some? {
      NormalFormIsCanonical(raw);
    }
    if PhoneGrant(raw, region).Some? {
      var v := Trim(raw);
      if HasPlus(v) || !IsNanpRegion(region) {
        NormalFormIsCanonical(v);
      } else {
        NormalFormIsCanonical("+" + WithCountry(Digits(v)));
      }
    }
  }

  // ------------------------------------------------------------ one snapshot

  predicate IsId(id: string) { id != "" && ByteLen(id) <= 512 }

  predicate ShortFields(fields: seq<string>) { forall f | f in fields :: ByteLen(f) <= 512 }

  predicate CardOk(c: Contact) {
    && IsId(c.id) && c.phones.Some? && c.emails.Some?
    && |c.phones.value| <= 100 && |c.emails.value| <= 100
    && ShortFields(c.phones.value) && ShortFields(c.emails.value)
  }

  function Ids(cs: seq<Contact>): seq<string> { seq(|cs|, i requires 0 <= i < |cs| => cs[i].id) }

  predicate CardsOk(cs: seq<Contact>) { Distinct(Ids(cs)) && forall c | c in cs :: CardOk(c) }

  predicate HeaderOk(cfg: Source, s: Snapshot) {
    && s.complete && s.containerId == cfg.containerId
    && s.contacts.Some? && |s.contacts.value| <= cfg.maxContacts
    && s.groupIds.Some? && |s.groupIds.value| <= 100
    && (cfg.groupIds.Some? ==> |s.groupIds.value| == |cfg.groupIds.value|)
  }

  predicate GroupsOk(cfg: Source, ids: seq<string>) {
    && Distinct(ids) && (forall id | id in ids :: IsId(id))
    && (cfg.groupIds.Some? ==> forall id | id in ids :: id in cfg.groupIds.value)
  }

  /** A complete answer to the question that was asked, within its bounds. */
  predicate Acceptable(cfg: Source, s: Snapshot) {
    && HeaderOk(cfg, s) && GroupsOk(cfg, s.groupIds.value)
    && (s.groupIds.value == [] ==> s.contacts.value == [])
    && CardsOk(s.contacts.value)
  }

  /** What one kind of field grants. */
  type Rule = string -> Option<string>

  function PhoneRule(region: string): Rule { (raw: string) => PhoneGrant(raw, region) }

  function EmailRule(): Rule { (raw: string) => EmailGrant(raw) }

  function FieldOutcomes(fields: seq<string>, rule: Rule): seq<Option<string>> {
    seq(|fields|, i requires 0 <= i < |fields| => rule(fields[i]))
  }

  function Fields(list: Option<seq<string>>): seq<string> { if list.Some? then list.value else [] }

  /** Each field's grant, or None for a field left out: phones, then emails. */
  function CardOutcomes(c: Contact, region: string): seq<Option<string>> {
    FieldOutcomes(Fields(c.phones), PhoneRule(region)) + FieldOutcomes(Fields(c.emails), EmailRule())
  }

  function CardRule(region: string): Contact -> seq<Option<string>> { (c: Contact) => CardOutcomes(c, region) }

  function Outcomes(cs: seq<Contact>, region: string): seq<Option<string>> { Gather(cs, CardRule(region)) }

  function Values(os: seq<Option<string>>): set<string> { set o | o in os && o.Some? :: o.value }

  /** The values, each once. */
  function Unique(os: seq<Option<string>>): (u: seq<string>)
    ensures Distinct(u) && Elements(u) == Values(os)
  {
    if os == [] then []
    else
      var before, last := Unique(os[..|os| - 1]), os[|os| - 1];
      assert os == os[..|os| - 1] + [last];
      if last.Some? && last.value !in before then
        assert Elements(before + [last.value]) == Elements(before) + {last.value};
        before + [last.value]
      else before
  }

  /** What a snapshot grants: the accepted normal forms in order, and how many fields were left out. */
  function Identities(cfg: Source, s: Snapshot): Result<Derived, Error> {
    if !Acceptable(cfg, s) then Err(Invalid)
    else
      var os := Outcomes(s.contacts.value, cfg.region);
      Ok(Derived(Sort(Unique(os)), multiset(os)[None]))
  }

  lemma OutcomesStep(cs: seq<Contact>, region: string, i: nat)
    requires i < |cs|
    ensures Outcomes(cs[..i + 1], region) == Outcomes(cs[..i], region) + CardOutcomes(cs[i], region)
  {
    assert cs[..i + 1][..i] == cs[..i];
  }

  lemma AppendOutcome(os: seq<Option<string>>, o: Option<string>)
    ensures Values(os + [o]) == Values(os) + if o.Some? then {o.value} else {}
    ensures multiset(os + [o])[None] == multiset(os)[None] + if o.None? then 1 else 0
  {
    forall v ensures v in Values(os + [o]) <==> v in Values(os) || (o.Some? && v == o.value) {
      if v in Values(os) {
        var w :| w in os && w.Some? && w.value == v;
        assert w in os + [o];
      }
      assert o in os + [o];
    }
  }

  lemma AllFields(fields: seq<string>, n: nat)
    requires n == |fields|
    ensures fields[..n] == fields
  {
  }

  lemma NoFields(before: seq<Option<string>>, fields: seq<string>, rule: Rule)
    ensures before + FieldOutcomes(fields[..0], rule) == before && ShortFields(fields[..0])
  {
  }

  /** The identities gathered and the fields left out so far. */
  ghost predicate Tallies(os: seq<Option<string>>, identities: set<string>, skipped: nat) {
    identities == Values(os) && skipped == multiset(os)[None]
  }

  lemma FieldStep(before: seq<Option<string>>, fields: seq<string>, rule: Rule, i: nat, grown: set<string>, left: nat)
    requires i < |fields| && ShortFields(fields[..i]) && ByteLen(fields[i]) <= 512
    requires Tallies(before + FieldOutcomes(fields[..i], rule), grown, left)
    ensures var o := rule(fields[i]);
            Tallies(before + FieldOutcomes(fields[..i + 1], rule),
                    if o.Some? then grown + {o.value} else grown, if o.None? then left + 1 else left)
    ensures ShortFields(fields[..i + 1])
  {
    var a, b := before + FieldOutcomes(fields[..i], rule), before + FieldOutcomes(fields[..i + 1], rule);
    AppendOutcome(a, rule(fields[i]));
    assert b == a + [rule(fields[i])];
    assert fields[..i + 1] == fields[..i] + [fields[i]];
  }

  lemma LongField(fields: seq<string>, i: nat)
    requires i < |fields| && ByteLen(fields[i]) > 512
    ensures !ShortFields(fields)
  {
    assert fields[i] in fields;
  }

  method DeriveIdentities(cfg: Source, s: Snapshot) returns (r: Result<Derived, Error>)
    ensures r == Identities(cfg, s)
  {
    if !s.complete || s.containerId != cfg.containerId || s.contacts.None? || |s.contacts.value| > cfg.maxContacts
       || s.groupIds.None? || |s.groupIds.value| > 100
       || (cfg.groupIds.Some? && |s.groupIds.value| != |cfg.groupIds.value|) {
      return Err(Invalid);
    }
    var groupsOk := CheckGroups(cfg, s.groupIds.value);
    if !groupsOk {
      return Err(Invalid);
    }
    var cs := s.contacts.value;
    if s.groupIds.value == [] && cs != [] {
      return Err(Invalid);
    }
    var cardsOk, identities, skipped := AddCards(cs, cfg.region);
    if !cardsOk {
      return Err(Invalid);
    }
    var result := InOrder(identities);
    SortedValues(Outcomes(cs, cfg.region), result);
    return Ok(Derived(result, skipped));
  }

  method AddCards(cs: seq<Contact>, region: string) returns (ok: bool, identities: set<string>, skipped: nat)
    ensures ok <==> CardsOk(cs)
    ensures ok ==> identities == Values(Outcomes(cs, region))
    ensures ok ==> skipped == multiset(Outcomes(cs, region))[None]
  {
    var seen: set<string> := {};
    ok, identities, skipped := true, {}, 0;
    for i := 0 to |cs|
      invariant ok && CardsOk(cs[..i]) && seen == Elements(Ids(cs[..i]))
      invariant identities == Values(Outcomes(cs[..i], region))
      invariant skipped == multiset(Outcomes(cs[..i], region))[None]
    {
      CardsStep(cs, i);
      OutcomesStep(cs, region, i);
      if cs[i].id in seen {
        CardsFail(cs, i);
        return false, {}, 0;
      }
      seen := seen + {cs[i].id};
      ok, identities, skipped := AddCard(cs[i], region, Outcomes(cs[..i], region), identities, skipped);
      if !ok {
        CardsFail(cs, i);
        return;
      }
    }
    assert cs[..|cs|] == cs;
  }

  /** The body of the card loop: the checks of one card, and its fields. */
  method AddCard(c: Contact, region: string, ghost before: seq<Option<string>>, identities: set<string>, skipped: nat)
    returns (ok: bool, grown: set<string>, left: nat)
    requires identities == Values(before) && skipped == multiset(before)[None]
    ensures ok <==> CardOk(c)
    ensures ok ==> grown == Values(before + CardOutcomes(c, region))
    ensures ok ==> left == multiset(before + CardOutcomes(c, region))[None]
  {
    if c.id == "" || ByteLen(c.id) > 512 || c.phones.None? || c.emails.None?
       || |c.phones.value| > 100 || |c.emails.value| > 100 {
      return false, {}, 0;
    }
    ok, grown, left := AddPhones(c.phones.value, region, before, identities, skipped);
    if ok {
      ghost var phones := FieldOutcomes(c.phones.value, PhoneRule(region));
      ghost var emails := FieldOutcomes(c.emails.value, EmailRule());
      ok, grown, left := AddEmails(c.emails.value, before + phones, grown, left);
      Regrouped(before, phones, emails);
    }
  }

  lemma CardsStep(cs: seq<Contact>, i: nat)
    requires i < |cs| && CardsOk(cs[..i])
    ensures CardsOk(cs[..i + 1]) <==> CardOk(cs[i]) && cs[i].id !in Elements(Ids(cs[..i]))
    ensures Elements(Ids(cs[..i + 1])) == Elements(Ids(cs[..i])) + {cs[i].id}
  {
    var a, b := cs[..i], cs[..i + 1];
    assert b == a + [cs[i]];
    assert Ids(b) == Ids(a) + [cs[i].id];
    assert cs[i] in b;
    if cs[i].id in Elements(Ids(a)) {
      var k :| 0 <= k < i && Ids(a)[k] == cs[i].id;
      assert Ids(b)[k] == Ids(b)[i];
    } else {
      assert forall k | 0 <= k < i :: Ids(a)[k] in Elements(Ids(a)) && Ids(b)[k] == Ids(a)[k];
    }
  }

  lemma CardsFail(cs: seq<Contact>, i: nat)
    requires i < |cs| && !CardsOk(cs[..i + 1])
    ensures !CardsOk(cs)
  {
    var b := cs[..i + 1];
    if Distinct(Ids(b)) {
      var c :| c in b && !CardOk(c);
      assert c in cs;
    } else {
      var j, k :| 0 <= j < k < |b| && Ids(b)[j] == Ids(b)[k];
      assert Ids(cs)[j] == Ids(cs)[k];
    }
  }

  method CheckGroups(cfg: Source, ids: seq<string>) returns (ok: bool)
    ensures ok <==> GroupsOk(cfg, ids)
  {
    var want: set<string>, seen: set<string> := {}, {};
    if cfg.groupIds.Some? {
      for i := 0 to |cfg.groupIds.value|
        invariant want == Elements(cfg.groupIds.value[..i])
      {
        want := want + {cfg.groupIds.value[i]};
      }
    }
    for i := 0 to |ids|
      invariant GroupsOk(cfg, ids[..i]) && seen == Elements(ids[..i])
      invariant cfg.groupIds.Some? ==> want == Elements(cfg.groupIds.value) - seen
    {
      var id := ids[i];
      GroupsStep(cfg, ids, i);
      if id == "" || ByteLen(id) > 512 || id in seen || (cfg.groupIds.Some? && id !in want) {
        GroupsFail(cfg, ids, i);
        return false;
      }
      seen := seen + {id};
      want := want - {id};
    }
    assert ids[..|ids|] == ids;
    return true;
  }

  lemma GroupsStep(cfg: Source, ids: seq<string>, i: nat)
    requires i < |ids| && GroupsOk(cfg, ids[..i])
    ensures GroupsOk(cfg, ids[..i + 1]) <==>
              IsId(ids[i]) && ids[i] !in ids[..i] && (cfg.groupIds.Some? ==> ids[i] in cfg.groupIds.value)
    ensures Elements(ids[..i + 1]) == Elements(ids[..i]) + {ids[i]}
  {
    var a, b := ids[..i], ids[..i + 1];
    assert b == a + [ids[i]];
    assert ids[i] in b;
    if ids[i] in a {
      var k :| 0 <= k < i && a[k] == ids[i];
      assert b[k] == b[i];
    }
  }

  lemma GroupsFail(cfg: Source, ids: seq<string>, i: nat)
    requires i < |ids| && !GroupsOk(cfg, ids[..i + 1])
    ensures !GroupsOk(cfg, ids)
  {
    var b := ids[..i + 1];
    assert forall id | id in b :: id in ids;
    if !Distinct(b) {
      var j, k :| 0 <= j < k < |b| && b[j] == b[k];
      assert ids[j] == ids[k];
    }
  }

  method AddPhones(fields: seq<string>, region: string, ghost before: seq<Option<string>>, identities: set<string>,
                   skipped: nat)
    returns (ok: bool, grown: set<string>, left: nat)
    requires identities == Values(before) && skipped == multiset(before)[None]
    ensures ok <==> ShortFields(fields)
    ensures ok ==> Tallies(before + FieldOutcomes(fields, PhoneRule(region)), grown, left)
  {
    grown, left := identities, skipped;
    var i := 0;
    NoFields(before, fields, PhoneRule(region));
    while i < |fields|
      invariant 0 <= i <= |fields| && ShortFields(fields[..i])
      invariant Tallies(before + FieldOutcomes(fields[..i], PhoneRule(region)), grown, left)
    {
      if ByteLen(fields[i]) > 512 {
        LongField(fields, i);
        return false, {}, 0;
      }
      var grant := GrantPhone(fields[i], region);
      FieldStep(before, fields, PhoneRule(region), i, grown, left);
      if grant.None? {
        left := left + 1;
      } else {
        grown := grown + {grant.value};
      }
      i := i + 1;
    }
    AllFields(fields, i);
    ok := true;
  }

  method AddEmails(fields: seq<string>, ghost before: seq<Option<string>>, identities: set<string>, skipped: nat)
    returns (ok: bool, grown: set<string>, left: nat)
    requires identities == Values(before) && skipped == multiset(before)[None]
    ensures ok <==> ShortFields(fields)
    ensures ok ==> Tallies(before + FieldOutcomes(fields, EmailRule()), grown, left)
  {
    grown, left := identities, skipped;
    var i := 0;
    NoFields(before, fields, EmailRule());
    while i < |fields|
      invariant 0 <= i <= |fields| && ShortFields(fields[..i])
      invariant Tallies(before + FieldOutcomes(fields[..i], EmailRule()), grown, left)
    {
      if ByteLen(fields[i]) > 512 {
        LongField(fields, i);
        return false, {}, 0;
      }
      var grant := GrantEmail(fields[i]);
      FieldStep(before, fields, EmailRule(), i, grown, left);
      if grant.None? {
        left := left + 1;
      } else {
        grown := grown + {grant.value};
      }
      i := i + 1;
    }
    AllFields(fields, i);
    ok := true;
  }

  /** A set's members, taken in any order and then sorted. */
  method InOrder(values: set<string>) returns (result: seq<string>)
    ensures Sorted(result) && Distinct(result) && Elements(result) == values
  {
    result := [];
    var rest := values;
    while rest != {}
      invariant Distinct(result) && rest !! Elements(result) && rest + Elements(result) == values
      decreases |rest|
    {
      var v :| v in rest;
      rest := rest - {v};
      result := result + [v];
    }
    SortElements(result);
    SortSorts(result);
    result := Sort(result);
  }

  lemma SortedSetUnique(a: seq<string>, b: seq<string>)
    requires Sorted(a) && Sorted(b) && Distinct(a) && Distinct(b) && Elements(a) == Elements(b)
    ensures a == b
  {
    DistinctMultiset(a);
    DistinctMultiset(b);
    SortedUnique(a, b);
  }

  /** A sorted enumeration of the values without repetition is the one sorted list of them. */
  lemma SortedValues(os: seq<Option<string>>, result: seq<string>)
    ensures Sorted(Sort(Unique(os))) && Distinct(Sort(Unique(os))) && Elements(Sort(Unique(os))) == Values(os)
    ensures Sorted(result) && Distinct(result) && Elements(result) == Values(os) ==> result == Sort(Unique(os))
  {
    SortElements(Unique(os));
    SortSorts(Unique(os));
    if Sorted(result) && Distinct(result) && Elements(result) == Values(os) {
      SortedSetUnique(result, Sort(Unique(os)));
    }
  }

  // ------------------------------------------------------------- properties

  /** One of the card's fields normalizes to the identity. */
  ghost predicate Grants(c: Contact, region: string, v: string) {
    || (c.phones.Some? && exists p | p in c.phones.value :: NormalizePhone(p, region) == Some(v) && HasPlus(v))
    || (c.emails.Some? && exists e | e in c.emails.value :: Normalize(e) == Some(v) && '@' in v)
  }

  lemma GrantsIff(c: Contact, region: string, v: string)
    ensures Grants(c, region, v) <==>
              || (exists p | p in Fields(c.phones) :: PhoneGrant(p, region) == Some(v))
              || (exists e | e in Fields(c.emails) :: EmailGrant(e) == Some(v))
  {
    forall p ensures PhoneGrant(p, region) == Some(v) <==> NormalizePhone(p, region) == Some(v) && HasPlus(v) {
    }
    forall e ensures EmailGrant(e) == Some(v) <==> Normalize(e) == Some(v) && '@' in v {
    }
  }

  /** The result is exactly the accepted normal forms, sorted and without repetition. */
  lemma IdentitiesMeaning(cfg: Source, s: Snapshot)
    requires Identities(cfg, s).Ok?
    ensures var ids := Identities(cfg, s).value.identities;
            && Sorted(ids) && Distinct(ids)
            && (forall v :: v in ids <==> exists c | c in s.contacts.value :: Grants(c, cfg.region, v))
            && (forall v | v in ids :: IsNormal(v))
  {
    var cs := s.contacts.value;
    var os := Outcomes(cs, cfg.region);
    SortedValues(os, []);
    var ids := Identities(cfg, s).value.identities;
    forall v ensures v in ids <==> exists c | c in cs :: Grants(c, cfg.region, v) {
      assert v in ids <==> v in Elements(ids);
      ValuesMeaning(cs, cfg.region, v);
    }
    forall v | v in ids ensures IsNormal(v) {
      var c :| c in cs && Grants(c, cfg.region, v);
      GrantedIsNormal(c, cfg.region, v);
    }
  }

  lemma GrantedIsNormal(c: Contact, region: string, v: string)
    requires Grants(c, region, v)
    ensures IsNormal(v)
  {
    GrantsIff(c, region, v);
    if p :| p in Fields(c.phones) && PhoneGrant(p, region) == Some(v) {
      GrantsAreNormal(p, region);
    } else {
      var e :| e in Fields(c.emails) && EmailGrant(e) == Some(v);
      GrantsAreNormal(e, region);
    }
  }

  lemma ValuesMeaning(cs: seq<Contact>, region: string, v: string)
    ensures v in Values(Outcomes(cs, region)) <==> exists c | c in cs :: Grants(c, region, v)
  {
    GatherMeaning(cs, CardRule(region), Some(v));
    forall c ensures Some(v) in CardOutcomes(c, region) <==> Grants(c, region, v) {
      GrantsIff(c, region, v);
      FieldOutcomesMeaning(Fields(c.phones), PhoneRule(region), v);
      FieldOutcomesMeaning(Fields(c.emails), EmailRule(), v);
      assert forall p :: PhoneRule(region)(p) == PhoneGrant(p, region);
      assert forall e :: EmailRule()(e) == EmailGrant(e);
    }
    assert forall c :: CardRule(region)(c) == CardOutcomes(c, region);
    assert v in Values(Outcomes(cs, region)) <==> Some(v) in Outcomes(cs, region);
  }

  lemma FieldOutcomesMeaning(fields: seq<string>, rule: Rule, v: string)
    ensures Some(v) in FieldOutcomes(fields, rule) <==> exists f | f in fields :: rule(f) == Some(v)
  {
    var os := FieldOutcomes(fields, rule);
    if f :| f in fields && rule(f) == Some(v) {
      var i :| 0 <= i < |fields| && fields[i] == f;
      assert os[i] in os;
    }
    if Some(v) in os {
      var i :| 0 <= i < |os| && os[i] == Some(v);
      assert fields[i] in fields;
    }
  }

  /** An answer that may be used: it is complete, of the container and the lists asked for, and within all bounds. */
  ghost predicate AnswersTheQuestion(cfg: Source, s: Snapshot) {
    && s.complete && s.containerId == cfg.containerId
    && s.groupIds.Some? && |s.groupIds.value| <= 100 && Distinct(s.groupIds.value)
    && (forall id | id in s.groupIds.value :: 0 < ByteLen(id) <= 512)
    && (cfg.groupIds.Some? ==>
          && |s.groupIds.value| == |cfg.groupIds.value|
          && forall id | id in s.groupIds.value :: id in cfg.groupIds.value)
    && s.contacts.Some? && |s.contacts.value| <= cfg.maxContacts
    && (s.contacts.value != [] ==> s.groupIds.value != [])
    && (forall i, j | 0 <= i < j < |s.contacts.value| :: s.contacts.value[i].id != s.contacts.value[j].id)
    && forall c | c in s.contacts.value :: IsGoodCard(c)
  }

  ghost predicate IsGoodCard(c: Contact) {
    && 0 < ByteLen(c.id) <= 512
    && c.phones.Some? && |c.phones.value| <= 100 && (forall f | f in c.phones.value :: ByteLen(f) <= 512)
    && c.emails.Some? && |c.emails.value| <= 100 && (forall f | f in c.emails.value :: ByteLen(f) <= 512)
  }

  /** An answer yields identities exactly when it may be used, and is invalid otherwise. */
  lemma IdentitiesIff(cfg: Source, s: Snapshot)
    ensures Identities(cfg, s).Ok? <==> AnswersTheQuestion(cfg, s)
    ensures Identities(cfg, s).Err? ==> Identities(cfg, s) == Err(Invalid)
  {
    assert forall id :: IsId(id) <==> 0 < ByteLen(id) <= 512;
    assert forall c :: CardOk(c) <==> IsGoodCard(c);
    if s.contacts.Some? {
      var cs := s.contacts.value;
      assert forall i | 0 <= i < |cs| :: Ids(cs)[i] == cs[i].id;
      DistinctIdsMeaning(cs);
    }
  }

  lemma DistinctIdsMeaning(cs: seq<Contact>)
    ensures Distinct(Ids(cs)) <==> forall i, j | 0 <= i < j < |cs| :: cs[i].id != cs[j].id
  {
    var ids := Ids(cs);
    if Distinct(ids) {
      forall i, j | 0 <= i < j < |cs| ensures cs[i].id != cs[j].id {
        assert ids[i] != ids[j];
      }
    }
    if forall i, j | 0 <= i < j < |cs| :: cs[i].id != cs[j].id {
      forall i, j | 0 <= i < j < |ids| ensures ids[i] != ids[j] {
        assert cs[i].id != cs[j].id;
      }
    }
  }

  ghost function UngrantedAt(fields: seq<string>, rule: Rule): set<int> {
    set k | 0 <= k < |fields| && rule(fields[k]).None?
  }

  /** How many of the fields grant nothing. */
  ghost function Ungranted(fields: seq<string>, rule: Rule): nat { |UngrantedAt(fields, rule)| }

  lemma UngrantedStep(fields: seq<string>, rule: Rule)
    requires fields != []
    ensures var n := |fields| - 1;
            Ungranted(fields, rule) == Ungranted(fields[..n], rule) + if rule(fields[n]).None? then 1 else 0
  {
    var n := |fields| - 1;
    var before := UngrantedAt(fields[..n], rule);
    assert n !in before;
    if rule(fields[n]).None? {
      assert UngrantedAt(fields, rule) == before + {n};
    } else {
      assert UngrantedAt(fields, rule) == before;
    }
  }

  lemma {:induction false} UngrantedIsCounted(fields: seq<string>, rule: Rule)
    ensures Ungranted(fields, rule) == multiset(FieldOutcomes(fields, rule))[None]
  {
    if fields == [] {
      assert UngrantedAt(fields, rule) == {};
    } else {
      var n := |fields| - 1;
      UngrantedIsCounted(fields[..n], rule);
      UngrantedStep(fields, rule);
      AppendOutcome(FieldOutcomes(fields[..n], rule), rule(fields[n]));
      assert FieldOutcomes(fields, rule) == FieldOutcomes(fields[..n], rule) + [rule(fields[n])];
    }
  }

  /** The same for a card, and for each of a sequence of cards. */
  ghost function CardUngranted(c: Contact, region: string): nat {
    Ungranted(Fields(c.phones), PhoneRule(region)) + Ungranted(Fields(c.emails), EmailRule())
  }

  ghost function UngrantedCounts(cs: seq<Contact>, region: string): seq<nat> {
    seq(|cs|, i requires 0 <= i < |cs| => CardUngranted(cs[i], region))
  }

  lemma {:induction false} UngrantedByCard(cs: seq<Contact>, region: string)
    ensures multiset(Outcomes(cs, region))[None] == Sum(UngrantedCounts(cs, region))
  {
    if cs != [] {
      var n := |cs| - 1;
      UngrantedByCard(cs[..n], region);
      UngrantedIsCounted(Fields(cs[n].phones), PhoneRule(region));
      UngrantedIsCounted(Fields(cs[n].emails), EmailRule());
      assert UngrantedCounts(cs, region)[..n] == UngrantedCounts(cs[..n], region);
      assert Outcomes(cs, region) == Outcomes(cs[..n], region) + CardOutcomes(cs[n], region);
    }
  }

  /** Exactly the fields that grant nothing are counted as left out, card by card. */
  lemma SkippedIsExact(cfg: Source, s: Snapshot)
    requires Identities(cfg, s).Ok?
    ensures Identities(cfg, s).value.skipped == Sum(UngrantedCounts(s.contacts.value, cfg.region))
  {
    UngrantedByCard(s.contacts.value, cfg.region);
  }

  /** An accepted answer names the selected lists, no more and no fewer. */
  lemma AcceptedMeansTheSelection(cfg: Source, s: Snapshot)
    requires Acceptable(cfg, s) && cfg.groupIds.Some?
    ensures Elements(s.groupIds.value) == Elements(cfg.groupIds.value)
    ensures Distinct(cfg.groupIds.value)
  {
    var got, want := s.groupIds.value, cfg.groupIds.value;
    DistinctCard(got);
    ElementsCard(want);
    assert Elements(got) <= Elements(want);
    SubsetCard(Elements(got), Elements(want));
    DistinctFromCard(want);
  }

  // A field is either granted or skipped, and grants may coincide.

  function FieldCount(cs: seq<Contact>): nat {
    if cs == [] then 0 else FieldCount(cs[..|cs| - 1]) + |Fields(cs[|cs| - 1].phones)| + |Fields(cs[|cs| - 1].emails)|
  }

  lemma {:induction false} OutcomesLength(cs: seq<Contact>, region: string)
    ensures |Outcomes(cs, region)| == FieldCount(cs)
  {
    if cs != [] {
      OutcomesLength(cs[..|cs| - 1], region);
    }
  }

  lemma {:induction false} ValuesAndNones(os: seq<Option<string>>)
    ensures |Unique(os)| + multiset(os)[None] <= |os|
  {
    if os != [] {
      var n := |os| - 1;
      ValuesAndNones(os[..n]);
      AppendOutcome(os[..n], os[n]);
      assert os == os[..n] + [os[n]];
    }
  }

  /** The identities and the fields left out are together at most the fields. */
  lemma FieldsAreAccountedFor(cfg: Source, s: Snapshot)
    requires Identities(cfg, s).Ok?
    ensures var d := Identities(cfg, s).value;
            |d.identities| + d.skipped <= FieldCount(s.contacts.value)
  {
    var os := Outcomes(s.contacts.value, cfg.region);
    OutcomesLength(s.contacts.value, cfg.region);
    ValuesAndNones(os);
    SortElements(Unique(os));
  }

  // ------------------------------------------------------- order never matters

  ghost predicate SameFields(a: Option<seq<string>>, b: Option<seq<string>>) {
    a.Some? == b.Some? && multiset(Fields(a)) == multiset(Fields(b))
  }

  /** Card by card the same, up to the order of the fields. */
  ghost predicate SameCards(a: seq<Contact>, b: seq<Contact>) {
    && |a| == |b|
    && forall i | 0 <= i < |a| ::
         a[i].id == b[i].id && SameFields(a[i].phones, b[i].phones) && SameFields(a[i].emails, b[i].emails)
  }

  /** Reordering the cards and the fields of each card changes neither acceptance nor the result. */
  lemma OrderNeverMatters(cfg: Source, s: Snapshot, reordered: seq<Contact>, cs: seq<Contact>)
    requires s.contacts.Some? && multiset(s.contacts.value) == multiset(reordered) && SameCards(reordered, cs)
    ensures Identities(cfg, s) == Identities(cfg, s.(contacts := Some(cs)))
  {
    var given := s.contacts.value;
    assert |given| == |multiset(given)| == |multiset(reordered)| == |cs|;
    SameAcceptance(given, reordered, cs);
    GatherPermuted(given, reordered, CardRule(cfg.region));
    OutcomesAlike(reordered, cs, cfg.region);
    SameOutcomes(Outcomes(given, cfg.region), Outcomes(cs, cfg.region));
    SameIdentities(cfg, s, cs);
  }

  lemma SameIdentities(cfg: Source, s: Snapshot, cs: seq<Contact>)
    requires s.contacts.Some? && |s.contacts.value| == |cs| && (CardsOk(s.contacts.value) <==> CardsOk(cs))
    requires multiset(Outcomes(s.contacts.value, cfg.region)) == multiset(Outcomes(cs, cfg.region))
    requires Sort(Unique(Outcomes(s.contacts.value, cfg.region))) == Sort(Unique(Outcomes(cs, cfg.region)))
    ensures Identities(cfg, s) == Identities(cfg, s.(contacts := Some(cs)))
  {
    var t := s.(contacts := Some(cs));
    assert (s.contacts.value == [] <==> cs == []) && t.groupIds == s.groupIds;
    assert Acceptable(cfg, s) <==> Acceptable(cfg, t);
  }

  lemma SameAcceptance(given: seq<Contact>, reordered: seq<Contact>, cs: seq<Contact>)
    requires multiset(given) == multiset(reordered) && SameCards(reordered, cs)
    ensures CardsOk(given) <==> CardsOk(cs)
  {
    if CardsOk(given) {
      CardsPermuted(given, reordered);
    }
    if CardsOk(reordered) {
      CardsPermuted(reordered, given);
    }
    CardsAlike(reordered, cs);
  }

  lemma SameOutcomes(a: seq<Option<string>>, b: seq<Option<string>>)
    requires multiset(a) == multiset(b)
    ensures Sort(Unique(a)) == Sort(Unique(b))
  {
    assert Values(a) == Values(b) by {
      forall o ensures o in a <==> o in b {
        assert o in a <==> o in multiset(a);
        assert o in b <==> o in multiset(b);
      }
    }
    SortDistinct(Unique(a), Unique(b));
  }

  lemma DistinctIdsIff(cs: seq<Contact>)
    ensures Distinct(Ids(cs)) <==> Distinct(cs) && forall x, y | x in cs && y in cs && x.id == y.id :: x == y
  {
    if Distinct(Ids(cs)) {
      forall i, j | 0 <= i < j < |cs| ensures cs[i] != cs[j] {
        assert Ids(cs)[i] != Ids(cs)[j];
      }
      forall x, y | x in cs && y in cs && x.id == y.id ensures x == y {
        var i :| 0 <= i < |cs| && cs[i] == x;
        var j :| 0 <= j < |cs| && cs[j] == y;
        assert Ids(cs)[i] == Ids(cs)[j];
      }
    }
  }

  lemma CardsPermuted(a: seq<Contact>, b: seq<Contact>)
    requires multiset(a) == multiset(b) && CardsOk(a)
    ensures CardsOk(b)
  {
    forall c ensures c in b <==> c in a {
      assert c in a <==> c in multiset(a);
      assert c in b <==> c in multiset(b);
    }
    DistinctIdsIff(a);
    DistinctIdsIff(b);
    DistinctMultiset(a);
    forall c | c in b ensures multiset(b)[c] == 1 {
      assert c in Elements(a);
    }
    DistinctFromMultiset(b);
  }

  lemma CardsAlike(a: seq<Contact>, b: seq<Contact>)
    requires SameCards(a, b)
    ensures CardsOk(a) <==> CardsOk(b)
  {
    assert Ids(a) == Ids(b);
    forall i | 0 <= i < |a| ensures CardOk(a[i]) <==> CardOk(b[i]) {
      CardAlike(a[i], b[i]);
    }
    assert (forall c | c in a :: CardOk(c)) <==> (forall i | 0 <= i < |a| :: CardOk(a[i]));
    assert (forall c | c in b :: CardOk(c)) <==> (forall i | 0 <= i < |b| :: CardOk(b[i]));
  }

  lemma CardAlike(a: Contact, b: Contact)
    requires a.id == b.id && SameFields(a.phones, b.phones) && SameFields(a.emails, b.emails)
    ensures CardOk(a) <==> CardOk(b)
  {
    FieldsAlike(a.phones, b.phones);
    FieldsAlike(a.emails, b.emails);
  }

  lemma FieldsAlike(a: Option<seq<string>>, b: Option<seq<string>>)
    requires SameFields(a, b)
    ensures |Fields(a)| == |Fields(b)| && (ShortFields(Fields(a)) <==> ShortFields(Fields(b)))
  {
    assert |multiset(Fields(a))| == |Fields(a)| && |multiset(Fields(b))| == |Fields(b)|;
    forall f ensures f in Fields(a) <==> f in Fields(b) {
      assert f in Fields(a) <==> f in multiset(Fields(a));
      assert f in Fields(b) <==> f in multiset(Fields(b));
    }
  }

  lemma {:induction false} OutcomesAlike(a: seq<Contact>, b: seq<Contact>, region: string)
    requires SameCards(a, b)
    ensures multiset(Outcomes(a, region)) == multiset(Outcomes(b, region))
  {
    if a != [] {
      var n := |a| - 1;
      OutcomesAlike(a[..n], b[..n], region);
      FieldOutcomesPermuted(Fields(a[n].phones), Fields(b[n].phones), PhoneRule(region));
      FieldOutcomesPermuted(Fields(a[n].emails), Fields(b[n].emails), EmailRule());
    }
  }

  lemma {:induction false} FieldOutcomesPermuted(a: seq<string>, b: seq<string>, rule: Rule)
    requires multiset(a) == multiset(b)
    ensures multiset(FieldOutcomes(a, rule)) == multiset(FieldOutcomes(b, rule))
  {
    assert |a| == |multiset(a)| == |multiset(b)| == |b|;
    if a != [] {
      var n := |a| - 1;
      var k := TakeOut(a, b);
      var left, right := b[..k], b[k + 1..];
      FieldOutcomesPermuted(a[..n], left + right, rule);
      assert FieldOutcomes(a, rule) == FieldOutcomes(a[..n], rule) + [rule(a[n])];
      assert FieldOutcomes(b, rule) == FieldOutcomes(left, rule) + [rule(a[n])] + FieldOutcomes(right, rule);
      assert FieldOutcomes(left + right, rule) == FieldOutcomes(left, rule) + FieldOutcomes(right, rule);
    }
  }

  // ------------------------------------------- phone fields that hold an email

  /** What a phone field grants is a telephone number exactly when the field holds no at sign. */
  lemma PhoneGrantIsNumberIff(raw: string, region: string)
    requires PhoneGrant(raw, region).Some?
    ensures IsE164(PhoneGrant(raw, region).value) <==> '@' !in raw
  {
    var v, out := Trim(raw), PhoneGrant(raw, region).value;
    TrimKeeps(raw);
    if '@' in raw {
      TrimKeepsVisible(raw, '@');
    }
    if HasPlus(v) || !IsNanpRegion(region) {
      assert Trim(v) == v by { TrimFixed(v); }
      if '@' in v {
        LowerKeepsClasses(v);
        assert '@' in out;
      }
    } else {
      assert '@' !in v;
      WithCountryDigits(v);
      NanpIsNormal(WithCountry(Digits(v)));
      E164OfNanp(WithCountry(Digits(v)));
    }
    if IsE164(out) {
      E164Characters(out);
    }
  }

  lemma {:induction false} TrimKeepsVisible(s: string, c: char)
    requires !IsSpace(c) && c in s
    ensures c in Trim(s)
  {
    TrimLeftKeepsVisible(s, c);
    TrimRightKeepsVisible(TrimLeft(s), c);
  }

  lemma {:induction false} TrimLeftKeepsVisible(s: string, c: char)
    requires !IsSpace(c) && c in s
    ensures c in TrimLeft(s)
  {
    if IsSpace(s[0]) {
      TrimLeftKeepsVisible(s[1..], c);
    }
  }

  lemma {:induction false} TrimRightKeepsVisible(s: string, c: char)
    requires !IsSpace(c) && c in s
    ensures c in TrimRight(s)
  {
    if IsSpace(s[|s| - 1]) {
      TrimRightKeepsVisible(s[..|s| - 1], c);
    }
  }

  /** Such a field exists, so a phone field may grant an address that is not a number. */
  lemma PhoneFieldMayGrantAnEmail()
    ensures PhoneGrant("+a@b.c", "US") == Some("+a@b.c")
  {
    var v := "+a@b.c";
    PlusAddressIsEmail();
    assert Lower(v) == v;
    TrimFixed(v);
  }

  lemma PlusAddressIsEmail()
    ensures IsEmail("+a@b.c")
  {
    EmailOfParts("+a", "b", "c");
    assert "+a" + "@" + ("b" + "." + "c") == "+a@b.c";
  }

  lemma EmailOfParts(local: string, x: string, y: string)
    requires local != "" && (forall c | c in local :: IsLocalChar(c) && c != '*' && c != '?')
    requires IsLabel(x) && IsLabel(y)
    ensures IsEmail(local + "@" + (x + "." + y))
  {
    LocalIff(local);
    LabelIff(x);
    LabelIff(y);
    assert [x, y][1..] == [y] && Join([y], '.') == y;
    AddressIsEmail(local + "@" + (x + "." + y), local, [x, y]);
  }
}
