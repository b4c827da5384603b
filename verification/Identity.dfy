/**
 Canonical phone and email identities (internal/policy/identity.go).
 */
module Identity {
  import opened Lists
  import opened Wrappers
  import opened Text

  predicate IsSeparator(c: char) { c == ' ' || c == '-' || c == '(' || c == ')' || c == '.' }

  function Digits(s: string): (d: string)
    ensures |d| <= |s| && forall c | c in d :: IsDigit(c)
  {
    if s == "" then "" else (if IsDigit(s[0]) then [s[0]] else "") + Digits(s[1..])
  }

  predicate IsAlnum(c: char) { 'a' <= c <= 'z' || 'A' <= c <= 'Z' || IsDigit(c) }

  /** The characters the email pattern admits before the at sign. */
  predicate IsLocalChar(c: char) {
    IsAlnum(c) || c in ".!#$%&'*+/=?^_`{|}~-"
  }

  /** One dot-separated piece of the domain: 1 to 63 characters, alphanumeric at both ends. */
  predicate IsLabel(l: string) {
    && 1 <= |l| <= 63
    && IsAlnum(l[0]) && IsAlnum(l[|l| - 1])
    && forall c | c in l :: IsAlnum(c) || c == '-'
  }

  predicate IsEmail(v: string) {
    && '*' !in v && '?' !in v
    && var halves := Split(v, '@');
    && |halves| == 2
    && halves[0] != "" && (forall c | c in halves[0] :: IsLocalChar(c))
    && var labels := Split(halves[1], '.');
    && |labels| >= 2 && forall l | l in labels :: IsLabel(l)
  }

  function LowerChar(c: char): char {
    if 'A' <= c <= 'Z' then c - 'A' + 'a' else c
  }

  /** strings.ToLower on the characters an email may hold. */
  function Lower(s: string): string { seq(|s|, i requires 0 <= i < |s| => LowerChar(s[i])) }

  /** A plus sign followed by 8 to 15 digits, the first not zero (clause 6 of ITU-T E.164). */
  predicate IsE164(v: string) {
    9 <= |v| <= 16 && v[0] == '+' && v[1] != '0' && forall i | 1 <= i < |v| :: IsDigit(v[i])
  }

  /** The digits after a leading plus sign, when that is a telephone number. */
  function PhoneForm(v: string): Option<string>
    requires v != ""
  {
    if v[0] == '+' && (forall c | c in v[1..] :: IsDigit(c) || IsSeparator(c)) && IsE164("+" + Digits(v[1..]))
    then Some("+" + Digits(v[1..])) else None
  }

  function EmailForm(v: string): Option<string> {
    if IsEmail(v) then Some(Lower(v)) else None
  }

  function Canonical(v: string): Option<string> {
    if v == "" then None else if '@' in v then EmailForm(v) else PhoneForm(v)
  }

  /** What an identity means: a case-folded email, or the digits after a leading plus sign. */
  function Normalize(raw: string): Option<string> { Canonical(Trim(raw)) }

  method NormalizeIdentity(raw: string) returns (r: Option<string>)
    ensures r == Normalize(raw)
  {
    var value := Trim(raw);
    if value == "" {
      return None;
    }
    if '@' in value {
      if '*' in value || '?' in value || !IsEmail(value) {
        return None;
      }
      return Some(Lower(value));
    }
    r := NormalizePhoneText(value);
  }

  /** The character loop of the source: the plus sign is kept only in first position. */
  method NormalizePhoneText(value: string) returns (r: Option<string>)
    requires value != ""
    ensures r == PhoneForm(value)
  {
    var b := "";
    KeptNothing(value);
    for i := 0 to |value|
      invariant Kept(value, i) == Some(b)
    {
      var c := value[i];
      KeptStep(value, i);
      if IsDigit(c) {
        b := b + [c];
      } else if c == '+' && i == 0 {
        b := b + [c];
      } else if IsSeparator(c) {
      } else {
        KeptFails(value, i + 1);
        PhoneFormOfKept(value);
        return None;
      }
    }
    PhoneFormOfKept(value);
    if b == "" || b[0] != '+' || |b| < 9 || |b| > 16 || b[1] == '0' {
      return None;
    }
    return Some(b);
  }

  /** The part of a prefix that is kept: a leading plus sign and the digits; None past a forbidden character. */
  function Kept(value: string, i: nat): Option<string>
    requires i <= |value|
  {
    var start := LeadingPlus(value, i);
    if forall k | start <= k < i :: IsDigit(value[k]) || IsSeparator(value[k])
    then Some(value[..start] + Digits(value[start..i])) else None
  }

  function LeadingPlus(value: string, i: nat): nat
    requires i <= |value|
  {
    if i > 0 && value[0] == '+' then 1 else 0
  }

  lemma KeptNothing(value: string)
    ensures Kept(value, 0) == Some("")
  {
    assert value[..0] == "" && value[0..0] == "";
    assert "" + Digits("") == "";
  }

  lemma KeptStep(value: string, i: nat)
    requires i < |value| && Kept(value, i).Some?
    ensures var c := value[i];
            Kept(value, i + 1) ==
            if IsDigit(c) || (c == '+' && i == 0) then Some(Kept(value, i).value + [c])
            else if IsSeparator(c) then Kept(value, i) else None
  {
    var c, start := value[i], LeadingPlus(value, i);
    if i == 0 && c == '+' {
      KeptNothing(value);
      assert value[1..1] == "" && value[..1] == [c];
      assert [c] + Digits("") == [c] && "" + [c] == [c];
    } else {
      assert LeadingPlus(value, i + 1) == start;
      assert value[start..i + 1] == value[start..i] + [c];
      DigitsAppend(value[start..i], c);
      Regrouped(value[..start], Digits(value[start..i]), if IsDigit(c) then [c] else "");
      assert value[..start] + Digits(value[start..i]) + "" == value[..start] + Digits(value[start..i]);
    }
  }

  lemma KeptFails(value: string, i: nat)
    requires 0 < i <= |value| && Kept(value, i).None?
    ensures Kept(value, |value|).None?
  {
  }

  lemma PhoneFormOfKept(value: string)
    requires value != ""
    ensures PhoneForm(value) ==
            match Kept(value, |value|)
            case None => None
            case Some(b) => if b == "" || b[0] != '+' || |b| < 9 || |b| > 16 || b[1] == '0' then None else Some(b)
  {
    var start := LeadingPlus(value, |value|);
    if Kept(value, |value|).Some? {
      PhoneFormFromLoop(value, start, Kept(value, |value|).value);
    } else if start == 1 {
      var k :| 1 <= k < |value| && !(IsDigit(value[k]) || IsSeparator(value[k]));
      assert value[1..][k - 1] == value[k];
    }
  }

  lemma PhoneFormFromLoop(value: string, start: nat, b: string)
    requires value != "" && start == (if value[0] == '+' then 1 else 0)
    requires b == value[..start] + Digits(value[start..|value|])
    requires forall k | start <= k < |value| :: IsDigit(value[k]) || IsSeparator(value[k])
    ensures PhoneForm(value) == if b == "" || b[0] != '+' || |b| < 9 || |b| > 16 || b[1] == '0' then None else Some(b)
  {
    assert value[start..|value|] == value[start..];
    var d := Digits(value[start..]);
    assert forall i | 0 <= i < |d| :: d[i] in d;
    if start == 1 {
      assert value[..1] == "+";
      assert b == "+" + d;
    } else {
      assert b == d;
    }
  }

  lemma {:induction false} DigitsAppend(s: string, c: char)
    ensures Digits(s + [c]) == Digits(s) + if IsDigit(c) then [c] else ""
  {
    var tail := if IsDigit(c) then [c] else "";
    if s == "" {
      assert s + [c] == [c];
      assert [c][1..] == "";
      DigitsHead([c]);
      assert Digits([c]) == tail;
    } else {
      var head := if IsDigit(s[0]) then [s[0]] else "";
      assert (s + [c])[1..] == s[1..] + [c] && (s + [c])[0] == s[0];
      DigitsHead(s + [c]);
      DigitsHead(s);
      DigitsAppend(s[1..], c);
      Regrouped(head, Digits(s[1..]), tail);
    }
  }

  lemma DigitsHead(s: string)
    requires s != ""
    ensures Digits(s) == (if IsDigit(s[0]) then [s[0]] else "") + Digits(s[1..])
  {
  }

  lemma {:induction false} DigitsOfDigits(s: string)
    requires forall c | c in s :: IsDigit(c)
    ensures Digits(s) == s
  {
    if s != "" {
      DigitsOfDigits(s[1..]);
      assert s == [s[0]] + s[1..];
    }
  }

  // ------------------------------------------------------------- case folding

  lemma {:induction false} LowerSplit(s: string, sep: char)
    requires !IsAlnum(sep)
    ensures |Split(Lower(s), sep)| == |Split(s, sep)|
    ensures forall i | 0 <= i < |Split(s, sep)| :: Split(Lower(s), sep)[i] == Lower(Split(s, sep)[i])
  {
    if s != "" {
      LowerSplit(s[1..], sep);
      assert Lower(s)[1..] == Lower(s[1..]) && (Lower(s)[0] == sep <==> s[0] == sep);
      var rest := Split(s[1..], sep);
      LowerPrefixed(s[0], rest[0]);
    }
  }

  lemma LowerPrefixed(c: char, s: string)
    ensures Lower([c] + s) == [LowerChar(c)] + Lower(s)
  {
  }

  lemma LowerKeepsClasses(s: string)
    ensures IsLabel(Lower(s)) <==> IsLabel(s)
    ensures (forall c | c in Lower(s) :: IsLocalChar(c)) <==> (forall c | c in s :: IsLocalChar(c))
    ensures forall c | c in "@*?" :: c in Lower(s) <==> c in s
  {
    LowerKeepsLabel(s);
    assert forall i | 0 <= i < |s| :: Lower(s)[i] in Lower(s) && s[i] in s;
  }

  lemma LowerKeepsLabel(s: string)
    ensures IsLabel(Lower(s)) <==> IsLabel(s)
  {
    assert forall i | 0 <= i < |s| :: Lower(s)[i] in Lower(s) && s[i] in s;
  }

  lemma LowerKeepsEmail(v: string)
    ensures IsEmail(Lower(v)) <==> IsEmail(v)
  {
    LowerKeepsClasses(v);
    LowerSplit(v, '@');
    var halves := Split(v, '@');
    if |halves| == 2 {
      LowerKeepsClasses(halves[0]);
      LowerSplit(halves[1], '.');
      var labels, lowered := Split(halves[1], '.'), Split(Lower(halves[1]), '.');
      forall i | 0 <= i < |labels| ensures IsLabel(lowered[i]) <==> IsLabel(labels[i]) {
        LowerKeepsClasses(labels[i]);
      }
      assert forall i | 0 <= i < |labels| :: labels[i] in labels && lowered[i] in lowered;
    }
  }

  lemma {:induction false} LowerTrim(s: string)
    ensures Trim(Lower(s)) == Lower(Trim(s))
  {
    LowerTrimLeft(s);
    LowerTrimRight(TrimLeft(s));
  }

  lemma {:induction false} LowerTrimLeft(s: string)
    ensures TrimLeft(Lower(s)) == Lower(TrimLeft(s))
  {
    if s != "" && IsSpace(s[0]) {
      assert Lower(s)[1..] == Lower(s[1..]);
      LowerTrimLeft(s[1..]);
    }
  }

  lemma {:induction false} LowerTrimRight(s: string)
    ensures TrimRight(Lower(s)) == Lower(TrimRight(s))
  {
    if s != "" && IsSpace(s[|s| - 1]) {
      assert Lower(s)[..|s| - 1] == Lower(s[..|s| - 1]);
      LowerTrimRight(s[..|s| - 1]);
    }
  }

  lemma LowerTwice(s: string)
    ensures Lower(Lower(s)) == Lower(s)
  {
  }

  lemma LowerKeepsPhone(v: string)
    requires v != ""
    ensures PhoneForm(Lower(v)) == PhoneForm(v)
  {
    var t := v[1..];
    assert Lower(v)[1..] == Lower(t);
    if forall c | c in t :: IsDigit(c) || IsSeparator(c) {
      assert forall i | 0 <= i < |t| :: t[i] in t;
      assert Lower(t) == t;
    } else {
      var i :| 0 <= i < |t| && !(IsDigit(t[i]) || IsSeparator(t[i]));
      assert Lower(t)[i] in Lower(t);
    }
  }

  lemma FoldedAlike(raw: string)
    ensures Normalize(Lower(raw)) == Normalize(raw)
  {
    LowerTrim(raw);
    var v := Trim(raw);
    if v != "" {
      LowerKeepsClasses(v);
      LowerTwice(v);
      LowerKeepsEmail(v);
      LowerKeepsPhone(v);
    }
  }

  /** The same character, or the two cases of one letter from a to z. */
  predicate SameLetter(x: char, y: char) {
    x == y || ('A' <= x <= 'Z' && y as int == x as int + 32) || ('A' <= y <= 'Z' && x as int == y as int + 32)
  }

  /** Letter case never decides whether, or to what, an identity normalizes. */
  lemma CaseNeverMatters(a: string, b: string)
    requires |a| == |b| && forall i | 0 <= i < |a| :: SameLetter(a[i], b[i])
    ensures Normalize(a) == Normalize(b)
  {
    FoldedAlike(a);
    FoldedAlike(b);
    SameFolds(a, b);
  }

  lemma SameFolds(a: string, b: string)
    requires |a| == |b| && forall i | 0 <= i < |a| :: SameLetter(a[i], b[i])
    ensures Lower(a) == Lower(b)
  {
    forall i | 0 <= i < |a| ensures LowerChar(a[i]) == LowerChar(b[i]) {
      SameLetterFolds(a[i], b[i]);
    }
  }

  lemma SameLetterFolds(x: char, y: char)
    requires SameLetter(x, y)
    ensures LowerChar(x) == LowerChar(y)
  {
    CapitalFolds(x);
    CapitalFolds(y);
  }

  lemma CapitalFolds(x: char)
    ensures LowerChar(x) as int == x as int + if 'A' <= x <= 'Z' then 32 else 0
  {
  }

  /** One text is the other with its capital letters, and nothing else, replaced by small ones. */
  ghost predicate Folds(t: string, v: string) {
    |v| == |t| && forall i | 0 <= i < |t| :: v[i] as int == t[i] as int + if 'A' <= t[i] <= 'Z' then 32 else 0
  }

  lemma FoldsIff(t: string, v: string)
    ensures v == Lower(t) <==> Folds(t, v)
  {
    if Folds(t, v) {
      forall i | 0 <= i < |t| ensures v[i] == Lower(t)[i] {
        assert Lower(t)[i] as int == t[i] as int + if 'A' <= t[i] <= 'Z' then 32 else 0;
      }
    }
  }

  // ---------------------------------------------------------- canonical forms

  lemma EmailHasNoNul(v: string)
    requires IsEmail(v)
    ensures '\0' !in v
  {
    forall i | 0 <= i < |v| ensures v[i] != '\0' {
      if v[i] != '@' {
        var k := SplitCovers(v, '@', i);
        if k == 1 {
          DomainHasNoNul(Split(v, '@')[1]);
        }
      }
    }
  }

  lemma DomainHasNoNul(domain: string)
    requires forall l | l in Split(domain, '.') :: IsLabel(l)
    ensures '\0' !in domain
  {
    forall j | 0 <= j < |domain| ensures domain[j] != '\0' {
      if domain[j] != '.' {
        var m := SplitCovers(domain, '.', j);
        assert IsLabel(Split(domain, '.')[m]);
      }
    }
  }

  /** What every normal form looks like. */
  predicate IsNormal(v: string) {
    && Normalize(v) == Some(v)
    && v != "" && '\0' !in v
    && (IsE164(v) || (IsEmail(v) && forall c | c in v :: !('A' <= c <= 'Z')))
  }

  lemma PhoneFormFixed(v: string)
    requires IsE164(v)
    ensures PhoneForm(v) == Some(v)
  {
    var d := v[1..];
    assert forall c | c in d :: IsDigit(c);
    DigitsOfDigits(d);
    assert v == "+" + d;
  }

  lemma E164Characters(v: string)
    requires IsE164(v)
    ensures forall c | c in v :: c == '+' || IsDigit(c)
    ensures Trim(v) == v
  {
    assert forall i | 0 <= i < |v| :: v[i] == '+' || IsDigit(v[i]);
    TrimFixed(v);
  }

  lemma PhoneFormIsCanonical(t: string)
    requires t != "" && PhoneForm(t).Some?
    ensures IsNormal(PhoneForm(t).value)
  {
    var v := PhoneForm(t).value;
    PhoneFormFixed(v);
    E164Characters(v);
    assert '@' !in v;
  }

  lemma EmailFormIsCanonical(t: string)
    requires t == Trim(t) && '@' in t && EmailForm(t).Some?
    ensures IsNormal(EmailForm(t).value)
  {
    var v := Lower(t);
    LowerKeepsEmail(t);
    LowerKeepsClasses(t);
    LowerTwice(t);
    LowerTrim(t);
    EmailHasNoNul(v);
    NoCapitals(t);
  }

  lemma NoCapitals(t: string)
    ensures forall c | c in Lower(t) :: !('A' <= c <= 'Z')
  {
  }

  /** A normal form is a fixed point; it is nonempty, holds no NUL, and is either an email or E.164. */
  lemma NormalFormIsCanonical(raw: string)
    requires Normalize(raw).Some?
    ensures IsNormal(Normalize(raw).value)
  {
    var t := Trim(raw);
    if '@' in t {
      TrimFixed(t);
      EmailFormIsCanonical(t);
    } else {
      PhoneFormIsCanonical(t);
    }
  }

  /** A plus sign, then separators and 8 to 15 digits, the first not zero. */
  ghost predicate SpellsNumber(t: string, s: string, v: string) {
    && t == "+" + s && (forall c | c in s :: '0' <= c <= '9' || c in " -().")
    && 8 <= |Digits(s)| <= 15 && Digits(s)[0] != '0' && v == "+" + Digits(s)
  }

  /**
   Without an at sign, exactly the strings that trim to the spelling of a number are accepted, and
   the digits alone decide the result.
   */
  lemma PhoneAcceptedIff(raw: string, v: string)
    requires '@' !in raw
    ensures Normalize(raw) == Some(v) <==> exists s :: SpellsNumber(Trim(raw), s, v)
  {
    var t := Trim(raw);
    TrimKeeps(raw);
    if t != "" {
      PhoneFormIff(t, v);
    }
  }

  lemma PhoneFormIff(t: string, v: string)
    requires t != ""
    ensures PhoneForm(t) == Some(v) <==> exists s :: SpellsNumber(t, s, v)
  {
    if PhoneForm(t) == Some(v) {
      assert t == "+" + t[1..];
      assert v[1] == Digits(t[1..])[0];
      assert SpellsNumber(t, t[1..], v);
    }
    if s :| SpellsNumber(t, s, v) {
      assert t[1..] == s;
      assert v[1] == Digits(s)[0];
      assert forall i | 1 <= i < |v| :: v[i] == Digits(s)[i - 1] && v[i] in Digits(s);
    }
  }

  lemma {:induction false} TrimLeftKeeps(s: string)
    ensures forall c | c in TrimLeft(s) :: c in s
  {
    if s != "" && IsSpace(s[0]) {
      TrimLeftKeeps(s[1..]);
    }
  }

  lemma TrimKeeps(s: string)
    ensures forall c | c in Trim(s) :: c in s
  {
    TrimLeftKeeps(s);
    assert forall c | c in Trim(s) :: c in TrimLeft(s);
  }

  function Unseparated(s: string): (r: string)
    ensures forall c | c in r :: c in s && !IsSeparator(c)
  {
    if s == "" then "" else (if IsSeparator(s[0]) then "" else [s[0]]) + Unseparated(s[1..])
  }

  lemma {:induction false} UnseparatedFacts(s: string)
    ensures Digits(Unseparated(s)) == Digits(s)
    ensures forall c | c in s && !IsSeparator(c) :: c in Unseparated(s)
  {
    if s != "" {
      UnseparatedFacts(s[1..]);
      var rest := Unseparated(s[1..]);
      if IsSeparator(s[0]) {
        assert Unseparated(s) == rest;
      } else {
        assert Unseparated(s) == [s[0]] + rest;
        assert Unseparated(s)[1..] == rest;
      }
    }
  }

  predicate PlainSpaces(t: string) { forall c | c in t && IsSpace(c) :: c == ' ' }

  /**
   Separators after the plus sign never matter: unless white space other than the plain space is left
   inside the trimmed text, which is refused, taking all separators out changes nothing.
   */
  lemma SeparatorsNeverMatter(s: string)
    requires '@' !in s
    ensures Normalize("+" + s) == if PlainSpaces(Trim("+" + s)) then Normalize("+" + Unseparated(s)) else None
  {
    var k := TrimPlus(s);
    var t := s[..k];
    assert ("+" + t)[1..] == t && '@' !in "+" + t;
    if PlainSpaces(t) {
      TrimUnseparated(s, k);
      SamePhoneForm(t);
      assert forall c | c in Unseparated(t) :: c in s;
      assert '@' !in "+" + Unseparated(t);
    } else {
      var c :| c in t && IsSpace(c) && c != ' ';
      assert c in "+" + t && !IsDigit(c) && !IsSeparator(c);
    }
  }

  lemma TrimPlus(s: string) returns (k: nat)
    ensures k <= |s| && Trim("+" + s) == "+" + s[..k] && forall c | c in s[k..] :: IsSpace(c)
  {
    assert TrimLeft("+" + s) == "+" + s;
    TrimRightStops("+" + s, 0);
    k := |TrimRight("+" + s)| - 1;
    TrimmedTail("+" + s);
    assert ("+" + s)[k + 1..] == s[k..];
  }

  lemma TrimUnseparated(s: string, k: nat)
    requires k <= |s| && PlainSpaces(s[..k]) && forall c | c in s[k..] :: IsSpace(c)
    ensures Trim("+" + Unseparated(s)) == "+" + Unseparated(s[..k])
  {
    var t, w := s[..k], s[k..];
    assert s == t + w;
    UnseparatedConcat(t, w);
    Regrouped("+", Unseparated(t), Unseparated(w));
    forall c | c in Unseparated(t) ensures !IsSpace(c) {
      assert c in t && !IsSeparator(c);
    }
    forall c | c in Unseparated(w) ensures IsSpace(c) {
      assert c in w;
    }
    TrimPlusInk(Unseparated(t), Unseparated(w));
  }

  lemma TrimPlusInk(ink: string, tail: string)
    requires (forall c | c in ink :: !IsSpace(c)) && (forall c | c in tail :: IsSpace(c))
    ensures Trim("+" + ink + tail) == "+" + ink
  {
    var p := "+" + ink;
    assert (p + tail)[0] == '+';
    TrimRightDrops(p, tail);
    assert forall i | 0 < i < |p| :: p[i] in ink;
    TrimFixed(p);
  }

  lemma {:induction false} UnseparatedConcat(a: string, b: string)
    ensures Unseparated(a + b) == Unseparated(a) + Unseparated(b)
  {
    if a == "" {
      assert a + b == b;
    } else {
      assert (a + b)[1..] == a[1..] + b;
      UnseparatedConcat(a[1..], b);
    }
  }

  lemma {:induction false} TrimRightDrops(a: string, tail: string)
    requires forall c | c in tail :: IsSpace(c)
    ensures TrimRight(a + tail) == TrimRight(a)
    decreases |tail|
  {
    if tail == "" {
      assert a + tail == a;
    } else {
      var n := |tail| - 1;
      assert (a + tail)[..|a + tail| - 1] == a + tail[..n];
      assert tail[n] in tail;
      TrimRightDrops(a, tail[..n]);
    }
  }

  lemma SamePhoneForm(t: string)
    ensures PhoneForm("+" + t) == PhoneForm("+" + Unseparated(t))
  {
    UnseparatedFacts(t);
    assert ("+" + t)[1..] == t && ("+" + Unseparated(t))[1..] == Unseparated(t);
  }

  lemma {:induction false} TrimRightStops(s: string, k: nat)
    requires k < |s| && !IsSpace(s[k])
    ensures |TrimRight(s)| > k
  {
    if IsSpace(s[|s| - 1]) {
      TrimRightStops(s[..|s| - 1], k);
    }
  }

  lemma {:induction false} TrimmedTail(s: string)
    ensures forall c | c in s[|TrimRight(s)|..] :: IsSpace(c)
  {
    if s != "" && IsSpace(s[|s| - 1]) {
      var t := s[..|s| - 1];
      TrimmedTail(t);
      assert s[|TrimRight(s)|..] == t[|TrimRight(s)|..] + [s[|s| - 1]];
    }
  }

  // ------------------------------------------------- what is accepted, and as what

  /** What is left of a text without the white space around it. */
  ghost predicate IsTrimOf(t: string, raw: string) {
    exists a, b :: Surrounded(a, t, b, raw)
  }

  ghost predicate Surrounded(a: string, t: string, b: string, raw: string) {
    && raw == a + t + b && (forall c | c in a + b :: IsSpace(c))
    && (t != "" ==> !IsSpace(t[0]) && !IsSpace(t[|t| - 1]))
  }

  lemma TrimIff(raw: string, t: string)
    ensures t == Trim(raw) <==> IsTrimOf(t, raw)
  {
    TrimIsSurrounded(raw);
    if a, b :| Surrounded(a, t, b, raw) {
      SurroundedIsTrim(a, t, b, raw);
    }
  }

  lemma {:induction false} TrimLeftSplits(s: string) returns (a: string)
    ensures s == a + TrimLeft(s) && forall c | c in a :: IsSpace(c)
  {
    if s != "" && IsSpace(s[0]) {
      var rest := TrimLeftSplits(s[1..]);
      a := [s[0]] + rest;
      assert s == [s[0]] + s[1..];
    } else {
      a := "";
    }
  }

  lemma TrimIsSurrounded(raw: string)
    ensures IsTrimOf(Trim(raw), raw)
  {
    var a := TrimLeftSplits(raw);
    var u := TrimLeft(raw);
    var b := u[|TrimRight(u)|..];
    TrimmedTail(u);
    assert u == TrimRight(u) + b;
    Regrouped(a, TrimRight(u), b);
    BothSpace(a, b);
    assert Surrounded(a, Trim(raw), b, raw);
  }

  lemma BothSpace(a: string, b: string)
    requires (forall c | c in a :: IsSpace(c)) && (forall c | c in b :: IsSpace(c))
    ensures forall c | c in a + b :: IsSpace(c)
  {
  }

  lemma {:induction false} TrimLeftDrops(a: string, s: string)
    requires forall c | c in a :: IsSpace(c)
    ensures TrimLeft(a + s) == TrimLeft(s)
  {
    if a == "" {
      assert a + s == s;
    } else {
      assert a[0] in a && (a + s)[1..] == a[1..] + s;
      TrimLeftDrops(a[1..], s);
    }
  }

  lemma SurroundedIsTrim(a: string, t: string, b: string, raw: string)
    requires Surrounded(a, t, b, raw)
    ensures Trim(raw) == t
  {
    assert forall c | c in a || c in b :: c in a + b;
    assert raw == a + (t + b);
    TrimLeftDrops(a, t + b);
    if t == "" {
      assert t + b == b + "";
      TrimLeftDrops(b, "");
    } else {
      assert (t + b)[0] == t[0];
      TrimRightDrops(t, b);
    }
  }

  ghost predicate LetterOrDigit(c: char) { 'a' <= c <= 'z' || 'A' <= c <= 'Z' || '0' <= c <= '9' }

  /** A letter or digit, and then up to 61 letters, digits and hyphens with one more letter or digit after them. */
  ghost predicate IsLabelText(l: string) { exists first, middle, last :: LabelParts(l, first, middle, last) }

  ghost predicate LabelParts(l: string, first: char, middle: string, last: string) {
    && l == [first] + middle + last && LetterOrDigit(first)
    && |middle| <= 61 && (forall c | c in middle :: LetterOrDigit(c) || c == '-')
    && (if last == "" then middle == "" else |last| == 1 && LetterOrDigit(last[0]))
  }

  /** The characters of a local part: those of the pattern without the asterisk and the question mark. */
  ghost predicate IsLocalText(s: string) {
    s != "" && forall c | c in s :: LetterOrDigit(c) || c in ".!#$%&'+/=^_`{|}~-"
  }

  /** An address: a local part, an at sign, and two or more labels joined by dots. */
  ghost predicate IsAddress(t: string, local: string, labels: seq<string>) {
    && t == local + "@" + Join(labels, '.')
    && IsLocalText(local) && |labels| >= 2 && (forall l | l in labels :: IsLabelText(l))
  }

  lemma LabelIff(l: string)
    ensures IsLabel(l) <==> IsLabelText(l)
  {
    if IsLabel(l) {
      LabelHasParts(l);
    }
    if first, middle, last :| LabelParts(l, first, middle, last) {
      PartsMakeLabel(l, first, middle, last);
    }
  }

  lemma LabelHasParts(l: string)
    requires IsLabel(l)
    ensures IsLabelText(l)
  {
    var n := |l| - 1;
    if n == 0 {
      assert LabelParts(l, l[0], "", "");
    } else {
      assert l == [l[0]] + l[1..n] + l[n..];
      assert forall c | c in l[1..n] :: c in l;
      assert LabelParts(l, l[0], l[1..n], l[n..]);
    }
  }

  lemma PartsMakeLabel(l: string, first: char, middle: string, last: string)
    requires LabelParts(l, first, middle, last)
    ensures IsLabel(l)
  {
    forall c | c in l ensures IsAlnum(c) || c == '-' {
      assert c == first || c in middle || c in last;
    }
    if last == "" {
      assert l == [first];
    } else {
      assert l[|l| - 1] == last[0];
    }
  }

  lemma LocalIff(s: string)
    ensures IsLocalText(s) <==> s != "" && (forall c | c in s :: IsLocalChar(c)) && '*' !in s && '?' !in s
  {
    forall c: char
      ensures (LetterOrDigit(c) || c in ".!#$%&'+/=^_`{|}~-") <==> IsLocalChar(c) && c != '*' && c != '?'
    {
    }
  }

  lemma EmailIff(t: string)
    ensures IsEmail(t) <==> exists local, labels :: IsAddress(t, local, labels)
  {
    if IsEmail(t) {
      EmailIsAddress(t);
    }
    if local, labels :| IsAddress(t, local, labels) {
      AddressIsEmail(t, local, labels);
    }
  }

  lemma EmailIsAddress(t: string)
    requires IsEmail(t)
    ensures exists local, labels :: IsAddress(t, local, labels)
  {
    var halves := Split(t, '@');
    JoinSplit(t, '@');
    JoinSplit(halves[1], '.');
    assert halves == [halves[0], halves[1]] && halves[1..] == [halves[1]];
    assert t == halves[0] + "@" + halves[1];
    forall l | l in Split(halves[1], '.') ensures IsLabelText(l) {
      LabelIff(l);
    }
    assert forall c | c in halves[0] :: c in t;
    LocalIff(halves[0]);
    assert IsAddress(t, halves[0], Split(halves[1], '.'));
  }

  lemma AddressIsEmail(t: string, local: string, labels: seq<string>)
    requires IsAddress(t, local, labels)
    ensures IsEmail(t)
  {
    LocalIff(local);
    LabelsAreLabels(labels);
    var domain := Join(labels, '.');
    SplitJoin(labels, '.');
    JoinLacks(labels, '.', '@');
    JoinLacks(labels, '.', '*');
    JoinLacks(labels, '.', '?');
    TwoHalves(local, domain);
    assert t == local + "@" + domain;
    assert forall c | c in t :: c in local || c == '@' || c in domain;
  }

  lemma LabelsAreLabels(labels: seq<string>)
    requires forall l | l in labels :: IsLabelText(l)
    ensures forall l | l in labels :: IsLabel(l) && '.' !in l && '@' !in l && '*' !in l && '?' !in l
  {
    forall l | l in labels ensures IsLabel(l) && '.' !in l && '@' !in l && '*' !in l && '?' !in l {
      LabelIff(l);
    }
  }

  lemma TwoHalves(a: string, b: string)
    requires '@' !in a && '@' !in b
    ensures Split(a + "@" + b, '@') == [a, b]
  {
    assert [a, b][1..] == [b];
    assert Join([a, b], '@') == a + "@" + b;
    SplitJoin([a, b], '@');
  }

  lemma {:induction false} JoinLacks(parts: seq<string>, sep: char, c: char)
    requires c != sep && forall p | p in parts :: c !in p
    ensures c !in Join(parts, sep)
  {
    if |parts| > 1 {
      JoinLacks(parts[1..], sep, c);
    }
  }

  lemma {:induction false} DigitsConcat(a: string, b: string)
    ensures Digits(a + b) == Digits(a) + Digits(b)
  {
    if a == "" {
      assert a + b == b;
    } else {
      assert (a + b)[0] == a[0] && (a + b)[1..] == a[1..] + b;
      DigitsConcat(a[1..], b);
      DigitsHead(a + b);
      DigitsHead(a);
    }
  }

  lemma {:induction false} NoDigits(s: string)
    requires forall c | c in s :: !IsDigit(c)
    ensures Digits(s) == ""
  {
    if s != "" {
      NoDigits(s[1..]);
    }
  }

  /** Digits is the filter: it distributes over concatenation, keeps digits and drops all else. */
  lemma DigitsFilter(a: string, b: string)
    ensures Digits(a + b) == Digits(a) + Digits(b)
    ensures (forall c | c in a :: '0' <= c <= '9') ==> Digits(a) == a
    ensures (forall c | c in a :: !('0' <= c <= '9')) ==> Digits(a) == ""
  {
    DigitsConcat(a, b);
    if forall c | c in a :: '0' <= c <= '9' {
      DigitsOfDigits(a);
    }
    if forall c | c in a :: !('0' <= c <= '9') {
      NoDigits(a);
    }
  }

  /**
   What an identity is accepted as. Without the white space around it, it is an address, and means that
   address with its capital letters made small; or it is the spelling of a number, and means its digits.
   */
  lemma NormalizeIff(raw: string, v: string)
    ensures Normalize(raw) == Some(v) <==>
            exists t :: IsTrimOf(t, raw) &&
                        if '@' in t then (exists local, labels :: IsAddress(t, local, labels)) && Folds(t, v)
                        else exists s :: SpellsNumber(t, s, v)
  {
    var t := Trim(raw);
    TrimIff(raw, t);
    forall u ensures IsTrimOf(u, raw) <==> u == t {
      TrimIff(raw, u);
    }
    EmailIff(t);
    FoldsIff(t, v);
    if t != "" {
      PhoneFormIff(t, v);
    }
  }
}
