/**
 Collection cursors (internal/broker/cursor.go and the legacy form in internal/broker/server.go).

 Sealing is ideal: a token opens under the key and instance it was sealed with and nowhere else,
 and opens to what was sealed. The length of the text form is modelled, because it is bounded.
 */
module Cursor {
  import opened Wrappers
  import opened Text
  import opened Clock
  import opened Lengths

  datatype Cursor = Cursor(
    version: int, account: string, generation: string,
    row: int, through: int, complete: bool, notBefore: Option<TimeText>)

  datatype Token =
    | Sealed(key: nat, instance: string, nonce: nat, body: Cursor)
    | Legacy(body: Cursor, length: nat)
    | Garbage

  const MAX_TOKEN := 2048
  const SEAL_OVERHEAD := 28

  // ------------------------------------------------------------------ lengths

  /** The bytes encoding/json spends on a character inside a string, HTML escapes included. */
  function JsonCharLen(c: char): (n: nat)
    ensures CharBytes(c) <= n <= 6 * CharBytes(c)
  {
    if c == '"' || c == '\\' || c == '\U{8}' || c == '\U{9}' || c == '\U{a}' || c == '\U{c}' || c == '\U{d}' then 2
    else if c < ' ' || c == '<' || c == '>' || c == '&' || c == '\U{2028}' || c == '\U{2029}' then 6
    else CharBytes(c)
  }

  /** What it writes for a character. */
  lemma JsonCharIff(c: char)
    ensures JsonCharLen(c) == ByteLen(EscapedText(c, "\"\\\U{8}\U{9}\U{a}\U{c}\U{d}", "<>&\U{2028}\U{2029}"))
  {
    EscapedBytes(c, "\"\\\U{8}\U{9}\U{a}\U{c}\U{d}", "<>&\U{2028}\U{2029}");
  }

  function JsonTextLen(s: string): nat {
    if s == "" then 0 else JsonCharLen(s[0]) + JsonTextLen(s[1..])
  }

  /** The JSON object of a cursor, absent fields omitted. */
  function JsonLen(c: Cursor): nat {
    6 + 16 + JsonTextLen(c.account) + 16 + JsonTextLen(c.generation) + 10 + IntLen(c.row)
    + (if c.through != 0 then 18 + IntLen(c.through) else 0)
    + (if c.complete then 16 else 0)
    + (if c.notBefore.Some? then 16 + StampLen(c.notBefore.value) else 0) + 1
  }

  /** A pending cursor with a timestamp, and a complete one, as they are printed. */
  lemma CursorIsSpelled(c: Cursor)
    requires c.through != 0
    ensures !c.complete && c.notBefore.Some? ==>
              JsonLen(c) == |"{\"v\":2,\"account_id\":\"\",\"generation\":\"\",\"row_id\":"
                             + ",\"through_row_id\":,\"not_before\":\"\"}"|
                            + NamesLen(c.account, c.generation) + IntLen(c.row) + IntLen(c.through)
                            + StampLen(c.notBefore.value)
    ensures c.complete && c.notBefore.None? ==>
              JsonLen(c) == |"{\"v\":2,\"account_id\":\"\",\"generation\":\"\",\"row_id\":"
                             + ",\"through_row_id\":,\"complete\":true}"|
                            + NamesLen(c.account, c.generation) + IntLen(c.row) + IntLen(c.through)
  {
  }

  function Base64Len(n: nat): nat { (4 * n + 2) / 3 }

  /** Four characters for every three bytes, and no more than the rest needs: without padding. */
  lemma Base64IsTight(n: nat)
    ensures 3 * Base64Len(n) >= 4 * n && 3 * (Base64Len(n) - 1) < 4 * n
  {
  }

  function SealedLen(c: Cursor): nat { 3 + Base64Len(JsonLen(c) + SEAL_OVERHEAD) }

  // ---------------------------------------------------------- encode and decode

  function Encode(key: nat, instance: string, nonce: nat, c: Cursor): Token {
    Sealed(key, instance, nonce, c.(version := 2))
  }

  predicate WellFormed(c: Cursor) {
    && c.version == 2 && 0 <= c.row <= c.through && c.account != "" && c.generation != ""
    && c.complete == (c.row == c.through)
    && (c.notBefore.Some? ==> Parses(c.notBefore.value) && !c.complete && c.through != 0)
  }

  predicate LegacyForm(c: Cursor) { c.version == 1 && c.row > 0 && c.through == 0 && !c.complete }

  function Decode(key: nat, instance: string, t: Token): Option<Cursor> {
    match t
    case Garbage => None
    case Legacy(c, length) => if 0 < length <= MAX_TOKEN && LegacyForm(c) then Some(c) else None
    case Sealed(k, i, _, c) =>
      if SealedLen(c) <= MAX_TOKEN && k == key && i == instance && WellFormed(c) then Some(c) else None
  }

  /** A sealed cursor opens to itself exactly when it is well formed and its text is not too long. */
  lemma DecodeOfEncode(key: nat, instance: string, nonce: nat, c: Cursor)
    ensures var sealed := c.(version := 2);
            Decode(key, instance, Encode(key, instance, nonce, c)) ==
            if WellFormed(sealed) && SealedLen(sealed) <= MAX_TOKEN then Some(sealed) else None
  {
  }

  /**
   What a token opens to: a cursor sealed under the same key and instance, whose position, boundary,
   completion and timestamp go together; or a legacy position above zero with nothing pending.
   */
  lemma OpensIff(key: nat, instance: string, t: Token, c: Cursor)
    ensures Decode(key, instance, t) == Some(c) <==>
              || (&& t.Sealed? && t.key == key && t.instance == instance && t.body == c && SealedLen(c) <= 2048
                  && c.version == 2 && c.account != "" && c.generation != ""
                  && 0 <= c.row && (if c.complete then c.row == c.through else c.row < c.through)
                  && (c.notBefore.Some? ==> Parses(c.notBefore.value) && !c.complete))
              || (&& t.Legacy? && t.body == c && 1 <= t.length <= 2048
                  && c.version == 1 && c.row > 0 && c.through == 0 && !c.complete)
  {
  }

  lemma {:induction false} JsonTextBound(s: string)
    ensures JsonTextLen(s) <= 6 * ByteLen(s)
  {
    if s != "" {
      JsonTextBound(s[1..]);
    }
  }

  // ------------------------------------------------------------ long names

  /** What JSON spends on the two names is all that an owner's configuration can add to a cursor. */
  const MAX_NAMES := 1354

  function NamesLen(account: string, generation: string): nat { JsonTextLen(account) + JsonTextLen(generation) }

  /** The well-formed cursors over 64-bit positions that carry these names. */
  ghost predicate IsCursorOf(c: Cursor, account: string, generation: string) {
    WellFormed(c) && c.account == account && c.generation == generation && c.through < INT64_END
  }

  lemma ShortNamesFit(c: Cursor)
    requires IsCursorOf(c, c.account, c.generation) && NamesLen(c.account, c.generation) <= MAX_NAMES
    ensures SealedLen(c) <= MAX_TOKEN
  {
    Int64Len(c.row);
    Int64Len(c.through);
  }

  /** The longest cursor of given names: a pending one at the largest positions, with a full timestamp. */
  function LongestCursor(account: string, generation: string): Cursor {
    Cursor(2, account, generation, INT64_END - 2, INT64_END - 1, false, Some(Stamp(1, 0)))
  }

  lemma LongestCursorLen(account: string, generation: string)
    requires account != "" && generation != ""
    ensures IsCursorOf(LongestCursor(account, generation), account, generation)
    ensures JsonLen(LongestCursor(account, generation)) == 151 + NamesLen(account, generation)
  {
    LargestInt64Len();
  }

  /**
   Exactly when can every cursor of a configuration be used again? When its two names take at most
   MAX_NAMES bytes of JSON.
   */
  lemma AllCursorsDecodeIff(key: nat, instance: string, nonce: nat, account: string, generation: string)
    requires account != "" && generation != ""
    ensures (forall c | IsCursorOf(c, account, generation) ::
               Decode(key, instance, Encode(key, instance, nonce, c)) == Some(c))
       <==> NamesLen(account, generation) <= MAX_NAMES
  {
    if NamesLen(account, generation) <= MAX_NAMES {
      forall c | IsCursorOf(c, account, generation)
        ensures Decode(key, instance, Encode(key, instance, nonce, c)) == Some(c)
      {
        ShortNamesFit(c);
        assert c.(version := 2) == c;
      }
    } else {
      var c := LongestCursor(account, generation);
      LongestCursorLen(account, generation);
      assert Decode(key, instance, Encode(key, instance, nonce, c)) == None;
    }
  }

  /** An account id of at most 128 bytes and a generation of at most 30 are always short enough. */
  lemma ShortNamesMakeShortTokens(account: string, generation: string)
    requires ByteLen(account) <= 128 && ByteLen(generation) <= 30
    ensures NamesLen(account, generation) <= MAX_NAMES
  {
    JsonTextBound(account);
    JsonTextBound(generation);
  }

  /** An identifier that trims to one letter but carries n trailing spaces. */
  function Padded(n: nat): string { if n == 0 then "a" else Padded(n - 1) + " " }

  lemma {:induction false} PaddedFacts(n: nat)
    ensures Trim(Padded(n)) == "a" && ByteLen(Padded(n)) == n + 1 && JsonTextLen(Padded(n)) == n + 1
  {
    PaddedShape(n);
    TrimRightPadded(n);
    assert TrimLeft(Padded(n)) == Padded(n);
    PlainLengths(Padded(n));
  }

  lemma {:induction false} PaddedShape(n: nat)
    ensures |Padded(n)| == n + 1 && Padded(n)[0] == 'a' && forall i | 1 <= i <= n :: Padded(n)[i] == ' '
  {
    if n > 0 {
      PaddedShape(n - 1);
    }
  }

  lemma {:induction false} TrimRightPadded(n: nat)
    ensures TrimRight(Padded(n)) == "a"
  {
    PaddedShape(n);
    if n > 0 {
      assert Padded(n)[..n] == Padded(n - 1);
      TrimRightPadded(n - 1);
    }
  }

  lemma {:induction false} PlainLengths(s: string)
    requires forall i | 0 <= i < |s| :: s[i] == 'a' || s[i] == ' '
    ensures ByteLen(s) == |s| && JsonTextLen(s) == |s|
  {
    if s != "" {
      PlainLengths(s[1..]);
    }
  }
}
