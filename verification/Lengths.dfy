/**
 How many bytes numbers, timestamps and texts take once printed, and how many bytes the broker reads
 from a child process (internal/backend/backend.go).

 The producer's encoder is taken to print compact JSON, to escape quotation marks, backslashes,
 solidi and control characters, and to copy everything else.
 */
module Lengths {
  import opened Wrappers
  import opened Text
  import opened Clock

  /** A line must be shorter than this, with all lines and their newlines at most MAX_OUTPUT. */
  const MAX_LINE := 2_097_152
  const MAX_OUTPUT := 67_108_864

  const INT64_END := 0x8000_0000_0000_0000

  function DecimalLen(n: nat): nat { if n < 10 then 1 else 1 + DecimalLen(n / 10) }

  function IntLen(n: int): nat { if n < 0 then 1 + DecimalLen(-n) else DecimalLen(n) }

  /** Digits of a fraction of a second, trailing zeros dropped. */
  function FractionLen(f: nat, width: nat): (n: nat)
    ensures n <= width
  {
    if width > 0 && f % 10 == 0 then FractionLen(f / 10, width - 1) else width
  }

  function StampLen(t: TimeText): (n: nat)
    ensures n <= 30
  {
    if t.Malformed? || t.instant % 1_000_000_000 == 0 then 20 else 21 + FractionLen(t.instant % 1_000_000_000, 9)
  }

  function Pow10(k: nat): nat { if k == 0 then 1 else 10 * Pow10(k - 1) }

  lemma {:induction false} DecimalBound(n: nat, k: nat)
    requires k > 0 && n < Pow10(k)
    ensures DecimalLen(n) <= k
  {
    if n >= 10 {
      assert Pow10(0) == 1 && Pow10(k) == 10 * Pow10(k - 1);
      DecimalBound(n / 10, k - 1);
    }
  }

  lemma Pow19()
    ensures Pow10(19) == 10_000_000_000_000_000_000
  {
    assert Pow10(6) == 1_000_000 by {
      assert Pow10(3) == 10 * Pow10(2) && Pow10(2) == 10 * Pow10(1) && Pow10(1) == 10 * Pow10(0);
      assert Pow10(6) == 10 * Pow10(5) && Pow10(5) == 10 * Pow10(4) && Pow10(4) == 10 * Pow10(3);
    }
    assert Pow10(12) == 1_000_000_000_000 by {
      assert Pow10(9) == 10 * Pow10(8) && Pow10(8) == 10 * Pow10(7) && Pow10(7) == 10 * Pow10(6);
      assert Pow10(12) == 10 * Pow10(11) && Pow10(11) == 10 * Pow10(10) && Pow10(10) == 10 * Pow10(9);
    }
    assert Pow10(15) == 10 * Pow10(14) && Pow10(14) == 10 * Pow10(13) && Pow10(13) == 10 * Pow10(12);
    assert Pow10(18) == 10 * Pow10(17) && Pow10(17) == 10 * Pow10(16) && Pow10(16) == 10 * Pow10(15);
    assert Pow10(19) == 10 * Pow10(18);
  }

  lemma Int64Len(n: int)
    requires 0 <= n < INT64_END
    ensures IntLen(n) <= 19
  {
    Pow19();
    DecimalBound(n, 19);
  }

  lemma {:induction false} DecimalReaches(n: nat, k: nat)
    requires k > 0 && n >= Pow10(k - 1)
    ensures DecimalLen(n) >= k
  {
    if k > 1 {
      assert Pow10(k - 1) == 10 * Pow10(k - 2);
      DecimalReaches(n / 10, k - 1);
    }
  }

  /** The two largest 64-bit numbers take nineteen digits. */
  lemma LargestInt64Len()
    ensures IntLen(INT64_END - 1) == 19 && IntLen(INT64_END - 2) == 19
  {
    Pow19();
    assert Pow10(19) == 10 * Pow10(18);
    DecimalReaches(INT64_END - 1, 19);
    DecimalReaches(INT64_END - 2, 19);
    Int64Len(INT64_END - 1);
    Int64Len(INT64_END - 2);
  }

  // ------------------------------------------------------------- printed text

  function HexDigit(n: nat): char
    requires n < 16
  {
    "0123456789abcdef"[n]
  }

  /**
   A character inside a string of JSON (section 7 of RFC 8259): a reverse solidus and a letter for those of
   the first list, six characters for other controls and for those of the second, and any other as it is.
   */
  function EscapedText(c: char, short: string, long: string): string {
    if c in short then ['\\', if c == '\U{8}' then 'b' else if c == '\U{9}' then 't' else if c == '\U{a}' then 'n'
                              else if c == '\U{c}' then 'f' else if c == '\U{d}' then 'r' else c]
    else if c < ' ' || c in long then
      var n := c as int;
      ['\\', 'u', HexDigit(n / 4096 % 16), HexDigit(n / 256 % 16), HexDigit(n / 16 % 16), HexDigit(n % 16)]
    else [c]
  }

  lemma {:induction false} AsciiBytes(s: string)
    requires forall i | 0 <= i < |s| :: s[i] <= '\U{7f}'
    ensures ByteLen(s) == |s|
  {
    if s != "" {
      AsciiBytes(s[1..]);
    }
  }

  lemma EscapedBytes(c: char, short: string, long: string)
    requires forall d | d in short :: d <= '\U{7f}'
    ensures ByteLen(EscapedText(c, short, long)) ==
            if c in short then 2 else if c < ' ' || c in long then 6 else CharBytes(c)
  {
    var t := EscapedText(c, short, long);
    if c in short || c < ' ' || c in long {
      AsciiBytes(t);
    } else {
      assert t[1..] == "";
    }
  }

  /** What the producer's encoder prints for a character. */
  lemma PrintedCharIff(c: char)
    ensures PrintedCharLen(c) == ByteLen(EscapedText(c, "\"\\/\U{8}\U{9}\U{a}\U{c}\U{d}", ""))
  {
    EscapedBytes(c, "\"\\/\U{8}\U{9}\U{a}\U{c}\U{d}", "");
  }

  function PrintedCharLen(c: char): (n: nat)
    ensures CharBytes(c) <= n <= 6 * CharBytes(c)
  {
    if c == '"' || c == '\\' || c == '/' || c == '\U{8}' || c == '\U{9}' || c == '\U{a}' || c == '\U{c}'
       || c == '\U{d}' then 2
    else if c < ' ' then 6
    else CharBytes(c)
  }

  function PrintedCharsLen(s: string): nat {
    if s == "" then 0 else PrintedCharLen(s[0]) + PrintedCharsLen(s[1..])
  }

  /** A JSON string, with its quotation marks. */
  function PrintedLen(s: string): nat { 2 + PrintedCharsLen(s) }

  /** A JSON array of strings. */
  function PrintedListLen(ss: seq<string>): nat {
    if ss == [] then 2 else if |ss| == 1 then 2 + PrintedLen(ss[0]) else PrintedLen(ss[0]) + 1 + PrintedListLen(ss[1..])
  }

  function ListBytes(ss: seq<string>): nat { if ss == [] then 0 else ByteLen(ss[0]) + ListBytes(ss[1..]) }

  lemma {:induction false} PrintedCharsBounds(s: string)
    ensures ByteLen(s) <= PrintedCharsLen(s) <= 6 * ByteLen(s)
  {
    if s != "" {
      PrintedCharsBounds(s[1..]);
    }
  }

  lemma {:induction false} PrintedListBounds(ss: seq<string>)
    ensures ListBytes(ss) <= PrintedListLen(ss) <= 2 + 6 * ListBytes(ss) + 3 * |ss|
  {
    if ss != [] {
      PrintedCharsBounds(ss[0]);
      PrintedListBounds(ss[1..]);
    }
  }
}
