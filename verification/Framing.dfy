/**
 Length-prefixed frames over byte streams that may deliver or accept only a part at a time: the broker's
 side (internal/rpc/framing.go) and the Contacts helper's side (macos/ContactsTransport.swift).
 */
module Framing {
  import opened Lists
  import opened Wrappers

  type Byte = b: int | 0 <= b < 256

  type Bytes = seq<Byte>

  const MAX_UINT32 := 0xffff_ffff

  // ------------------------------------------------------------ frames as data

  /** The k low bytes of n, the most significant first. */
  function BigEndian(n: nat, k: nat): (bs: Bytes)
    ensures |bs| == k
  {
    if k == 0 then [] else BigEndian(n / 256, k - 1) + [n % 256]
  }

  function FromBigEndian(bs: Bytes): nat {
    if bs == [] then 0 else FromBigEndian(bs[..|bs| - 1]) * 256 + bs[|bs| - 1]
  }

  function Power256(k: nat): nat { if k == 0 then 1 else 256 * Power256(k - 1) }

  lemma {:induction false} BigEndianRoundTrip(n: nat, k: nat)
    requires n < Power256(k)
    ensures FromBigEndian(BigEndian(n, k)) == n
  {
    if k > 0 {
      BigEndianRoundTrip(n / 256, k - 1);
      assert BigEndian(n, k)[..k - 1] == BigEndian(n / 256, k - 1);
    }
  }

  lemma FourBytes()
    ensures Power256(4) == MAX_UINT32 + 1
  {
    assert Power256(1) == 256 && Power256(2) == 0x1_0000 && Power256(3) == 0x100_0000;
  }

  function Frame(payload: Bytes): Bytes { BigEndian(|payload|, 4) + payload }

  /** What a reader makes of the bytes before it. */
  datatype Parsed = HeaderCut | EmptyFrame | TooLarge | BodyCut | Payload(payload: Bytes)

  /** The frame at the front of a stream; a limit of None is no limit. */
  function Parse(rest: Bytes, limit: Option<int>): Parsed {
    if |rest| < 4 then HeaderCut
    else
      var size := FromBigEndian(rest[..4]);
      if size == 0 then EmptyFrame
      else if limit.Some? && size > limit.value then TooLarge
      else if |rest| < 4 + size then BodyCut
      else Payload(rest[4..4 + size])
  }

  /** How many bytes that takes from the stream. */
  function Consumed(rest: Bytes, limit: Option<int>): (n: nat)
    ensures n <= |rest|
  {
    match Parse(rest, limit)
    case HeaderCut => |rest|
    case EmptyFrame => 4
    case TooLarge => 4
    case BodyCut => |rest|
    case Payload(p) => 4 + |p|
  }

  predicate Fits(payload: Bytes, limit: Option<int>) {
    payload != [] && |payload| <= MAX_UINT32 && (limit.Some? ==> |payload| <= limit.value)
  }

  lemma ParseFrame(payload: Bytes, tail: Bytes, limit: Option<int>)
    requires |payload| <= MAX_UINT32
    ensures payload == [] ==> Parse(Frame(payload) + tail, limit) == EmptyFrame
    ensures payload != [] && !Fits(payload, limit) ==> Parse(Frame(payload) + tail, limit) == TooLarge
    ensures Fits(payload, limit) ==> Parse(Frame(payload) + tail, limit) == Payload(payload)
    ensures Fits(payload, limit) ==> (Frame(payload) + tail)[Consumed(Frame(payload) + tail, limit)..] == tail
  {
    FourBytes();
    BigEndianRoundTrip(|payload|, 4);
    var rest := Frame(payload) + tail;
    assert rest[..4] == BigEndian(|payload|, 4);
    assert rest[4..4 + |payload|] == payload;
    assert rest[4 + |payload|..] == tail;
  }

  /** Several frames, one after another. */
  function Frames(ps: seq<Bytes>): Bytes { if ps == [] then [] else Frame(ps[0]) + Frames(ps[1..]) }

  datatype Received = Received(payloads: seq<Bytes>, rest: Bytes)

  /** So many frames read in turn; None when one of them cannot be read. */
  function ParseMany(rest: Bytes, count: nat, limit: Option<int>): Option<Received> {
    if count == 0 then Some(Received([], rest))
    else
      match Parse(rest, limit)
      case Payload(p) =>
        (match ParseMany(rest[Consumed(rest, limit)..], count - 1, limit)
         case None => None
         case Some(more) => Some(Received([p] + more.payloads, more.rest)))
      case _ => None
  }

  /** Every sequence of payloads within bounds reads back as itself and leaves the rest of the stream untouched. */
  lemma {:induction false} RoundTrip(ps: seq<Bytes>, tail: Bytes, limit: Option<int>)
    requires forall p | p in ps :: Fits(p, limit)
    ensures ParseMany(Frames(ps) + tail, |ps|, limit) == Some(Received(ps, tail))
  {
    if ps == [] {
      assert Frames(ps) + tail == tail;
    } else {
      var after := Frames(ps[1..]) + tail;
      assert Frames(ps) + tail == Frame(ps[0]) + after;
      assert Fits(ps[0], limit);
      ParseFrame(ps[0], after, limit);
      RoundTrip(ps[1..], tail, limit);
      assert [ps[0]] + ps[1..] == ps;
    }
  }

  /** No stream is two sequences of frames at once. */
  lemma FramesAreUnambiguous(a: seq<Bytes>, b: seq<Bytes>, x: Bytes, y: Bytes)
    requires |a| == |b| && Frames(a) + x == Frames(b) + y
    requires forall p | p in a || p in b :: Fits(p, None)
    ensures a == b && x == y
  {
    RoundTrip(a, x, None);
    RoundTrip(b, y, None);
  }

  /** A stream that ends inside a frame is never taken for one: the cut is noticed wherever it falls. */
  lemma TruncationIsNoticed(payload: Bytes, cut: nat, limit: Option<int>)
    requires Fits(payload, limit) && cut < |Frame(payload)|
    ensures Parse(Frame(payload)[..cut], limit) == if cut < 4 then HeaderCut else BodyCut
  {
    if cut >= 4 {
      FourBytes();
      BigEndianRoundTrip(|payload|, 4);
      assert Frame(payload)[..cut][..4] == BigEndian(|payload|, 4);
    }
  }

  // ---------------------------------------------------------------- the writer

  /** What a write call reports: a count, and whether it failed. */
  datatype Report = Report(count: int, failed: bool)

  /** The reports of the calls to come, from the number of the call and the bytes it is offered. */
  type Schedule = (nat, nat) -> Report

  function Clamp(count: int, offered: nat): nat {
    if count <= 0 then 0 else if count > offered then offered else count
  }

  /** A stream being written. */
  class Writer {
    const schedule: Schedule
    var calls: nat
    var sent: Bytes

    constructor (schedule: Schedule)
      ensures this.schedule == schedule && calls == 0 && sent == []
    {
      this.schedule := schedule;
      calls, sent := 0, [];
    }

    method Write(payload: Bytes) returns (count: int, failed: bool)
      modifies this
      ensures calls == old(calls) + 1 && Report(count, failed) == schedule(old(calls), |payload|)
      ensures sent == old(sent) + payload[..Clamp(count, |payload|)]
    {
      var report := schedule(calls, |payload|);
      count, failed := report.count, report.failed;
      sent := sent + payload[..Clamp(count, |payload|)];
      calls := calls + 1;
    }
  }

  /** How a whole buffer is driven out: the calls made, the bytes accepted, and whether all went well. */
  datatype Driven = Driven(calls: nat, accepted: nat, ok: bool)

  function Drive(schedule: Schedule, calls: nat, size: nat): (d: Driven)
    ensures d.accepted <= size && (d.ok ==> d.accepted == size)
    decreases size
  {
    if size == 0 then Driven(calls, 0, true)
    else
      var report := schedule(calls, size);
      if report.failed || report.count <= 0 || report.count > size then
        Driven(calls + 1, Clamp(report.count, size), false)
      else
        var d := Drive(schedule, calls + 1, size - report.count);
        Driven(d.calls, report.count + d.accepted, d.ok)
  }

  /** Every call takes at least one byte and no more than it was offered. */
  ghost predicate MakesProgress(schedule: Schedule) {
    forall i: nat, size: nat | size > 0 :: !schedule(i, size).failed && 1 <= schedule(i, size).count <= size
  }

  /**
   Progress is enough, and every byte costs at most one call: a writer is never called without end. A
   call that takes nothing, or claims too much, is an error at once.
   */
  lemma {:induction false} DriveMeaning(schedule: Schedule, calls: nat, size: nat)
    ensures MakesProgress(schedule) ==> Drive(schedule, calls, size).ok
    ensures calls <= Drive(schedule, calls, size).calls <= calls + size
    ensures size > 0 && !(1 <= schedule(calls, size).count <= size) ==>
              !Drive(schedule, calls, size).ok && Drive(schedule, calls, size).calls == calls + 1
    decreases size
  {
    if size > 0 {
      var report := schedule(calls, size);
      if !(report.failed || report.count <= 0 || report.count > size) {
        DriveMeaning(schedule, calls + 1, size - report.count);
      }
    }
  }

  lemma NextPart(payload: Bytes, done: nat, n: nat)
    requires done + n <= |payload|
    ensures payload[..done] + payload[done..][..n] == payload[..done + n] && payload[done..][n..] == payload[done + n..]
  {
  }

  method WriteAll(w: Writer, payload: Bytes) returns (ok: bool)
    modifies w
    ensures var d := Drive(w.schedule, old(w.calls), |payload|);
            ok == d.ok && w.calls == d.calls && w.sent == old(w.sent) + payload[..d.accepted]
  {
    var left := payload;
    ghost var done: nat := 0;
    while |left| > 0
      invariant done <= |payload| && left == payload[done..]
      invariant w.sent == old(w.sent) + payload[..done]
      invariant var d, e := Drive(w.schedule, old(w.calls), |payload|), Drive(w.schedule, w.calls, |left|);
                d == Driven(e.calls, done + e.accepted, e.ok)
      decreases |left|
    {
      var n, failed := w.Write(left);
      NextPart(payload, done, Clamp(n, |left|));
      if failed {
        return false;
      }
      if n <= 0 || n > |left| {
        return false;
      }
      left := left[n..];
      done := done + n;
    }
    return true;
  }

  /** Nothing is written for a payload without a frame; otherwise a prefix of the frame, and all of it on success. */
  method WriteFrame(w: Writer, payload: Bytes) returns (ok: bool)
    modifies w
    ensures (payload == [] || |payload| > MAX_UINT32) ==> !ok && w.sent == old(w.sent) && w.calls == old(w.calls)
    ensures ok ==> w.sent == old(w.sent) + Frame(payload)
    ensures exists n: nat | n <= |Frame(payload)| :: w.sent == old(w.sent) + Frame(payload)[..n]
    ensures Fits(payload, None) && MakesProgress(w.schedule) ==> ok
  {
    assert old(w.sent) + Frame(payload)[..0] == old(w.sent);
    if payload == [] || |payload| > MAX_UINT32 {
      return false;
    }
    var header := new Byte[4];
    PutUint32(header, |payload|);
    DriveMeaning(w.schedule, w.calls, 4);
    ghost var start := w.sent;
    ok := WriteAll(w, header[..]);
    ghost var n := |w.sent| - |start|;
    FramePrefix(start, payload, n, 0);
    if !ok {
      return false;
    }
    DriveMeaning(w.schedule, w.calls, |payload|);
    ok := WriteAll(w, payload);
    ghost var m := |w.sent| - |start| - 4;
    FramePrefix(start, payload, 4, m);
  }

  lemma FramePrefix(start: Bytes, payload: Bytes, n: nat, m: nat)
    requires n <= 4 && m <= |payload| && (n < 4 ==> m == 0)
    ensures start + BigEndian(|payload|, 4)[..n] + payload[..m] == start + Frame(payload)[..n + m]
    ensures start + BigEndian(|payload|, 4)[..n] == start + Frame(payload)[..n]
    ensures n == 4 && m == |payload| ==> Frame(payload)[..n + m] == Frame(payload)
  {
    var header := BigEndian(|payload|, 4);
    PrefixOfPair(header, payload, n, m);
    PrefixOfHeader(header, payload, n);
    Regrouped(start, header[..n], payload[..m]);
  }

  lemma PrefixOfHeader(a: Bytes, b: Bytes, n: nat)
    requires n <= |a|
    ensures a[..n] == (a + b)[..n]
  {
  }

  lemma PrefixOfPair(a: Bytes, b: Bytes, n: nat, m: nat)
    requires n <= |a| && m <= |b| && (n < |a| ==> m == 0)
    ensures a[..n] + b[..m] == (a + b)[..n + m]
  {
  }

  /** binary.BigEndian.PutUint32. */
  method PutUint32(header: array<Byte>, n: nat)
    requires header.Length == 4 && n <= MAX_UINT32
    modifies header
    ensures header[..] == BigEndian(n, 4)
  {
    header[0] := n / 0x100_0000;
    header[1] := n / 0x1_0000 % 256;
    header[2] := n / 256 % 256;
    header[3] := n % 256;
    BigEndianOfFour(n);
  }

  lemma BigEndianOfFour(n: nat)
    requires n <= MAX_UINT32
    ensures BigEndian(n, 4) == [n / 0x100_0000, n / 0x1_0000 % 256, n / 256 % 256, n % 256]
  {
    assert BigEndian(n, 4) == BigEndian(n / 256, 3) + [n % 256];
    assert BigEndian(n / 256, 3) == BigEndian(n / 256 / 256, 2) + [n / 256 % 256];
    assert BigEndian(n / 256 / 256, 2) == BigEndian(n / 256 / 256 / 256, 1) + [n / 256 / 256 % 256];
    assert BigEndian(n / 256 / 256 / 256, 1) == BigEndian(n / 256 / 256 / 256 / 256, 0) + [n / 256 / 256 / 256 % 256];
  }

  // ---------------------------------------------------------------- the reader

  ghost predicate Delivers(chunk: (nat, nat) -> nat) {
    forall i: nat, room: nat | room > 0 :: 1 <= chunk(i, room) <= room
  }

  /** A stream being read: each call delivers at least one byte, unless the stream is at its end. */
  class Reader {
    const input: Bytes
    const chunk: (nat, nat) -> nat
    var calls: nat
    var at: nat

    ghost predicate Valid()
      reads this
    {
      at <= |input| && Delivers(chunk)
    }

    function Rest(): Bytes
      requires Valid()
      reads this
    {
      input[at..]
    }

    constructor (input: Bytes, chunk: (nat, nat) -> nat)
      requires Delivers(chunk)
      ensures Valid() && Rest() == input
    {
      this.input, this.chunk := input, chunk;
      calls, at := 0, 0;
    }

    /** Some bytes, at most so many; none only at the end of the stream. */
    method Read(most: nat) returns (bytes: Bytes)
      requires Valid() && most > 0
      modifies this
      ensures Valid() && |bytes| <= most && old(Rest()) == bytes + Rest()
      ensures bytes == [] ==> old(Rest()) == []
    {
      var room := if |input| - at < most then |input| - at else most;
      var n := if room == 0 then 0 else chunk(calls, room);
      bytes := input[at..at + n];
      at, calls := at + n, calls + 1;
    }
  }

  /** io.ReadFull: the buffer is filled in place, or the stream has ended. */
  method ReadFull(r: Reader, buffer: array<Byte>) returns (ok: bool)
    requires r.Valid()
    modifies r, buffer
    ensures r.Valid()
    ensures ok <==> |old(r.Rest())| >= buffer.Length
    ensures ok ==> old(r.Rest()) == buffer[..] + r.Rest()
    ensures !ok ==> r.Rest() == []
  {
    var n := 0;
    while n < buffer.Length
      invariant r.Valid() && 0 <= n <= buffer.Length && old(r.Rest()) == buffer[..n] + r.Rest()
    {
      var bytes := r.Read(buffer.Length - n);
      if bytes == [] {
        return false;
      }
      ghost var filled := buffer[..n];
      forall i | 0 <= i < |bytes| {
        buffer[n + i] := bytes[i];
      }
      n := n + |bytes|;
      assert buffer[..n] == filled + bytes;
      Regrouped(filled, bytes, r.Rest());
    }
    assert buffer[..n] == buffer[..];
    return true;
  }

  /** The Go reader, where a maximum of zero is no maximum. */
  method ReadFrame(r: Reader, maxBytes: nat) returns (parsed: Parsed)
    requires r.Valid()
    modifies r
    ensures r.Valid()
    ensures var limit := if maxBytes > 0 then Some(maxBytes) else None;
            && parsed == Parse(old(r.Rest()), limit)
            && r.Rest() == old(r.Rest())[Consumed(old(r.Rest()), limit)..]
  {
    ghost var whole := r.Rest();
    var header := new Byte[4];
    var ok := ReadFull(r, header);
    if !ok {
      return HeaderCut;
    }
    assert whole[..4] == header[..] && whole[4..] == r.Rest();
    var size := FromBigEndian(header[..]);
    if size == 0 {
      return EmptyFrame;
    }
    if maxBytes > 0 && size > maxBytes {
      return TooLarge;
    }
    var payload := new Byte[size];
    ok := ReadFull(r, payload);
    if !ok {
      return BodyCut;
    }
    assert whole[4..] == payload[..] + r.Rest();
    assert whole[4..4 + size] == whole[4..][..size] == payload[..];
    assert whole[4 + size..] == whole[4..][size..] == r.Rest();
    return Payload(payload[..]);
  }

  // --------------------------------------------------- the helper's transport

  datatype Failure = Invalid | Overflow

  /** readExact: chunks are appended until there are enough. */
  method ReadExact(r: Reader, count: nat) returns (result: Option<Bytes>)
    requires r.Valid()
    modifies r
    ensures r.Valid()
    ensures result.Some? <==> |old(r.Rest())| >= count
    ensures result.Some? ==> |result.value| == count && old(r.Rest()) == result.value + r.Rest()
    ensures result.None? ==> r.Rest() == []
  {
    var bytes: Bytes := [];
    while |bytes| < count
      invariant r.Valid() && |bytes| <= count && old(r.Rest()) == bytes + r.Rest()
      decreases count - |bytes|
    {
      var chunk := r.Read(count - |bytes|);
      if chunk == [] {
        return None;
      }
      Regrouped(bytes, chunk, r.Rest());
      bytes := bytes + chunk;
    }
    return Some(bytes);
  }

  /** What the helper reports of a frame. */
  function Reported(parsed: Parsed): Result<Bytes, Failure> {
    match parsed
    case Payload(p) => Ok(p)
    case EmptyFrame => Err(Overflow)
    case TooLarge => Err(Overflow)
    case _ => Err(Invalid)
  }

  /** The Swift reader, which always has a maximum. */
  method ReadContactFrame(r: Reader, maximum: int) returns (result: Result<Bytes, Failure>)
    requires r.Valid()
    modifies r
    ensures r.Valid()
    ensures result == Reported(Parse(old(r.Rest()), Some(maximum)))
    ensures r.Rest() == old(r.Rest())[Consumed(old(r.Rest()), Some(maximum))..]
  {
    ghost var whole := r.Rest();
    var header := ReadExact(r, 4);
    if header.None? {
      return Err(Invalid);
    }
    assert whole[..4] == header.value && whole[4..] == r.Rest();
    var length := 0;
    for i := 0 to 4
      invariant length == FromBigEndian(header.value[..i])
    {
      assert header.value[..i + 1][..i] == header.value[..i];
      length := length * 256 + header.value[i];
    }
    assert header.value[..4] == header.value;
    if length <= 0 || length > maximum {
      return Err(Overflow);
    }
    var body := ReadExact(r, length);
    if body.None? {
      return Err(Invalid);
    }
    assert whole[4..4 + length] == whole[4..][..length] == body.value;
    assert whole[4 + length..] == whole[4..][length..] == r.Rest();
    return Ok(body.value);
  }

  /** writeContactFrame: the handle takes everything or throws; the length must fit its header, and may be zero. */
  method WriteContactFrame(w: Writer, data: Bytes) returns (ok: bool)
    requires |data| <= MAX_UINT32
    modifies w
    ensures ok ==> w.sent == old(w.sent) + Frame(data)
    ensures exists n: nat | n <= |Frame(data)| :: w.sent == old(w.sent) + Frame(data)[..n]
    ensures MakesProgress(w.schedule) ==> ok
  {
    ghost var start := w.sent;
    DriveMeaning(w.schedule, w.calls, 4);
    ok := WriteAll(w, BigEndian(|data|, 4));
    FramePrefix(start, data, |w.sent| - |start|, 0);
    if !ok {
      return false;
    }
    DriveMeaning(w.schedule, w.calls, |data|);
    ok := WriteAll(w, data);
    FramePrefix(start, data, 4, |w.sent| - |start| - 4);
  }

  /** Each side reads what the other writes exactly when it is not empty and within the reader's maximum. */
  lemma ReadersAgreeIff(data: Bytes, tail: Bytes, maxBytes: nat, maximum: int)
    requires |data| <= MAX_UINT32
    ensures var stream := Frame(data) + tail;
            && (Parse(stream, if maxBytes > 0 then Some(maxBytes) else None) == Payload(data) <==>
                data != [] && (maxBytes == 0 || |data| <= maxBytes))
            && (Reported(Parse(stream, Some(maximum))) == Ok(data) <==> data != [] && |data| <= maximum)
  {
    ParseFrame(data, tail, if maxBytes > 0 then Some(maxBytes) else None);
    ParseFrame(data, tail, Some(maximum));
  }
}
