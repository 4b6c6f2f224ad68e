/** The byte-at-a-time UART frame reassembly of mpu/someip/protocol.py (class StreamParser). */
module StreamParsing {
  import opened Bytes
  import opened Protocol

  /** One received byte with the two clock reads feed() makes around it. */
  datatype TimedByte = TimedByte(value: byte, now: int, tick: int)

  datatype ParserState = ParserState(buf: seq<byte>, lastTick: Option<int>)

  const INITIAL := ParserState([], None)

  // ---- the frame boundary rule ----

  function LengthField(buf: seq<byte>): u32
    requires |buf| >= HEADER_SIZE
  {
    Be32(buf[4..8])
  }

  predicate LengthOk(buf: seq<byte>)
    requires |buf| >= HEADER_SIZE
  {
    8 <= LengthField(buf) <= 32
  }

  function Total(buf: seq<byte>): nat
    requires |buf| >= HEADER_SIZE && LengthOk(buf)
  {
    HEADER_SIZE + (LengthField(buf) - 8)
  }

  /** A buffer that neither completes a frame nor fails the length check yet. */
  predicate Incomplete(buf: seq<byte>) {
    |buf| >= HEADER_SIZE ==> LengthOk(buf) && |buf| < Total(buf)
  }

  /** A buffer holding exactly one frame by its length field. */
  predicate Complete(buf: seq<byte>) {
    |buf| >= HEADER_SIZE && LengthOk(buf) && |buf| == Total(buf)
  }

  // ---- feed and feed_bytes as functions of the state ----

  function Push(buf: seq<byte>, b: byte): (r: (seq<byte>, Option<Event>)) {
    var held := buf + [b];
    if |held| < HEADER_SIZE then (held, None)
    else if !LengthOk(held) then ([], None)
    else if |held| < Total(held) then (held, None)
    else ([], ParseEvent(held[..Total(held)]).ToOption())
  }

  /** The idle-timeout test: a partial frame whose last byte is more than `timeout` old. */
  predicate Stale(s: ParserState, now: int, timeout: int) {
    s.buf != [] && s.lastTick.Some? && now - s.lastTick.value > timeout
  }

  function FeedOne(s: ParserState, b: TimedByte, timeout: int): (r: (ParserState, Option<Event>)) {
    var (buf, event) := Push(if Stale(s, b.now, timeout) then [] else s.buf, b.value);
    (ParserState(buf, if buf == [] then None else Some(b.tick)), event)
  }

  function FeedAll(s: ParserState, bytes: seq<TimedByte>, timeout: int): (r: (ParserState, seq<Event>))
    decreases |bytes|
  {
    if bytes == [] then (s, [])
    else
      var (s1, event) := FeedOne(s, bytes[0], timeout);
      var (s2, events) := FeedAll(s1, bytes[1..], timeout);
      (s2, event.ToSeq() + events)
  }

  /** What holds of every reachable state. */
  predicate Valid(s: ParserState) {
    Incomplete(s.buf) && (s.buf == [] <==> s.lastTick == None)
  }

  /**
   * The buffer bound: no state reachable from a fresh parser holds 40 bytes, and a held
   * header always announces a frame that is still incomplete.
   */
  lemma {:induction false} ReachableValid(s: ParserState, bytes: seq<TimedByte>, timeout: int)
    requires Valid(s)
    ensures Valid(FeedAll(s, bytes, timeout).0)
    ensures |FeedAll(s, bytes, timeout).0.buf| < 40
    decreases |bytes|
  {
    if bytes != [] {
      ReachableValid(FeedOne(s, bytes[0], timeout).0, bytes[1..], timeout);
    }
  }

  /** Feeding two runs of bytes one after the other is feeding them at once. */
  lemma {:induction false} FeedAllConcat(s: ParserState, a: seq<TimedByte>, b: seq<TimedByte>, timeout: int)
    ensures var (s1, e1) := FeedAll(s, a, timeout);
            var (s2, e2) := FeedAll(s1, b, timeout);
            FeedAll(s, a + b, timeout) == (s2, e1 + e2)
    decreases |a|
  {
    if a == [] {
      assert a + b == b;
      assert [] + FeedAll(s, b, timeout).1 == FeedAll(s, b, timeout).1;
    } else {
      assert (a + b)[1..] == a[1..] + b;
      var (s1, event) := FeedOne(s, a[0], timeout);
      FeedAllConcat(s1, a[1..], b, timeout);
      var (s2, e1) := FeedAll(s1, a[1..], timeout);
      var e2 := FeedAll(s2, b, timeout).1;
      assert event.ToSeq() + (e1 + e2) == (event.ToSeq() + e1) + e2;
    }
  }

  lemma {:induction false} FeedAllOne(s: ParserState, b: TimedByte, timeout: int)
    ensures var (s1, event) := FeedOne(s, b, timeout); FeedAll(s, [b], timeout) == (s1, event.ToSeq())
  {
    var (s1, event) := FeedOne(s, b, timeout);
    assert [b][1..] == [];
    assert FeedAll(s1, [], timeout) == (s1, []);
    assert event.ToSeq() + [] == event.ToSeq();
  }

  lemma {:induction false} FeedAllLast(s: ParserState, bytes: seq<TimedByte>, timeout: int)
    requires bytes != []
    ensures var n := |bytes| - 1;
            var (s1, events) := FeedAll(s, bytes[..n], timeout);
            var (s2, event) := FeedOne(s1, bytes[n], timeout);
            FeedAll(s, bytes, timeout) == (s2, events + event.ToSeq())
  {
    var n := |bytes| - 1;
    assert bytes == bytes[..n] + [bytes[n]];
    FeedAllConcat(s, bytes[..n], [bytes[n]], timeout);
    FeedAllOne(FeedAll(s, bytes[..n], timeout).0, bytes[n], timeout);
  }

  class StreamParser {
    const timeoutMs: int
    var buf: seq<byte>
    var lastTick: Option<int>

    ghost function State(): ParserState
      reads this
    {
      ParserState(buf, lastTick)
    }

    constructor (timeoutMs: int := 50)
      ensures this.timeoutMs == timeoutMs && State() == INITIAL
    {
      this.timeoutMs := timeoutMs;
      buf, lastTick := [], None;
    }

    method Reset()
      modifies this
      ensures State() == INITIAL
    {
      buf, lastTick := [], None;
    }

    method Feed(b: int, now: int, tick: int) returns (event: Option<Event>)
      modifies this
      ensures (State(), event) == FeedOne(old(State()), TimedByte(b % 0x100, now, tick), timeoutMs)
    {
      hide Be32, FromBytes, ParseEvent;
      if buf != [] && lastTick.Some? && now - lastTick.value > timeoutMs {
        Reset();
      }
      buf := buf + [b % 0x100];
      lastTick := Some(tick);
      if |buf| < HEADER_SIZE {
        return None;
      }
      var length := FromBytes(Slice(buf, 4, 8));
      FromBytesWidths(buf[0..2], buf[0..3], buf[4..8]);
      if length < 8 || length > 32 {
        Reset();
        return None;
      }
      var total := HEADER_SIZE + (length - 8);
      if |buf| < total {
        return None;
      }
      var frame := Slice(buf, 0, total);
      Reset();
      event := ParseEvent(frame).ToOption();
    }

    method FeedBytes(data: seq<TimedByte>) returns (events: seq<Event>)
      modifies this
      ensures (State(), events) == FeedAll(old(State()), data, timeoutMs)
      ensures old(Valid(State())) ==> Valid(State())
    {
      hide FeedOne;
      events := [];
      ghost var start := State();
      for i := 0 to |data|
        invariant (State(), events) == FeedAll(start, data[..i], timeoutMs)
      {
        var event := Feed(data[i].value, data[i].now, data[i].tick);
        FeedAllLast(start, data[..i + 1], timeoutMs);
        assert data[..i + 1][..i] == data[..i];
        if event.Some? {
          events := events + [event.value];
        } else {
          assert events + [] == events;
        }
      }
      assert data[..|data|] == data;
      if Valid(start) {
        ReachableValid(start, data, timeoutMs);
      }
    }
  }
}
