/**
 * The stream this system really sends: notify and heartbeat packets with one payload byte,
 * each written at once. Which of them are received, for every pattern of idle gaps.
 */
module NotifyStream {
  import opened Bytes
  import opened Protocol
  import opened StreamParsing
  import opened Segmentation
  import opened Framing

  /** A 24-byte packet with one payload byte, received without an over-long pause inside it. */
  ghost predicate Notification(a: Arrival, timeout: int) {
    |a.msg.payload| == 1 && Values(a.bytes) == BuildPacket(a.msg) && Steady(a.bytes, timeout)
  }

  /** The messages that an idle gap, or a fresh start, precedes. `lastTick` is the last byte before the stream. */
  ghost function AfterIdle(lastTick: Option<int>, stream: seq<Arrival>, timeout: int): seq<Event>
    requires forall a <- stream :: a.bytes != []
    decreases |stream|
  {
    if stream == [] then []
    else
      (if lastTick == None || stream[0].bytes[0].now - lastTick.value > timeout
       then [stream[0].msg.Delivered()] else [])
      + AfterIdle(Some(stream[0].LastTick()), stream[1..], timeout)
  }

  /** The last 13 bytes of a notification, from the low byte of its session id on. */
  predicate TailOf(buf: seq<byte>) {
    |buf| == 13 && buf[1..5] == [0x01, 0x01, 0x02, 0x00] && buf[6..] == Zeros(7)
  }

  /** What can be pending between two notifications. */
  predicate Pending(buf: seq<byte>) {
    buf == [] || buf == Zeros(7) || buf == Zeros(5) || TailOf(buf)
  }

  lemma NotificationBytes(m: Message)
    requires |m.payload| == 1
    ensures BuildPacket(m)
         == [0x12, 0x34, m.eventId / 0x100, m.eventId % 0x100, 0, 0, 0, 9, 0, 1, m.session / 0x100, m.session % 0x100,
             1, 1, 2, 0, m.payload[0]] + Zeros(7)
  {
    assert m.payload == [m.payload[0]];
  }

  /** The same by index. */
  lemma PacketBytes(m: Message)
    requires |m.payload| == 1
    ensures var p := BuildPacket(m);
            && |p| == 24 && p[0] == 0x12 && p[1] == 0x34 && p[2] == m.eventId / 0x100 && p[3] == m.eventId % 0x100
            && p[4] == 0 && p[5] == 0 && p[6] == 0 && p[7] == 9 && p[8] == 0 && p[9] == 1
            && p[10] == m.session / 0x100 && p[11] == m.session % 0x100
            && p[12] == 1 && p[13] == 1 && p[14] == 2 && p[15] == 0 && p[16] == m.payload[0]
            && forall k :: 17 <= k < 24 ==> p[k] == 0
  {
    NotificationBytes(m);
  }

  // ---- the next packet's bytes behind each pending run ----

  lemma SevenThenPacket(m: Message)
    requires |m.payload| == 1
    ensures var p := BuildPacket(m);
            && |p| == 24 && Closes(Zeros(7) + p[..19]) && Outcome(Zeros(7) + p[..19]) == [] && p[19..] == Zeros(5)
  {
    PacketBytes(m);
    hide BuildPacket;
    var p := BuildPacket(m);
    var head := Zeros(7) + p[..19];
    assert head[7] == p[0] == 0x12;
    assert head[4..8] == [0, 0, 0, 0x12];
    assert head[0..2] == [0, 0];
  }

  lemma FiveThenPacket(m: Message)
    requires |m.payload| == 1
    ensures var p := BuildPacket(m);
            && |p| == 24 && Closes(Zeros(5) + p[..11]) && Outcome(Zeros(5) + p[..11]) == [] && TailOf(p[11..])
  {
    PacketBytes(m);
    hide BuildPacket;
    var p := BuildPacket(m);
    var head := Zeros(5) + p[..11];
    assert head[4] == 0 && head[5] == p[0] && head[6] == p[1] && head[7] == p[2];
    assert head[4..8] == [0, 0x12, 0x34, p[2]];
    assert p[11..][1..5] == p[12..16] == [1, 1, 2, 0];
    assert p[11..][6..] == p[17..] == Zeros(7);
  }

  lemma TailThenPacket(buf: seq<byte>, m: Message)
    requires TailOf(buf) && |m.payload| == 1
    ensures var p := BuildPacket(m);
            && |p| == 24 && p[19..] == Zeros(5)
            && Closes(buf + p[..3]) && Outcome(buf + p[..3]) == []
            && Closes(p[3..19]) && Outcome(p[3..19]) == []
  {
    PacketBytes(m);
    hide BuildPacket;
    var p := BuildPacket(m);
    var head, next := buf + p[..3], p[3..19];
    assert buf[4] == buf[1..5][3] && buf[6] == buf[6..][0] && buf[7] == buf[6..][1];
    assert head[4] == 0 && head[5] == buf[5] && head[6] == 0 && head[7] == 0;
    assert head[4..8] == [0, buf[5], 0, 0];
    TailLength(head, buf);
    assert next[4] == 9 && next[5] == 0 && next[6] == 1 && next[7] == p[10];
    assert next[4..8] == [9, 0, 1, p[10]];
  }

  /** A length field whose third and fourth bytes are zero is 0, below 8, or at least 65536. */
  lemma TailLength(head: seq<byte>, buf: seq<byte>)
    requires |head| >= HEADER_SIZE && |buf| == 13 && head[4..8] == [0, buf[5], 0, 0]
    ensures !LengthOk(head)
  {
  }

  // ---- one notification from each pending state ----

  lemma {:induction false} SteadyParts(bytes: seq<TimedByte>, n: nat, timeout: int)
    requires n <= |bytes| && Steady(bytes, timeout)
    ensures Steady(bytes[..n], timeout) && Steady(bytes[n..], timeout)
    ensures Values(bytes[..n]) == Values(bytes)[..n] && Values(bytes[n..]) == Values(bytes)[n..]
  {
  }

  /** A steady run whose first `n` bytes close the buffer and whose few others are held. */
  lemma {:induction false} CloseThenHold(s: ParserState, bytes: seq<TimedByte>, n: nat, timeout: int)
    requires 0 < n < |bytes| < n + HEADER_SIZE && Steady(bytes, timeout) && !Stale(s, bytes[0].now, timeout)
    requires Closes(s.buf + Values(bytes)[..n])
    ensures FeedAll(s, bytes, timeout)
         == (ParserState(Values(bytes)[n..], Some(bytes[|bytes| - 1].tick)), Outcome(s.buf + Values(bytes)[..n]))
  {
    SteadyParts(bytes, n, timeout);
    hide FeedAll, FeedOne, Closes, Outcome, Steady;
    var head, tail := bytes[..n], bytes[n..];
    RunToClose(s, head, timeout);
    HoldShort(tail, timeout);
    FeedAllConcat(s, head, tail, timeout);
    assert bytes == head + tail;
    assert Outcome(s.buf + Values(head)) + [] == Outcome(s.buf + Values(head));
  }

  lemma {:induction false} HoldShort(bytes: seq<TimedByte>, timeout: int)
    requires 0 < |bytes| < HEADER_SIZE && Steady(bytes, timeout)
    ensures FeedAll(INITIAL, bytes, timeout) == (ParserState(Values(bytes), Some(bytes[|bytes| - 1].tick)), [])
  {
    hide FeedAll, Steady;
    assert INITIAL.buf + Values(bytes) == Values(bytes);
    Hold(INITIAL, bytes, timeout);
  }

  lemma {:induction false} FromFresh(s: ParserState, a: Arrival, timeout: int)
    requires Notification(a, timeout) && CleanStart(s, a.bytes, timeout) && Valid(s)
    ensures |a.bytes| == 24
    ensures FeedAll(s, a.bytes, timeout)
         == (ParserState(Zeros(7), Some(a.LastTick())), [a.msg.Delivered()])
  {
    FreshPacket(a.msg);
    hide FeedAll, Closes, Outcome, Steady, BuildPacket, Frame;
    StaleRestart(s, a.bytes, timeout);
    assert INITIAL.buf + BuildPacket(a.msg)[..17] == BuildPacket(a.msg)[..17];
    CloseThenHold(INITIAL, a.bytes, 17, timeout);
  }

  lemma FreshPacket(m: Message)
    requires |m.payload| == 1
    ensures var p := BuildPacket(m);
            && |p| == 24 && p[17..] == Zeros(7) && p[..17] == Frame(m)
            && Closes(p[..17]) && Outcome(p[..17]) == [m.Delivered()]
  {
    PacketBytes(m);
    FrameCloses(m);
    assert BuildPacket(m)[..17] == Frame(m);
  }

  /** Seven pending zeros turn the packet into a 26-byte frame of service 0, which is discarded. */
  lemma {:induction false} FromSeven(s: ParserState, a: Arrival, timeout: int)
    requires Notification(a, timeout) && a.bytes != [] && s.buf == Zeros(7) && !Stale(s, a.bytes[0].now, timeout)
    ensures FeedAll(s, a.bytes, timeout) == (ParserState(Zeros(5), Some(a.LastTick())), [])
  {
    SevenThenPacket(a.msg);
    hide FeedAll, Closes, Outcome, Steady, BuildPacket;
    CloseThenHold(s, a.bytes, 19, timeout);
  }

  /** Five pending zeros put the service id into the length field: bad length after 11 bytes, 13 stay pending. */
  lemma {:induction false} FromFive(s: ParserState, a: Arrival, timeout: int)
    requires Notification(a, timeout) && a.bytes != [] && s.buf == Zeros(5) && !Stale(s, a.bytes[0].now, timeout)
    ensures var (s1, events) := FeedAll(s, a.bytes, timeout);
            events == [] && TailOf(s1.buf) && s1.lastTick == Some(a.LastTick())
  {
    FiveThenPacket(a.msg);
    hide FeedAll, Closes, Outcome, Steady, BuildPacket, TailOf;
    CloseThenHold(s, a.bytes, 11, timeout);
  }

  /** A pending 13-byte tail meets two bad lengths in a row; the packet's last five zeros stay pending. */
  lemma {:induction false} FromTail(s: ParserState, a: Arrival, timeout: int)
    requires Notification(a, timeout) && a.bytes != [] && TailOf(s.buf) && !Stale(s, a.bytes[0].now, timeout)
    ensures FeedAll(s, a.bytes, timeout) == (ParserState(Zeros(5), Some(a.LastTick())), [])
  {
    TailThenPacket(s.buf, a.msg);
    SteadyParts(a.bytes, 3, timeout);
    hide FeedAll, FeedOne, Closes, Outcome, Steady, BuildPacket, TailOf;
    var packet := BuildPacket(a.msg);
    var first, later := a.bytes[..3], a.bytes[3..];
    RunToClose(s, first, timeout);
    assert Values(later)[..16] == packet[3..19] && Values(later)[16..] == packet[19..];
    assert INITIAL.buf + Values(later)[..16] == packet[3..19];
    CloseThenHold(INITIAL, later, 16, timeout);
    FeedAllConcat(s, first, later, timeout);
    assert a.bytes == first + later;
    assert later[|later| - 1].tick == a.LastTick();
  }

  /**
   * Exactly which notifications are received: those that an idle gap, or a fresh start,
   * precedes. In between, the parser cycles between five pending zeros and thirteen
   * pending bytes and never realigns by itself.
   */
  lemma {:induction false} ReceivedExactly(s: ParserState, stream: seq<Arrival>, timeout: int)
    requires Valid(s) && Pending(s.buf)
    requires forall a <- stream :: Notification(a, timeout)
    ensures forall a <- stream :: a.bytes != []
    ensures FeedAll(s, Wire(stream), timeout).1 == AfterIdle(s.lastTick, stream, timeout)
    decreases |stream|
  {
    forall a <- stream ensures a.bytes != [] {
      assert |Values(a.bytes)| == |BuildPacket(a.msg)|;
    }
    if stream != [] {
      hide FeedAll, FeedOne, Notification;
      var a, later := stream[0], stream[1..];
      OneNotification(s, a, timeout);
      FeedAllConcat(s, a.bytes, Wire(later), timeout);
      ReceivedExactly(FeedAll(s, a.bytes, timeout).0, later, timeout);
    }
  }

  lemma {:induction false} OneNotification(s: ParserState, a: Arrival, timeout: int)
    requires Valid(s) && Pending(s.buf) && Notification(a, timeout) && a.bytes != []
    ensures var (s1, events) := FeedAll(s, a.bytes, timeout);
            && Valid(s1) && Pending(s1.buf) && s1.lastTick == Some(a.LastTick())
            && events == if CleanStart(s, a.bytes, timeout) then [a.msg.Delivered()] else []
  {
    hide FeedAll, FeedOne;
    if CleanStart(s, a.bytes, timeout) {
      FromFresh(s, a, timeout);
    } else if s.buf == Zeros(7) {
      FromSeven(s, a, timeout);
    } else if s.buf == Zeros(5) {
      FromFive(s, a, timeout);
    } else {
      FromTail(s, a, timeout);
    }
  }

  /**
   * The docstring's claim that leftover padding is discarded fails: a stream of any length
   * without idle gaps delivers its first notification and no other.
   */
  lemma {:induction false} GaplessDeliversOne(stream: seq<Arrival>, timeout: int)
    requires stream != [] && (forall a <- stream :: Notification(a, timeout) && a.bytes != [])
    requires forall i :: 0 < i < |stream| ==> !IdleBefore(stream[i - 1], stream[i], timeout)
    ensures FeedAll(INITIAL, Wire(stream), timeout).1 == [stream[0].msg.Delivered()]
  {
    ReceivedExactly(INITIAL, stream, timeout);
    NoneAfterIdle(stream[0], stream[1..], timeout);
  }

  lemma {:induction false} NoneAfterIdle(previous: Arrival, stream: seq<Arrival>, timeout: int)
    requires previous.bytes != [] && (forall a <- stream :: a.bytes != [])
    requires stream != [] ==> !IdleBefore(previous, stream[0], timeout)
    requires forall i :: 0 < i < |stream| ==> !IdleBefore(stream[i - 1], stream[i], timeout)
    ensures AfterIdle(Some(previous.LastTick()), stream, timeout) == []
    decreases |stream|
  {
    if stream != [] {
      var later := stream[1..];
      assert forall i :: 0 < i < |later| ==> later[i] == stream[i + 1] && later[i - 1] == stream[i];
      NoneAfterIdle(stream[0], later, timeout);
    }
  }
}
