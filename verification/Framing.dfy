/**
 * Packets over the byte stream. The sender pads every packet to 8 bytes, the receiver
 * consumes only the frame, so the padding heads the next frame unless an idle gap clears
 * it: when that gap is needed, and that it is.
 */
module Framing {
  import opened Bytes
  import opened Protocol
  import opened StreamParsing
  import opened Segmentation

  /** A packet as it arrives: the message and its timed bytes. */
  datatype Arrival = Arrival(msg: Message, bytes: seq<TimedByte>) {
    ghost predicate Padded() {
      |msg.payload| % 8 != 0
    }

    function LastTick(): int
      requires bytes != []
    {
      bytes[|bytes| - 1].tick
    }
  }

  /** A built packet the receiver can accept, with no over-long pause inside its frame. The padding may pause. */
  ghost predicate Arrives(a: Arrival, timeout: int) {
    && |a.msg.payload| <= 24
    && Values(a.bytes) == BuildPacket(a.msg)
    && Steady(a.bytes[..|Frame(a.msg)|], timeout)
  }

  ghost predicate IdleBefore(previous: Arrival, next: Arrival, timeout: int)
    requires previous.bytes != [] && next.bytes != []
  {
    next.bytes[0].now - previous.LastTick() > timeout
  }

  /** Every packet that follows a padded one comes after an idle gap. */
  ghost predicate WellSpaced(stream: seq<Arrival>, timeout: int) {
    && (forall a <- stream :: Arrives(a, timeout) && a.bytes != [])
    && (forall i :: 0 < i < |stream| && stream[i - 1].Padded() ==> IdleBefore(stream[i - 1], stream[i], timeout))
  }

  ghost function Wire(stream: seq<Arrival>): seq<TimedByte> {
    if stream == [] then [] else stream[0].bytes + Wire(stream[1..])
  }

  ghost function Sent(stream: seq<Arrival>): seq<Event> {
    if stream == [] then [] else [stream[0].msg.Delivered()] + Sent(stream[1..])
  }

  // ---- leftovers shorter than a header ----

  /** A run of zero bytes too short for a header emits nothing and leaves zeros, whatever its pauses. */
  lemma {:induction false} ShortZeros(s: ParserState, bytes: seq<TimedByte>, timeout: int)
    requires s.buf == Zeros(|s.buf|) && |s.buf| + |bytes| < HEADER_SIZE && Valid(s)
    requires forall b <- bytes :: b.value == 0
    ensures var (s1, events) := FeedAll(s, bytes, timeout);
            && events == [] && s1.buf == Zeros(|s1.buf|) && |s1.buf| <= |s.buf| + |bytes| && Valid(s1)
            && (bytes != [] ==> s1.lastTick == Some(bytes[|bytes| - 1].tick))
    decreases |bytes|
  {
    if bytes != [] {
      var (s1, event) := FeedOne(s, bytes[0], timeout);
      ShortZeros(s1, bytes[1..], timeout);
    }
  }

  lemma PushBound(buf: seq<byte>, b: byte)
    ensures var (next, event) := Push(buf, b);
            && |next| <= |buf| + 1
            && (buf != [] && next != [] ==> next[0] == buf[0])
            && (buf != [] && buf[0] != 0x12 ==> event == None)
            && (event.Some? ==> next == [] && |event.value.payload| + HEADER_SIZE <= |buf| + 1)
  {
    var held := buf + [b];
    if |held| >= HEADER_SIZE && LengthOk(held) && |held| >= Total(held) {
      var frame := held[..Total(held)];
      assert frame[0..2] == held[0..2];
    }
  }

  /**
   * An event's frame lies in the held and the new bytes together; and in the new bytes
   * alone while the buffer does not begin with the high byte of the service id.
   */
  lemma {:induction false} EmittedBound(s: ParserState, bytes: seq<TimedByte>, timeout: int)
    ensures forall e <- FeedAll(s, bytes, timeout).1 :: |e.payload| + HEADER_SIZE <= |s.buf| + |bytes|
    ensures s.buf != [] && s.buf[0] != 0x12 ==>
              forall e <- FeedAll(s, bytes, timeout).1 :: |e.payload| + HEADER_SIZE <= |bytes|
    decreases |bytes|
  {
    if bytes != [] {
      var (s1, event) := FeedOne(s, bytes[0], timeout);
      PushBound(if Stale(s, bytes[0].now, timeout) then [] else s.buf, bytes[0].value);
      EmittedBound(s1, bytes[1..], timeout);
    }
  }

  // ---- sufficiency: the round trip ----

  /** A clean start: nothing pending, or what is pending is stale by the time the packet begins. */
  predicate CleanStart(s: ParserState, bytes: seq<TimedByte>, timeout: int) {
    s.buf == [] || (bytes != [] && Stale(s, bytes[0].now, timeout))
  }

  /** The state a packet leaves: its padding, as the head of the next frame. */
  ghost predicate LeavesPadding(s: ParserState, a: Arrival)
    requires a.bytes != []
  {
    && Valid(s) && s.buf == Zeros(|s.buf|) && |s.buf| < 8
    && (s.buf == [] <==> !a.Padded())
    && (a.Padded() ==> s.lastTick == Some(a.LastTick()))
  }

  lemma FrameCloses(m: Message)
    requires |m.payload| <= 24
    ensures Closes(Frame(m)) && Outcome(Frame(m)) == [m.Delivered()]
  {
    assert Frame(m) + [] == Frame(m);
    FrameFields(m, []);
    ParseRoundTrip(m, []);
  }

  lemma ArrivalSplit(a: Arrival, timeout: int)
    requires Arrives(a, timeout)
    ensures var n := |Frame(a.msg)|;
            && n <= |a.bytes| < n + 8 && Values(a.bytes[..n]) == Frame(a.msg)
            && (forall b <- a.bytes[n..] :: b.value == 0)
            && (|a.bytes| == n <==> !a.Padded())
  {
    var n := |Frame(a.msg)|;
    var packet := BuildPacket(a.msg);
    assert packet[..n] == Frame(a.msg);
    forall i | n <= i < |a.bytes| ensures a.bytes[i].value == 0 {
      assert packet[i] == Zeros(PadLength(n))[i - n];
      assert Values(a.bytes)[i] == packet[i];
    }
    forall i | 0 <= i < n ensures Values(a.bytes[..n])[i] == Frame(a.msg)[i] {
      assert Values(a.bytes)[i] == packet[i];
    }
  }

  lemma {:induction false} OnePacket(s: ParserState, a: Arrival, timeout: int)
    requires Valid(s) && Arrives(a, timeout) && a.bytes != [] && CleanStart(s, a.bytes, timeout)
    ensures var (s1, events) := FeedAll(s, a.bytes, timeout);
            events == [a.msg.Delivered()] && LeavesPadding(s1, a)
  {
    hide FeedAll, FeedOne, Closes, Outcome, Incomplete, BuildPacket, Header;
    ArrivalSplit(a, timeout);
    var n := |Frame(a.msg)|;
    var frame, padding := a.bytes[..n], a.bytes[n..];
    StaleRestart(s, a.bytes, timeout);
    FrameCloses(a.msg);
    assert INITIAL.buf + Values(frame) == Frame(a.msg);
    RunToClose(INITIAL, frame, timeout);
    assert INITIAL.buf == Zeros(0);
    ShortZeros(INITIAL, padding, timeout);
    assert a.bytes == frame + padding;
    FeedAllConcat(INITIAL, frame, padding, timeout);
  }

  /**
   * Framing round trip, from any reachable state: a well-spaced stream is delivered event
   * by event, in order, nothing lost and nothing added. A packet whose payload length is a
   * multiple of 8 needs no gap after it.
   */
  lemma {:induction false} RoundTrip(s: ParserState, stream: seq<Arrival>, timeout: int)
    requires Valid(s) && WellSpaced(stream, timeout)
    requires stream != [] ==> CleanStart(s, stream[0].bytes, timeout)
    ensures FeedAll(s, Wire(stream), timeout).1 == Sent(stream)
    decreases |stream|
  {
    if stream != [] {
      hide FeedAll, FeedOne;
      var a, later := stream[0], stream[1..];
      OnePacket(s, a, timeout);
      var s1 := FeedAll(s, a.bytes, timeout).0;
      if later != [] {
        assert a.Padded() ==> IdleBefore(stream[0], stream[1], timeout);
      }
      RoundTrip(s1, later, timeout);
      FeedAllConcat(s, a.bytes, Wire(later), timeout);
    }
  }

  // ---- necessity ----

  /**
   * A packet that starts while padding is still pending is lost: whatever is emitted while
   * its bytes arrive carries a strictly shorter payload.
   */
  lemma {:induction false} NextPacketLost(s: ParserState, a: Arrival, timeout: int)
    requires 1 <= |s.buf| < 8 && s.buf == Zeros(|s.buf|)
    requires Arrives(a, timeout) && a.bytes != [] && !Stale(s, a.bytes[0].now, timeout)
    ensures forall e <- FeedAll(s, a.bytes, timeout).1 :: |e.payload| < |a.msg.payload|
  {
    hide FeedAll;
    var n := HEADER_SIZE - |s.buf|;
    ArrivalSplit(a, timeout);
    var head, tail := a.bytes[..n - 1], a.bytes[n - 1..];
    assert Steady(head, timeout) by {
      assert head == a.bytes[..|Frame(a.msg)|][..n - 1];
    }
    Hold(s, head, timeout);
    var s1 := FeedAll(s, head, timeout).0;
    assert s1.buf[0] == 0;
    assert a.bytes == head + tail;
    FeedAllConcat(s, head, tail, timeout);
    EmittedBound(s1, tail, timeout);
    assert [] + FeedAll(s1, tail, timeout).1 == FeedAll(s1, tail, timeout).1;
  }

  /**
   * Exactly when the second of two packets is delivered: when the first one is unpadded,
   * or an idle gap separates them. For every payload length the receiver can accept.
   */
  lemma {:induction false} DeliveredIff(s: ParserState, a: Arrival, b: Arrival, timeout: int)
    requires Valid(s) && a.bytes != [] && b.bytes != [] && CleanStart(s, a.bytes, timeout)
    requires Arrives(a, timeout) && Arrives(b, timeout)
    ensures FeedAll(s, a.bytes + b.bytes, timeout).1 == [a.msg.Delivered(), b.msg.Delivered()]
       <==> (!a.Padded() || IdleBefore(a, b, timeout))
  {
    hide FeedAll, FeedOne;
    OnePacket(s, a, timeout);
    var s1 := FeedAll(s, a.bytes, timeout).0;
    FeedAllConcat(s, a.bytes, b.bytes, timeout);
    var events := FeedAll(s1, b.bytes, timeout).1;
    if !a.Padded() || IdleBefore(a, b, timeout) {
      OnePacket(s1, b, timeout);
    } else {
      NextPacketLost(s1, b, timeout);
      assert b.msg.Delivered() !in events;
      assert ([a.msg.Delivered()] + events)[1..] == events;
    }
  }
}
