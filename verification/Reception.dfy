/**
 * One-byte packets under any timing at all, pauses inside packets included: exactly which
 * are received, and that nothing else ever is.
 */
module Reception {
  import opened Bytes
  import opened Protocol
  import opened StreamParsing
  import opened Segmentation
  import opened Framing
  import opened NotifyStream
  import opened Subsequences

  // A one-byte packet is 24 bytes, a 17-byte frame and 7 bytes of padding: packet i starts at byte 24 * i.

  const FRAME: nat := 17

  predicate OneByteEach(msgs: seq<Message>) {
    forall i :: 0 <= i < |msgs| ==> |msgs[i].payload| == 1
  }

  /** The concatenated packets of a list of messages. */
  function Packets(msgs: seq<Message>): (b: seq<byte>)
    requires OneByteEach(msgs)
  {
    if msgs == [] then [] else Packets(msgs[..|msgs| - 1]) + BuildPacket(msgs[|msgs| - 1])
  }

  /** The bytes on the wire are these packets, at whatever times. */
  predicate OnWire(bytes: seq<TimedByte>, msgs: seq<Message>) {
    OneByteEach(msgs) && Values(bytes) == Packets(msgs)
  }

  lemma {:induction false} WireLength(bytes: seq<TimedByte>, msgs: seq<Message>)
    requires OnWire(bytes, msgs)
    ensures |bytes| == 24 * |msgs|
  {
    PacketsLength(msgs);
  }

  lemma {:induction false} PacketsLength(msgs: seq<Message>)
    requires OneByteEach(msgs)
    ensures |Packets(msgs)| == 24 * |msgs|
    ensures forall i :: 0 <= i < |msgs| ==> |BuildPacket(msgs[i])| == 24
    decreases |msgs|
  {
    if msgs != [] {
      var n := |msgs| - 1;
      NotificationBytes(msgs[n]);
      hide BuildPacket;
      PacketsLength(msgs[..n]);
      assert forall i :: 0 <= i < n ==> msgs[..n][i] == msgs[i];
    }
  }

  /** Byte `o` of packet `i` on the stream. */
  lemma {:induction false} PacketByte(msgs: seq<Message>, i: nat, o: nat)
    requires OneByteEach(msgs) && i < |msgs| && o < 24
    ensures 24 * i + o < |Packets(msgs)| && |BuildPacket(msgs[i])| == 24
    ensures Packets(msgs)[24 * i + o] == BuildPacket(msgs[i])[o]
    decreases |msgs|
  {
    var n := |msgs| - 1;
    PacketsLength(msgs);
    PacketsLength(msgs[..n]);
    hide BuildPacket;
    if i < n {
      PacketByte(msgs[..n], i, o);
    }
  }

  lemma {:induction false} PacketAt(msgs: seq<Message>, i: nat)
    requires OneByteEach(msgs) && i < |msgs|
    ensures 24 * i + 24 <= |Packets(msgs)|
    ensures Packets(msgs)[24 * i..24 * i + 24] == BuildPacket(msgs[i])
  {
    PacketsLength(msgs);
    hide BuildPacket, Packets;
    forall o | 0 <= o < 24 ensures Packets(msgs)[24 * i..24 * i + 24][o] == BuildPacket(msgs[i])[o] {
      PacketByte(msgs, i, o);
    }
  }

  // ---- which windows of the byte stream can be an event ----

  /** The service id's two bytes inside a packet: at its start, or in an event id or session that looks like them. */
  lemma ServiceInside(m: Message, o: nat)
    requires |m.payload| == 1 && o < 24
    ensures var p := BuildPacket(m);
            |p| == 24 && (p[o] == 0x12 && (o + 1 < 24 ==> p[o + 1] == 0x34) ==> o == 0 || o == 2 || o == 10)
  {
    NotificationBytes(m);
  }

  /** There the four bytes that would be the length field are too large, except at the packet's start. */
  lemma LengthInside(m: Message)
    requires |m.payload| == 1
    ensures var p := BuildPacket(m);
            |p| == 24 && Be32(p[4..8]) == 9 && Be32(p[6..10]) > 32 && Be32(p[14..18]) > 32
  {
    NotificationBytes(m);
    var p := BuildPacket(m);
    assert p[4..8] == [0, 0, 0, 9] && p[6..10] == [0, 9, 0, 1] && p[14..18] == [2, 0, m.payload[0], 0];
  }

  lemma HighLow(w: seq<byte>)
    requires |w| >= 2 && Be16(w[0..2]) == SERVICE_ID
    ensures w[0] == 0x12 && w[1] == 0x34
  {
    assert w[0..2][0] == w[0] && w[0..2][1] == w[1];
  }

  /** The first bytes of a window that starts inside packet `i` are that packet's. */
  lemma {:induction false} InsidePacket(msgs: seq<Message>, i: nat, o: nat, w: seq<byte>)
    requires OneByteEach(msgs) && i < |msgs| && o < 24 && |w| >= HEADER_SIZE
    requires 24 * i + o + |w| <= |Packets(msgs)| && w == Packets(msgs)[24 * i + o..24 * i + o + |w|]
    ensures var p := BuildPacket(msgs[i]);
            && |p| == 24 && w[0] == p[o] && (o + 1 < 24 ==> w[1] == p[o + 1])
            && (o + 8 <= 24 ==> w[4..8] == p[o + 4..o + 8])
  {
    hide Packets, BuildPacket;
    PacketByte(msgs, i, o);
    if o + 1 < 24 {
      PacketByte(msgs, i, o + 1);
    }
    if o + 8 <= 24 {
      forall k | 4 <= k < 8 ensures w[k] == BuildPacket(msgs[i])[o + k] {
        PacketByte(msgs, i, o + k);
      }
    }
  }

  /** A window of the stream with the service id and a legal length starts at a packet and has its frame's size. */
  lemma {:induction false} OnlyAligned(msgs: seq<Message>, i: nat, o: nat, w: seq<byte>)
    requires OneByteEach(msgs) && i < |msgs| && o < 24 && |w| >= HEADER_SIZE
    requires 24 * i + o + |w| <= |Packets(msgs)| && w == Packets(msgs)[24 * i + o..24 * i + o + |w|]
    requires Be16(w[0..2]) == SERVICE_ID && LengthOk(w)
    ensures o == 0 && Total(w) == FRAME
  {
    HighLow(w);
    hide Packets, BuildPacket, Be16, Be32;
    InsidePacket(msgs, i, o, w);
    ServiceInside(msgs[i], o);
    LengthInside(msgs[i]);
  }

  // ---- what any parser state says about the bytes before it ----

  /** State and events after the first `n` bytes. */
  function StateAt(bytes: seq<TimedByte>, n: nat, timeout: int): ParserState
    requires n <= |bytes|
  {
    FeedAll(INITIAL, bytes[..n], timeout).0
  }

  function EventsAt(bytes: seq<TimedByte>, n: nat, timeout: int): seq<Event>
    requires n <= |bytes|
  {
    FeedAll(INITIAL, bytes[..n], timeout).1
  }

  /** The event of byte `n`, if any. */
  function EventOf(bytes: seq<TimedByte>, n: nat, timeout: int): Option<Event>
    requires n < |bytes|
  {
    FeedOne(StateAt(bytes, n, timeout), bytes[n], timeout).1
  }

  lemma {:induction false} OneMoreByte(bytes: seq<TimedByte>, n: nat, timeout: int)
    requires n < |bytes|
    ensures StateAt(bytes, n + 1, timeout) == FeedOne(StateAt(bytes, n, timeout), bytes[n], timeout).0
    ensures EventsAt(bytes, n + 1, timeout) == EventsAt(bytes, n, timeout) + EventOf(bytes, n, timeout).ToSeq()
    ensures Valid(StateAt(bytes, n, timeout))
  {
    hide FeedAll, FeedOne;
    assert bytes[..n + 1][..n] == bytes[..n];
    FeedAllLast(INITIAL, bytes[..n + 1], timeout);
    ReachableValid(INITIAL, bytes[..n], timeout);
  }

  /** No over-long pause between the bytes from `lo` up to `hi`. */
  predicate NoPause(bytes: seq<TimedByte>, lo: nat, hi: nat, timeout: int)
    requires hi <= |bytes|
  {
    forall k :: lo < k < hi ==> bytes[k].now - bytes[k - 1].tick <= timeout
  }

  /** Byte `n` meets an empty buffer, or one that is stale by then. */
  predicate Begins(bytes: seq<TimedByte>, n: nat, timeout: int)
    requires n < |bytes|
  {
    var s := StateAt(bytes, n, timeout);
    s.buf == [] || Stale(s, bytes[n].now, timeout)
  }

  /** What is held after `n` bytes are the last ones: a run without over-long pauses, from a clean start. */
  predicate HoldsWindow(bytes: seq<TimedByte>, n: nat, timeout: int)
    requires n <= |bytes|
  {
    var s := StateAt(bytes, n, timeout);
    var start := n - |s.buf|;
    && start >= 0 && s.buf == Values(bytes)[start..n]
    && (s.buf != [] ==>
        s.lastTick == Some(bytes[n - 1].tick) && NoPause(bytes, start, n, timeout) && Begins(bytes, start, timeout))
  }

  /** The buffer a byte is appended to, where its run began, and what comes of it. */
  lemma {:induction false} Appends(bytes: seq<TimedByte>, n: nat, timeout: int) returns (start: nat)
    requires n < |bytes| && HoldsWindow(bytes, n, timeout)
    ensures start <= n && NoPause(bytes, start, n + 1, timeout) && Begins(bytes, start, timeout)
    ensures Valid(StateAt(bytes, n, timeout)) && Incomplete(Values(bytes)[start..n])
    ensures FeedOne(StateAt(bytes, n, timeout), bytes[n], timeout).1 == Push(Values(bytes)[start..n], bytes[n].value).1
    ensures var buf := Push(Values(bytes)[start..n], bytes[n].value).0;
            FeedOne(StateAt(bytes, n, timeout), bytes[n], timeout).0 == ParserState(buf, if buf == [] then None else Some(bytes[n].tick))
  {
    hide StateAt, Push, Begins;
    OneMoreByte(bytes, n, timeout);
    var s := StateAt(bytes, n, timeout);
    if s.buf == [] || Stale(s, bytes[n].now, timeout) {
      start := n;
      assert Begins(bytes, n, timeout) by { BeginsHere(bytes, n, timeout); }
      assert Values(bytes)[n..n] == [];
    } else {
      start := n - |s.buf|;
    }
  }

  lemma BeginsHere(bytes: seq<TimedByte>, n: nat, timeout: int)
    requires n < |bytes|
    requires var s := StateAt(bytes, n, timeout); s.buf == [] || Stale(s, bytes[n].now, timeout)
    ensures Begins(bytes, n, timeout)
  {
  }

  lemma PushKeeps(buf: seq<byte>, b: byte)
    ensures Push(buf, b).0 == [] || Push(buf, b).0 == buf + [b]
  {
  }

  lemma {:induction false} WindowNext(bytes: seq<TimedByte>, n: nat, timeout: int)
    requires n < |bytes| && HoldsWindow(bytes, n, timeout)
    ensures HoldsWindow(bytes, n + 1, timeout)
  {
    hide StateAt, Push, Begins, FeedOne, NoPause, Incomplete;
    var start := Appends(bytes, n, timeout);
    OneMoreByte(bytes, n, timeout);
    var buf := Values(bytes)[start..n];
    PushKeeps(buf, bytes[n].value);
    var s := StateAt(bytes, n + 1, timeout);
    if s.buf == [] {
      assert Values(bytes)[n + 1..n + 1] == [];
    } else {
      assert s.buf == buf + [bytes[n].value] == Values(bytes)[start..n + 1];
      assert n + 1 - |s.buf| == start;
    }
  }

  lemma {:induction false} HeldWindow(bytes: seq<TimedByte>, n: nat, timeout: int)
    requires n <= |bytes|
    ensures HoldsWindow(bytes, n, timeout)
    decreases n
  {
    if n == 0 {
      assert bytes[..0] == [];
    } else {
      hide HoldsWindow;
      HeldWindow(bytes, n - 1, timeout);
      WindowNext(bytes, n - 1, timeout);
    }
  }

  /** A byte that yields an event ends a whole frame that began at a clean start and had no over-long pause. */
  lemma {:induction false} EventWindow(bytes: seq<TimedByte>, n: nat, timeout: int) returns (start: nat)
    requires n < |bytes| && EventOf(bytes, n, timeout).Some?
    ensures start <= n && Complete(Values(bytes)[start..n + 1])
    ensures EventOf(bytes, n, timeout) == ParseEvent(Values(bytes)[start..n + 1]).ToOption()
    ensures NoPause(bytes, start, n + 1, timeout) && Begins(bytes, start, timeout)
  {
    hide StateAt, Push, Begins, FeedOne, NoPause, Incomplete, Complete, ParseEvent, HoldsWindow;
    HeldWindow(bytes, n, timeout);
    start := Appends(bytes, n, timeout);
    PushEvent(Values(bytes)[start..n], bytes[n].value);
    assert Values(bytes)[start..n] + [bytes[n].value] == Values(bytes)[start..n + 1];
  }

  lemma PushEvent(buf: seq<byte>, b: byte)
    requires Incomplete(buf) && Push(buf, b).1.Some?
    ensures Complete(buf + [b]) && Push(buf, b).1 == ParseEvent(buf + [b]).ToOption()
  {
    hide ParseEvent, Be32;
    var held := buf + [b];
    if |buf| >= HEADER_SIZE {
      assert held[4..8] == buf[4..8];
    }
    assert held[..|held|] == held;
  }

  // ---- exactly which packets are received ----

  /** Packet `i` begins at a clean start, and its frame, not its padding, has no over-long pause. */
  predicate Hears(bytes: seq<TimedByte>, i: nat, timeout: int)
    requires 24 * i + 24 <= |bytes|
  {
    Begins(bytes, 24 * i, timeout) && NoPause(bytes, 24 * i, 24 * i + FRAME, timeout)
  }

  /** The packets received, out of the first `n`. */
  function Heard(bytes: seq<TimedByte>, msgs: seq<Message>, n: nat, timeout: int): seq<Event>
    requires n <= |msgs| && 24 * |msgs| <= |bytes|
  {
    if n == 0 then []
    else
      Heard(bytes, msgs, n - 1, timeout) + if Hears(bytes, n - 1, timeout) then [msgs[n - 1].Delivered()] else []
  }

  /** An event while packet `i` comes in can only be that packet's own, at its last frame byte. */
  lemma {:induction false} OnlyOwnEvent(bytes: seq<TimedByte>, msgs: seq<Message>, i: nat, j: nat, timeout: int)
    requires OnWire(bytes, msgs) && i < |msgs| && j < 24
    requires 24 * i + 24 <= |bytes| && EventOf(bytes, 24 * i + j, timeout).Some?
    ensures j == FRAME - 1 && Hears(bytes, i, timeout)
  {
    hide Packets, Complete, Begins, NoPause, EventOf;
    var start := EventWindow(bytes, 24 * i + j, timeout);
    WindowStart(msgs, start, Values(bytes)[start..24 * i + j + 1]);
    SamePacket(start, i, j);
  }

  lemma SamePacket(start: nat, i: nat, j: nat)
    requires start % 24 == 0 && start + FRAME == 24 * i + j + 1 && j < 24
    ensures start == 24 * i && j == FRAME - 1
  {
  }

  lemma {:induction false} WindowStart(msgs: seq<Message>, start: nat, w: seq<byte>)
    requires OneByteEach(msgs) && start + |w| <= |Packets(msgs)| && w == Packets(msgs)[start..start + |w|]
    requires Complete(w) && ParseEvent(w).Parsed?
    ensures start % 24 == 0 && |w| == FRAME
  {
    PacketsLength(msgs);
    hide Packets, Be16, Be32;
    var i, o := start / 24, start % 24;
    assert start == 24 * i + o;
    OnlyAligned(msgs, i, o, w);
  }

  lemma {:induction false} PacketSilent(bytes: seq<TimedByte>, msgs: seq<Message>, i: nat, j: nat, timeout: int)
    requires OnWire(bytes, msgs) && i < |msgs| && j <= 24
    requires 24 * i + 24 <= |bytes| && !Hears(bytes, i, timeout)
    ensures EventsAt(bytes, 24 * i + j, timeout) == EventsAt(bytes, 24 * i, timeout)
    decreases j
  {
    if j > 0 {
      hide EventsAt, EventOf, StateAt, OnWire, Hears;
      PacketSilent(bytes, msgs, i, j - 1, timeout);
      var n := 24 * i + (j - 1);
      OneMoreByte(bytes, n, timeout);
      if EventOf(bytes, n, timeout).Some? {
        OnlyOwnEvent(bytes, msgs, i, j - 1, timeout);
      }
    }
  }

  lemma {:induction false} PacketHeard(bytes: seq<TimedByte>, msgs: seq<Message>, i: nat, timeout: int)
    requires OnWire(bytes, msgs) && i < |msgs|
    requires 24 * i + 24 <= |bytes| && Hears(bytes, i, timeout)
    ensures EventsAt(bytes, 24 * i + 24, timeout) == EventsAt(bytes, 24 * i, timeout) + [msgs[i].Delivered()]
  {
    hide FeedAll, FeedOne, Packets, BuildPacket;
    var own := bytes[24 * i..24 * i + 24];
    var a := Arrival(msgs[i], own);
    PacketAt(msgs, i);
    ReachableValid(INITIAL, bytes[..24 * i], timeout);
    var s := FeedAll(INITIAL, bytes[..24 * i], timeout).0;
    assert Values(own) == BuildPacket(msgs[i]);
    FrameSteady(bytes, i, own[..|Frame(msgs[i])|], timeout);
    OnePacket(s, a, timeout);
    FeedAllConcat(INITIAL, bytes[..24 * i], own, timeout);
    assert bytes[..24 * i] + own == bytes[..24 * i + 24];
  }

  lemma FrameSteady(bytes: seq<TimedByte>, i: nat, frame: seq<TimedByte>, timeout: int)
    requires 24 * i + 24 <= |bytes| && frame == bytes[24 * i..24 * i + FRAME]
    requires NoPause(bytes, 24 * i, 24 * i + FRAME, timeout)
    ensures Steady(frame, timeout)
  {
    forall k | 0 < k < |frame| ensures frame[k].now - frame[k - 1].tick <= timeout {
      assert frame[k] == bytes[24 * i + k] && frame[k - 1] == bytes[24 * i + k - 1];
    }
  }

  /**
   * Exactly which one-byte packets are received, under any timing, over-long pauses inside
   * packets and padding included: those that begin at a clean start and have no over-long
   * pause in their 17 frame bytes. Nothing else is ever emitted.
   */
  lemma {:induction false} HeardExactly(bytes: seq<TimedByte>, msgs: seq<Message>, n: nat, timeout: int)
    requires OnWire(bytes, msgs) && n <= |msgs|
    ensures |bytes| == 24 * |msgs|
    ensures EventsAt(bytes, 24 * n, timeout) == Heard(bytes, msgs, n, timeout)
    decreases n
  {
    WireLength(bytes, msgs);
    hide OnWire, EventsAt, Hears;
    if n > 0 {
      HeardExactly(bytes, msgs, n - 1, timeout);
      HeardNext(bytes, msgs, n - 1, timeout);
    } else {
      NoneAtStart(bytes, timeout);
    }
  }

  lemma {:induction false} NoneAtStart(bytes: seq<TimedByte>, timeout: int)
    ensures EventsAt(bytes, 0, timeout) == []
  {
    assert bytes[..0] == [];
  }

  lemma {:induction false} HeardNext(bytes: seq<TimedByte>, msgs: seq<Message>, i: nat, timeout: int)
    requires OnWire(bytes, msgs) && i < |msgs| && 24 * i + 24 <= |bytes|
    ensures EventsAt(bytes, 24 * i + 24, timeout)
         == EventsAt(bytes, 24 * i, timeout) + if Hears(bytes, i, timeout) then [msgs[i].Delivered()] else []
  {
    hide OnWire, EventsAt, Hears;
    if Hears(bytes, i, timeout) {
      PacketHeard(bytes, msgs, i, timeout);
    } else {
      PacketSilent(bytes, msgs, i, 24, timeout);
      assert EventsAt(bytes, 24 * i, timeout) + [] == EventsAt(bytes, 24 * i, timeout);
    }
  }

  function Deliveries(msgs: seq<Message>): seq<Event> {
    seq(|msgs|, i requires 0 <= i < |msgs| => msgs[i].Delivered())
  }

  lemma {:induction false} DeliveriesNext(msgs: seq<Message>, n: nat)
    requires n < |msgs|
    ensures Deliveries(msgs[..n + 1]) == Deliveries(msgs[..n]) + [msgs[n].Delivered()]
  {
  }

  lemma {:induction false} HeardPlus(bytes: seq<TimedByte>, msgs: seq<Message>, n: nat, timeout: int)
    requires n < |msgs| && 24 * |msgs| <= |bytes|
    ensures Heard(bytes, msgs, n + 1, timeout)
         == if Hears(bytes, n, timeout) then Heard(bytes, msgs, n, timeout) + [msgs[n].Delivered()]
            else Heard(bytes, msgs, n, timeout)
  {
    hide Hears;
    assert Heard(bytes, msgs, n, timeout) + [] == Heard(bytes, msgs, n, timeout);
  }

  /** None invented, duplicated or reordered: the events are a subsequence of what was sent. */
  lemma {:induction false} HeardPicks(bytes: seq<TimedByte>, msgs: seq<Message>, n: nat, timeout: int) returns (at: seq<nat>)
    requires n <= |msgs| && 24 * |msgs| <= |bytes|
    ensures Picks(at, Heard(bytes, msgs, n, timeout), Deliveries(msgs[..n]))
    decreases n
  {
    if n == 0 {
      at := [];
    } else {
      hide Picks, Hears, Heard, Deliveries;
      var e, before, sent := msgs[n - 1].Delivered(), Heard(bytes, msgs, n - 1, timeout), Deliveries(msgs[..n - 1]);
      at := HeardPicks(bytes, msgs, n - 1, timeout);
      DeliveriesNext(msgs, n - 1);
      HeardPlus(bytes, msgs, n - 1, timeout);
      if Hears(bytes, n - 1, timeout) {
        PicksNext(at, before, sent, e);
        at := at + [|sent|];
      } else {
        PicksMore(at, before, sent, [e]);
      }
    }
  }

  /** The same of the whole stream, in terms of the parser alone. */
  lemma {:induction false} NoneInvented(bytes: seq<TimedByte>, msgs: seq<Message>, timeout: int) returns (at: seq<nat>)
    requires OnWire(bytes, msgs)
    ensures Picks(at, FeedAll(INITIAL, bytes, timeout).1, Deliveries(msgs))
  {
    hide FeedAll, Packets, Heard;
    HeardExactly(bytes, msgs, |msgs|, timeout);
    assert bytes[..24 * |msgs|] == bytes && msgs[..|msgs|] == msgs;
    at := HeardPicks(bytes, msgs, |msgs|, timeout);
  }

  // ---- packets well apart ----

  /** An over-long silence before every packet but the first, and none inside a frame. Padding may pause. */
  predicate WellApart(bytes: seq<TimedByte>, n: nat, timeout: int)
    requires 24 * n <= |bytes|
  {
    && (forall i :: 0 < i < n ==> bytes[24 * i].now - bytes[24 * i - 1].tick > timeout)
    && (forall i :: 0 <= i < n ==> NoPause(bytes, 24 * i, 24 * i + FRAME, timeout))
  }

  lemma {:induction false} ApartHears(bytes: seq<TimedByte>, i: nat, n: nat, timeout: int)
    requires 24 * n <= |bytes| && WellApart(bytes, n, timeout) && i < n
    ensures Hears(bytes, i, timeout)
  {
    hide NoPause;
    HeldWindow(bytes, 24 * i, timeout);
    if i == 0 {
      assert bytes[..0] == [];
    }
  }

  lemma {:induction false} AllHeard(bytes: seq<TimedByte>, msgs: seq<Message>, n: nat, timeout: int)
    requires n <= |msgs| && 24 * |msgs| <= |bytes| && WellApart(bytes, |msgs|, timeout)
    ensures Heard(bytes, msgs, n, timeout) == Deliveries(msgs[..n])
    decreases n
  {
    hide WellApart, Hears;
    if n > 0 {
      hide Heard, Deliveries;
      AllHeard(bytes, msgs, n - 1, timeout);
      ApartHears(bytes, n - 1, |msgs|, timeout);
      DeliveriesNext(msgs, n - 1);
      HeardPlus(bytes, msgs, n - 1, timeout);
    }
  }

  // ---- when the events come ----

  /** The arrival ticks of the bytes that yield an event, out of the first `n`. */
  function EventTicks(bytes: seq<TimedByte>, n: nat, timeout: int): seq<int>
    requires n <= |bytes|
  {
    if n == 0 then []
    else EventTicks(bytes, n - 1, timeout) + if EventOf(bytes, n - 1, timeout).Some? then [bytes[n - 1].tick] else []
  }

  /** The ticks of the last frame byte of each of the first `n` packets. */
  function FrameEnds(bytes: seq<TimedByte>, n: nat): (t: seq<int>)
    requires 24 * n <= |bytes|
    ensures |t| == n
  {
    seq(n, i requires 0 <= i < n => bytes[24 * i + FRAME - 1].tick)
  }

  lemma {:induction false} OneMoreTick(bytes: seq<TimedByte>, n: nat, timeout: int)
    requires n < |bytes|
    ensures var hit := EventOf(bytes, n, timeout).Some?;
            && EventTicks(bytes, n + 1, timeout) == EventTicks(bytes, n, timeout) + (if hit then [bytes[n].tick] else [])
            && |EventsAt(bytes, n + 1, timeout)| == |EventsAt(bytes, n, timeout)| + (if hit then 1 else 0)
  {
    OneMoreByte(bytes, n, timeout);
  }

  lemma {:induction false} QuietByte(bytes: seq<TimedByte>, msgs: seq<Message>, i: nat, j: nat, timeout: int)
    requires OnWire(bytes, msgs) && i < |msgs| && j < 24 && j != 16 && 24 * i + 24 <= |bytes|
    ensures EventTicks(bytes, 24 * i + j + 1, timeout) == EventTicks(bytes, 24 * i + j, timeout)
    ensures |EventsAt(bytes, 24 * i + j + 1, timeout)| == |EventsAt(bytes, 24 * i + j, timeout)|
  {
    hide EventOf, EventsAt, EventTicks, OnWire, Hears;
    var n := 24 * i + j;
    if EventOf(bytes, n, timeout).Some? {
      OnlyOwnEvent(bytes, msgs, i, j, timeout);
    }
    OneMoreTick(bytes, n, timeout);
    assert EventTicks(bytes, n, timeout) + [] == EventTicks(bytes, n, timeout);
  }

  /** Inside one packet only its last frame byte can yield an event. */
  lemma {:induction false} Quiet(bytes: seq<TimedByte>, msgs: seq<Message>, i: nat, lo: nat, hi: nat, timeout: int)
    requires OnWire(bytes, msgs) && i < |msgs| && lo <= hi <= 24 && 24 * i + 24 <= |bytes|
    requires hi < FRAME || FRAME <= lo
    ensures EventTicks(bytes, 24 * i + hi, timeout) == EventTicks(bytes, 24 * i + lo, timeout)
    ensures |EventsAt(bytes, 24 * i + hi, timeout)| == |EventsAt(bytes, 24 * i + lo, timeout)|
    decreases hi
  {
    hide EventsAt, EventTicks, OnWire;
    if lo < hi {
      Quiet(bytes, msgs, i, lo, hi - 1, timeout);
      QuietByte(bytes, msgs, i, hi - 1, timeout);
      assert 24 * i + (hi - 1) + 1 == 24 * i + hi;
    }
  }

  lemma {:induction false} TicksInPacket(bytes: seq<TimedByte>, msgs: seq<Message>, i: nat, timeout: int)
    requires OnWire(bytes, msgs) && i < |msgs| && 24 * i + 24 <= |bytes|
    requires |EventsAt(bytes, 24 * i + 24, timeout)| == |EventsAt(bytes, 24 * i, timeout)| + 1
    ensures EventTicks(bytes, 24 * i + 24, timeout) == EventTicks(bytes, 24 * i, timeout) + [bytes[24 * i + 16].tick]
  {
    hide EventOf, EventsAt, EventTicks, OnWire;
    Quiet(bytes, msgs, i, 0, 16, timeout);
    OneMoreTick(bytes, 24 * i + 16, timeout);
    Quiet(bytes, msgs, i, 17, 24, timeout);
  }

  lemma {:induction false} FrameEndsNext(bytes: seq<TimedByte>, n: nat)
    requires 24 * n + 24 <= |bytes|
    ensures FrameEnds(bytes, n + 1) == FrameEnds(bytes, n) + [bytes[24 * n + 16].tick]
  {
  }

  /** Packets well apart yield their events at the last byte of each frame. */
  lemma {:induction false} ApartTicks(bytes: seq<TimedByte>, msgs: seq<Message>, n: nat, timeout: int)
    requires OnWire(bytes, msgs) && n <= |msgs| && 24 * |msgs| <= |bytes| && WellApart(bytes, |msgs|, timeout)
    ensures EventTicks(bytes, 24 * n, timeout) == FrameEnds(bytes, n)
    decreases n
  {
    hide OnWire, WellApart, EventOf;
    if n > 0 {
      hide EventTicks, FrameEnds;
      ApartTicks(bytes, msgs, n - 1, timeout);
      TicksNext(bytes, msgs, n - 1, timeout);
      FrameEndsNext(bytes, n - 1);
    }
  }

  lemma {:induction false} TicksNext(bytes: seq<TimedByte>, msgs: seq<Message>, i: nat, timeout: int)
    requires OnWire(bytes, msgs) && i < |msgs| && 24 * |msgs| <= |bytes| && WellApart(bytes, |msgs|, timeout)
    ensures EventTicks(bytes, 24 * i + 24, timeout) == EventTicks(bytes, 24 * i, timeout) + [bytes[24 * i + 16].tick]
  {
    hide EventOf, EventsAt, OnWire, Hears, WellApart, EventTicks;
    ApartHears(bytes, i, |msgs|, timeout);
    PacketHeard(bytes, msgs, i, timeout);
    TicksInPacket(bytes, msgs, i, timeout);
  }

  // ---- the first packet and the rest ----

  lemma {:induction false} PacketsBack(msgs: seq<Message>)
    requires OneByteEach(msgs) && msgs != []
    ensures Packets(msgs) == Packets(msgs[..|msgs| - 1]) + BuildPacket(msgs[|msgs| - 1])
  {
  }

  lemma {:induction false} PacketsFront(msgs: seq<Message>)
    requires OneByteEach(msgs) && msgs != []
    ensures Packets(msgs) == BuildPacket(msgs[0]) + Packets(msgs[1..])
    decreases |msgs|
  {
    hide BuildPacket;
    var n := |msgs| - 1;
    if n == 0 {
      assert msgs[..0] == [] && msgs[1..] == [];
    } else {
      PacketsBack(msgs);
      PacketsBack(msgs[1..]);
      hide Packets;
      PacketsFront(msgs[..n]);
      assert msgs[..n][1..] == msgs[1..][..n - 1];
    }
  }
}
