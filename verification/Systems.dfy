/**
 * The parts together: what the MCU receives of the packets on the line, how long the
 * watchdog lets it run on them, and which camera reports reach the CAN bus.
 */
module Systems {
  import opened Bytes
  import opened Protocol
  import opened StreamParsing
  import opened Segmentation
  import opened Framing
  import opened NotifyStream
  import opened Reception
  import opened Subsequences
  import opened UartReceiving
  import Drowsiness
  import Mailbox
  import Safety

  // ---- from the line to the MCU's events ----

  function LineBytes(line: seq<LineItem>): seq<byte> {
    if line == [] then []
    else
      var n := |line| - 1;
      LineBytes(line[..n]) + if line[n].Rx? then [line[n].value] else []
  }

  /** One item more on the line. */
  lemma {:induction false} LineNext(line: seq<LineItem>)
    requires line != []
    ensures var n, bytes, before := |line| - 1, Noticed(line), Noticed(line[..|line| - 1]);
            && (line[n].Poll? ==> bytes == before && LineBytes(line) == LineBytes(line[..n]))
            && (line[n].Rx? ==>
                && |bytes| == |before| + 1 && bytes[..|before|] == before
                && LineBytes(line) == LineBytes(line[..n]) + [line[n].value]
                && bytes[|before|].value == line[n].value && bytes[|before|].tick == line[n].tick
                && (before != [] && !IdleSince(line[..n]).1 ==> bytes[|before|].now == before[|before| - 1].tick))
  {
    hide Observes;
    assert LineBytes(line[..|line| - 1]) + [] == LineBytes(line[..|line| - 1]);
  }

  lemma {:induction false} NoticedBytes(line: seq<LineItem>)
    ensures Values(Noticed(line)) == LineBytes(line)
    decreases |line|
  {
    if line != [] {
      LineNext(line);
      hide Noticed, LineBytes;
      NoticedBytes(line[..|line| - 1]);
      if line[|line| - 1].Rx? {
        var bytes, before := Noticed(line), Noticed(line[..|line| - 1]);
        assert Values(bytes) == Values(before) + [bytes[|before|].value];
      }
    }
  }

  /**
   * Exactly which one-byte packets the MCU receives, on every line whatsoever: those that
   * meet an empty buffer or a noticed silence at their first byte, and inside whose 17 frame
   * bytes no silence was noticed. Nothing else is ever reported.
   */
  lemma {:induction false} McuHears(c: McuState, line: seq<LineItem>, msgs: seq<Message>)
    requires ValidMcu(c) && c.len == 0 && OneByteEach(msgs) && LineBytes(line) == Packets(msgs)
    ensures OnWire(Noticed(line), msgs) && |Noticed(line)| == 24 * |msgs|
    ensures AllMatch(RunLine(c, line).1, Heard(Noticed(line), msgs, |msgs|, 50))
  {
    hide FeedAll, RunLine, Simulates, AllMatch, Observes, Heard, Packets, LineBytes;
    var bytes := Noticed(line);
    NoticedBytes(line);
    Simulation(c, line, bytes);
    HeardExactly(bytes, msgs, |msgs|, 50);
    assert bytes[..|bytes|] == bytes;
  }

  /**
   * Where no pause inside a packet is noticed either, the timing alone decides: received are
   * the packets before whose first byte a silence was noticed, and the one the MCU starts with.
   */
  lemma {:induction false} McuReceivesExactly(c: McuState, line: seq<LineItem>, stream: seq<Arrival>)
    requires ValidMcu(c) && c.len == 0 && Observes(Wire(stream), line)
    requires forall a <- stream :: Notification(a, 50)
    ensures forall a <- stream :: a.bytes != []
    ensures AllMatch(RunLine(c, line).1, AfterIdle(None, stream, 50))
  {
    hide FeedAll, RunLine, Simulates, AllMatch, Observes, Notification;
    Simulation(c, line, Wire(stream));
    ReceivedExactly(INITIAL, stream, 50);
  }

  // ---- no idle gaps ----

  /** No silence between two reads lasts more than 50 ms. */
  predicate NoIdleGap(line: seq<LineItem>) {
    forall i :: 0 <= i < |line| && line[i].Rx? && IdleSince(line[..i]).0.Some?
                ==> line[i].tick - IdleSince(line[..i]).0.value <= 50
  }

  lemma SteadyNext(bytes: seq<TimedByte>, b: TimedByte, timeout: int)
    requires Steady(bytes, timeout)
    requires bytes != [] ==> b.now - bytes[|bytes| - 1].tick <= timeout
    ensures Steady(bytes + [b], timeout)
  {
  }

  lemma {:induction false} ShorterLine(line: seq<LineItem>)
    requires line != [] && Monotone(line) && NoIdleGap(line)
    ensures Monotone(line[..|line| - 1]) && NoIdleGap(line[..|line| - 1])
    ensures |line| > 1 && line[|line| - 1].Rx? && IdleSince(line[..|line| - 1]).0.Some? ==>
              && line[|line| - 2].Time() <= line[|line| - 1].tick
              && line[|line| - 1].tick - IdleSince(line[..|line| - 1]).0.value <= 50
  {
    hide IdleSince;
    var n := |line| - 1;
    assert forall i :: 0 <= i < n ==> line[..n][..i] == line[..i];
  }

  /** The last read is the second reading of the last noticed byte. */
  lemma {:induction false} LastNoticed(line: seq<LineItem>)
    ensures IdleSince(line).0 == if Noticed(line) == [] then None else Some(Noticed(line)[|Noticed(line)| - 1].tick)
    decreases |line|
  {
    if line != [] {
      LastNoticed(line[..|line| - 1]);
      LineNext(line);
    }
  }

  lemma {:induction false} Unbroken(line: seq<LineItem>)
    requires Monotone(line) && NoIdleGap(line)
    ensures Steady(Noticed(line), 50)
    decreases |line|
  {
    if line != [] {
      hide Steady, Observes, Noticed, LineBytes, IdleSince, Monotone, NoIdleGap;
      var n := |line| - 1;
      ShorterLine(line);
      LineNext(line);
      Unbroken(line[..n]);
      if line[n].Rx? {
        LastNoticed(line[..n]);
        if n > 0 {
          IdleTimely(line[..n]);
        } else {
          NothingYet(line[..n]);
        }
        var bytes, before := Noticed(line), Noticed(line[..n]);
        assert bytes == before + [bytes[|before|]];
        SteadyNext(before, bytes[|before|], 50);
      }
    } else {
      NothingYet(line);
    }
  }

  lemma {:induction false} NothingYet(line: seq<LineItem>)
    requires line == []
    ensures Noticed(line) == [] && IdleSince(line) == (None, false)
  {
  }

  /** A stream that carries these messages one by one, with no idle gap in or between them. */
  ghost predicate Carries(stream: seq<Arrival>, msgs: seq<Message>, timeout: int) {
    && |stream| == |msgs|
    && (forall i :: 0 <= i < |stream| ==> stream[i].msg == msgs[i] && Notification(stream[i], timeout) && stream[i].bytes != [])
    && (forall i :: 0 < i < |stream| ==> !IdleBefore(stream[i - 1], stream[i], timeout))
  }

  lemma {:induction false} CarriesOneMore(a: Arrival, stream: seq<Arrival>, msgs: seq<Message>, timeout: int)
    requires Carries(stream, msgs, timeout) && Notification(a, timeout) && a.bytes != []
    requires stream != [] ==> stream[0].bytes[0].now - a.LastTick() <= timeout
    ensures Carries([a] + stream, [a.msg] + msgs, timeout) && Wire([a] + stream) == a.bytes + Wire(stream)
  {
    hide Notification;
    var longer := [a] + stream;
    assert longer[1..] == stream;
    forall i | 0 < i < |longer| ensures !IdleBefore(longer[i - 1], longer[i], timeout) {
      assert longer[i] == stream[i - 1];
    }
  }

  lemma {:induction false} FirstPacket(bytes: seq<TimedByte>, msgs: seq<Message>, timeout: int)
    requires msgs != [] && OnWire(bytes, msgs) && Steady(bytes, timeout)
    ensures |bytes| >= 24 && Notification(Arrival(msgs[0], bytes[..24]), timeout)
    ensures OnWire(bytes[24..], msgs[1..]) && Steady(bytes[24..], timeout)
    ensures |bytes| > 24 ==> bytes[24].now - bytes[24 - 1].tick <= timeout
  {
    WireLength(bytes, msgs);
    PacketsLength(msgs);
    PacketsFront(msgs);
    hide BuildPacket, Packets;
    SteadyParts(bytes, 24, timeout);
    assert Values(bytes)[..24] == BuildPacket(msgs[0]);
    assert Values(bytes)[24..] == Packets(msgs[1..]);
  }

  lemma {:induction false} WireHead(stream: seq<Arrival>)
    requires stream != [] && stream[0].bytes != []
    ensures Wire(stream) != [] && Wire(stream)[0] == stream[0].bytes[0]
  {
  }

  lemma {:induction false} CutStream(bytes: seq<TimedByte>, msgs: seq<Message>, timeout: int)
    returns (stream: seq<Arrival>)
    requires OnWire(bytes, msgs) && Steady(bytes, timeout)
    ensures Wire(stream) == bytes && Carries(stream, msgs, timeout)
    decreases |msgs|
  {
    stream := [];
    if msgs != [] {
      FirstPacket(bytes, msgs, timeout);
      hide OnWire, Notification, Steady;
      var a := Arrival(msgs[0], bytes[..24]);
      var later := CutStream(bytes[24..], msgs[1..], timeout);
      if later != [] {
        WireHead(later);
      }
      hide Wire;
      CarriesOneMore(a, later, msgs[1..], timeout);
      stream := [a] + later;
      assert bytes == bytes[..24] + bytes[24..] && msgs == [msgs[0]] + msgs[1..];
    } else {
      WireLength(bytes, msgs);
    }
  }

  /**
   * One-byte packets written without idle gaps, however many: the MCU receives the first
   * and no other.
   */
  lemma {:induction false} OnlyTheFirst(c: McuState, line: seq<LineItem>, msgs: seq<Message>)
    requires ValidMcu(c) && c.len == 0 && Monotone(line) && NoIdleGap(line)
    requires msgs != [] && OneByteEach(msgs) && LineBytes(line) == Packets(msgs)
    ensures RunLine(c, line).1 == [McuEvent(msgs[0].eventId, msgs[0].payload[0])]
  {
    hide RunLine, Observes, Noticed, LineBytes, Packets, Monotone, NoIdleGap, Wire, Steady, ValidMcu, Notification;
    Unbroken(line);
    NoticedBytes(line);
    var stream := CutStream(Noticed(line), msgs, 50);
    forall a | a in stream ensures Notification(a, 50) && a.bytes != [] {
    }
    McuReceivesExactly(c, line, stream);
    assert forall i :: 0 < i < |stream[1..]| ==> !IdleBefore(stream[1..][i - 1], stream[1..][i], 50);
    NoneAfterIdle(stream[0], stream[1..], 50);
    assert AfterIdle(None, stream, 50) == [msgs[0].Delivered()];
  }

  /**
   * The heartbeat over UART: with silences of at most 50 ms between the packets, which is
   * the heartbeat's own period, the one event received buys at most two watchdog times.
   * Whatever else the MCU does, and however long the heartbeats go on, it is reset within
   * 300 ms of its boot.
   */
  lemma {:induction false} HeartbeatsStarve(
      c: McuState, line: seq<LineItem>, msgs: seq<Message>, setup: Safety.Setup, stall: nat, run: seq<Safety.Event>)
    requires ValidMcu(c) && c.len == 0 && Monotone(line) && NoIdleGap(line)
    requires msgs != [] && OneByteEach(msgs) && LineBytes(line) == Packets(msgs)
    requires setup.ready && setup.period == Safety.HEARTBEAT_TIMEOUT_MS && setup.watchdog == Safety.WDT_TIMEOUT_MS
    requires stall < 50
    requires Safety.IsRun(setup, stall, run) && Safety.Count(run, Safety.Feed) <= |RunLine(c, line).1|
    ensures Safety.Time(run) <= 300
  {
    hide RunLine, LineBytes, Packets, Monotone, NoIdleGap, ValidMcu, Safety.Time, Safety.Count, Safety.IsRun, Safety.LastFeed;
    OnlyTheFirst(c, line, msgs);
    Safety.TimePerKick(setup, stall, run);
    assert Safety.Count(run, Safety.Feed) + 1 <= 2;
  }

  // ---- packets after noticed silences ----

  /** With a noticed silence before every packet and none inside a frame, all are received, in order. */
  lemma {:induction false} AllReceived(c: McuState, line: seq<LineItem>, msgs: seq<Message>)
    requires ValidMcu(c) && c.len == 0 && OneByteEach(msgs) && LineBytes(line) == Packets(msgs)
    requires 24 * |msgs| <= |Noticed(line)| && WellApart(Noticed(line), |msgs|, 50)
    ensures AllMatch(RunLine(c, line).1, Deliveries(msgs))
  {
    hide RunLine, Noticed, LineBytes, Packets, WellApart, Heard, AllMatch;
    McuHears(c, line, msgs);
    AllHeard(Noticed(line), msgs, |msgs|, 50);
    assert msgs[..|msgs|] == msgs;
  }

  /** The read times at which the MCU reports an event, and its SOME/IP thread kicks. */
  function EventTimes(c: McuState, line: seq<LineItem>): seq<int>
    requires |c.mem| == RX_BUF_SIZE
  {
    if line == [] then []
    else
      var n := |line| - 1;
      EventTimes(c, line[..n]) + if StepItem(RunLine(c, line[..n]).0, line[n]).1.Some? then [line[n].Time()] else []
  }

  lemma {:induction false} TimesAreTicks(c: McuState, line: seq<LineItem>)
    requires ValidMcu(c) && c.len == 0
    ensures EventTimes(c, line) == EventTicks(Noticed(line), |Noticed(line)|, 50)
    decreases |line|
  {
    if line != [] {
      var n := |line| - 1;
      var bytes, before := Noticed(line), Noticed(line[..n]);
      LineNext(line);
      TimesAreTicks(c, line[..n]);
      if line[n].Rx? {
        SameVerdict(c, line);
        hide Noticed, StepItem, RunLine, EventOf;
        SameTicks(before, bytes, |before|, 50);
      } else {
        assert EventTimes(c, line[..n]) + [] == EventTimes(c, line[..n]);
      }
    }
  }

  lemma {:induction false} SameVerdict(c: McuState, line: seq<LineItem>)
    requires ValidMcu(c) && c.len == 0 && line != [] && line[|line| - 1].Rx?
    ensures var n, bytes := |line| - 1, Noticed(line);
            && bytes != []
            && (StepItem(RunLine(c, line[..n]).0, line[n]).1.Some? <==> EventOf(bytes, |bytes| - 1, 50).Some?)
  {
    LineNext(line);
    var n := |line| - 1;
    Simulation(c, line[..n], Noticed(line[..n]));
    hide RunLine, FeedAll, FeedOne, RxByte, Simulates;
    ReadSimulates(RunLine(c, line[..n]).0, line, Noticed(line));
  }

  lemma {:induction false} SameTicks(a: seq<TimedByte>, b: seq<TimedByte>, n: nat, timeout: int)
    requires a <= b && n <= |a|
    ensures EventTicks(a, n, timeout) == EventTicks(b, n, timeout)
    decreases n
  {
    if n > 0 {
      hide FeedAll, FeedOne;
      SameTicks(a, b, n - 1, timeout);
      assert a[..n - 1] == b[..n - 1];
    }
  }

  /**
   * The heartbeat over UART as it is meant to be: packets each after a noticed silence are
   * all received, each at its 17th byte; and where the SOME/IP thread kicks at just these
   * times, each less than `period - stall` after the one before, the state stays NORMAL, no
   * warning is sent, and the watchdog never resets.
   */
  lemma {:induction false} HeartbeatsKeepNormal(
      c: McuState, line: seq<LineItem>, msgs: seq<Message>, setup: Safety.Setup, stall: nat, run: seq<Safety.Event>)
    requires ValidMcu(c) && c.len == 0 && OneByteEach(msgs) && LineBytes(line) == Packets(msgs)
    requires 24 * |msgs| <= |Noticed(line)| && WellApart(Noticed(line), |msgs|, 50)
    requires 0 < setup.period && setup.period + stall <= setup.watchdog && stall < setup.period
    requires Safety.IsRun(setup, stall, run) && Safety.KickedAt(run, EventTimes(c, line))
    requires Safety.InTime(FrameEnds(Noticed(line), |msgs|), Safety.Time(run), setup.period - stall)
    ensures EventTimes(c, line) == FrameEnds(Noticed(line), |msgs|)
    ensures var s := Safety.After(setup, run); !s.m.safe && !s.expired && Safety.Count(run, Safety.Fire) == 0
  {
    hide RunLine, Noticed, LineBytes, Packets, WellApart, FrameEnds, EventTimes, Heard,
      Safety.IsRun, Safety.After, Safety.Count, Safety.InTime, Safety.KickedAt, Safety.Time, Safety.LastRearm, Safety.LastFeed,
      Safety.AlwaysFed, Safety.AlwaysRecent;
    McuHears(c, line, msgs);
    TimesAreTicks(c, line);
    ApartTicks(Noticed(line), msgs, |msgs|, 50);
    Safety.KickedInTime(setup, stall, run, EventTimes(c, line));
    Safety.FedIsAlwaysRecent(setup, stall, run);
    Safety.TimelyKicksStayNormal(setup, stall, run);
  }

  // ---- from the camera to the CAN bus ----

  /** The levels of the Notify events, as the MCU's main loop stores them. */
  function McuLevels(ms: seq<McuEvent>): seq<int> {
    if ms == [] then []
    else McuLevels(ms[..|ms| - 1]) + if ms[|ms| - 1].id == EVENT_NOTIFY then [ms[|ms| - 1].payload] else []
  }

  function LevelOf(e: Event): (l: seq<int>)
    ensures |l| <= 1
  {
    if e.id == EVENT_NOTIFY && e.payload != [] then [e.payload[0]] else []
  }

  /** The levels of the Notify events among these; heartbeats carry none. */
  function Levels(es: seq<Event>): seq<int> {
    if es == [] then [] else Levels(es[..|es| - 1]) + LevelOf(es[|es| - 1])
  }

  lemma {:induction false} LevelsMatch(ms: seq<McuEvent>, es: seq<Event>)
    requires AllMatch(ms, es) && forall i :: 0 <= i < |es| ==> es[i].payload != []
    ensures McuLevels(ms) == Levels(es)
    decreases |ms|
  {
    if ms != [] {
      var n := |ms| - 1;
      assert Matches(ms[n], es[n]);
      LevelsMatch(ms[..n], es[..n]);
    }
  }

  lemma {:induction false} HeardPayloads(bytes: seq<TimedByte>, msgs: seq<Message>, n: nat, timeout: int)
    requires n <= |msgs| && 24 * |msgs| <= |bytes| && OneByteEach(msgs)
    ensures forall i :: 0 <= i < |Heard(bytes, msgs, n, timeout)| ==> Heard(bytes, msgs, n, timeout)[i].payload != []
    decreases n
  {
    if n > 0 {
      hide Hears;
      HeardPayloads(bytes, msgs, n - 1, timeout);
    }
  }

  lemma {:induction false} LevelsNext(es: seq<Event>, e: Event)
    ensures Levels(es + [e]) == Levels(es) + LevelOf(e)
  {
    assert (es + [e])[..|es|] == es;
  }

  lemma {:induction false} NothingHeard(bytes: seq<TimedByte>, msgs: seq<Message>, timeout: int)
    requires 24 * |msgs| <= |bytes|
    ensures Picks([], Levels(Heard(bytes, msgs, 0, timeout)), Levels(Deliveries(msgs[..0])))
  {
  }

  lemma {:induction false} OneMoreLevel(before: seq<Event>, sent: seq<Event>, e: Event, heard: bool, at: seq<nat>)
    returns (r: seq<nat>)
    requires Picks(at, Levels(before), Levels(sent))
    ensures Picks(r, Levels(if heard then before + [e] else before), Levels(sent + [e]))
  {
    hide Picks, Levels, LevelOf;
    LevelsNext(before, e);
    LevelsNext(sent, e);
    if heard && LevelOf(e) != [] {
      assert LevelOf(e) == [LevelOf(e)[0]];
      PicksNext(at, Levels(before), Levels(sent), LevelOf(e)[0]);
      r := at + [|Levels(sent)|];
    } else {
      PicksMore(at, Levels(before), Levels(sent), LevelOf(e));
      assert Levels(before) + [] == Levels(before);
      r := at;
    }
  }

  /** The levels heard are a subsequence of the levels sent. */
  lemma {:induction false} LevelsPicked(bytes: seq<TimedByte>, msgs: seq<Message>, n: nat, timeout: int)
    returns (at: seq<nat>)
    requires n <= |msgs| && 24 * |msgs| <= |bytes|
    ensures Picks(at, Levels(Heard(bytes, msgs, n, timeout)), Levels(Deliveries(msgs[..n])))
    decreases n
  {
    hide Levels, Heard, Deliveries, Hears, Picks;
    if n == 0 {
      NothingHeard(bytes, msgs, timeout);
      at := [];
    } else {
      at := LevelsPicked(bytes, msgs, n - 1, timeout);
      DeliveriesNext(msgs, n - 1);
      HeardPlus(bytes, msgs, n - 1, timeout);
      at := OneMoreLevel(Heard(bytes, msgs, n - 1, timeout), Deliveries(msgs[..n - 1]), msgs[n - 1].Delivered(),
                         Hears(bytes, n - 1, timeout), at);
    }
  }

  /**
   * From the camera to the CAN bus: whatever the timing of the bytes on the line, pauses
   * inside packets included, and however the MCU's threads interleave, the drowsiness
   * frames attempted are a subsequence of the levels the camera loop reported, and so lie
   * in 80..100.
   */
  lemma {:induction false} CameraToCan(
      history: seq<bool>, msgs: seq<Message>, c: McuState, line: seq<LineItem>, run: seq<Mailbox.Event>)
    returns (at: seq<nat>)
    requires OneByteEach(msgs) && Levels(Deliveries(msgs)) == Drowsiness.Reports(history)
    requires ValidMcu(c) && c.len == 0 && LineBytes(line) == Packets(msgs)
    requires Mailbox.IsRun(run) && Mailbox.Notified(run) == McuLevels(RunLine(c, line).1)
    ensures Picks(at, Mailbox.After(run).attempts, Drowsiness.Reports(history))
    ensures forall level <- Mailbox.After(run).attempts :: 80 <= level <= 100
  {
    hide RunLine, Noticed, LineBytes, Packets, Incomplete, Levels, McuLevels, AllMatch, Heard, Deliveries, Picks, OnWire,
      Drowsiness.Reports, Mailbox.IsRun, Mailbox.After, Mailbox.Notified;
    McuHears(c, line, msgs);
    HeardPayloads(Noticed(line), msgs, |msgs|, 50);
    LevelsMatch(RunLine(c, line).1, Heard(Noticed(line), msgs, |msgs|, 50));
    var first := LevelsPicked(Noticed(line), msgs, |msgs|, 50);
    assert msgs[..|msgs|] == msgs;
    var second := Mailbox.NoneInvented(run);
    at := PicksCompose(second, Mailbox.After(run).attempts, first, Mailbox.Notified(run), Drowsiness.Reports(history));
    Drowsiness.ReportedLevels(history);
    PicksBounds(at, Mailbox.After(run).attempts, Drowsiness.Reports(history));
  }

  lemma PicksBounds(at: seq<nat>, sub: seq<int>, all: seq<int>)
    requires Picks(at, sub, all) && forall x <- all :: 80 <= x <= 100
    ensures forall x <- sub :: 80 <= x <= 100
  {
    forall x | x in sub ensures 80 <= x <= 100 {
      var i :| 0 <= i < |sub| && sub[i] == x;
      assert all[at[i]] in all;
    }
  }
}
