/** The MCU's copy of the frame reassembly (MCU/src/someip_service.cpp), and its simulation by the Python one. */
module UartReceiving {
  import opened Bytes
  import opened Protocol
  import opened StreamParsing

  const RX_BUF_SIZE: nat := 64
  const RESYNC_MS: int := 50

  /**
   * What happens on the line, in order: the idle check at the top of the outer loop reads
   * the clock, or uart_poll_in delivers a byte whose arrival time is then recorded.
   */
  datatype LineItem = Poll(now: int) | Rx(value: byte, tick: int) {
    function Time(): int {
      if Poll? then now else tick
    }
  }

  /** What one call hands to its caller: the event id and the first payload byte. */
  datatype McuEvent = McuEvent(id: u16, payload: byte)

  /** The static receive buffer, with whatever older bytes lie behind `len`, and the last arrival time. */
  datatype McuState = McuState(mem: seq<byte>, len: nat, last: int)

  function RxByte(c: McuState, value: byte, tick: int): (r: (McuState, Option<McuEvent>))
    requires |c.mem| == RX_BUF_SIZE
    ensures |r.0.mem| == RX_BUF_SIZE
  {
    if c.len >= RX_BUF_SIZE then (McuState(c.mem, 0, tick), None)
    else
      var mem, len := c.mem[c.len := value], c.len + 1;
      if len < HEADER_SIZE then (McuState(mem, len, tick), None)
      else
        var length := Be32(mem[4..8]);
        if length < 8 || length > 32 then (McuState(mem, 0, tick), None)
        else if len < HEADER_SIZE + (length - 8) then (McuState(mem, len, tick), None)
        else if Be16(mem[0..2]) == SERVICE_ID && mem[14] == 0x02 then
          (McuState(mem, 0, tick), Some(McuEvent(Be16(mem[2..4]), mem[HEADER_SIZE])))
        else (McuState(mem, 0, tick), None)
  }

  function StepItem(c: McuState, item: LineItem): (r: (McuState, Option<McuEvent>))
    requires |c.mem| == RX_BUF_SIZE
    ensures |r.0.mem| == RX_BUF_SIZE
  {
    match item
    case Poll(now) => (if c.len > 0 && now - c.last > RESYNC_MS then c.(len := 0) else c, None)
    case Rx(value, tick) => RxByte(c, value, tick)
  }

  function RunLine(c: McuState, line: seq<LineItem>): (r: (McuState, seq<McuEvent>))
    requires |c.mem| == RX_BUF_SIZE
    ensures |r.0.mem| == RX_BUF_SIZE
    decreases |line|
  {
    if line == [] then (c, [])
    else
      var n := |line| - 1;
      var (c1, events) := RunLine(c, line[..n]);
      var (c2, event) := StepItem(c1, line[n]);
      (c2, events + event.ToSeq())
  }

  /** What holds between calls: the held bytes are an incomplete frame. */
  predicate ValidMcu(c: McuState) {
    |c.mem| == RX_BUF_SIZE && c.len < RX_BUF_SIZE && Incomplete(c.mem[..c.len])
  }

  class UartReceiver {
    const rxBuf: array<byte>
    var rxLen: nat
    var lastRxTick: int

    /** All that memory safety needs; the frame invariant is ValidMcu. */
    ghost predicate InBounds()
      reads this, rxBuf
    {
      rxBuf.Length == RX_BUF_SIZE && rxLen <= RX_BUF_SIZE
    }

    ghost function State(): (c: McuState)
      reads this, rxBuf
      ensures |c.mem| == rxBuf.Length
    {
      McuState(rxBuf[..], rxLen, lastRxTick)
    }

    constructor ()
      ensures InBounds() && ValidMcu(State()) && fresh(rxBuf) && rxLen == 0 && lastRxTick == 0
    {
      rxBuf := new byte[RX_BUF_SIZE](_ => 0);
      rxLen, lastRxTick := 0, 0;
    }

    /** One byte of the inner loop. */
    method Accept(value: byte, tick: int) returns (event: Option<McuEvent>)
      requires InBounds()
      modifies this, rxBuf
      ensures InBounds()
      ensures (State(), event) == RxByte(old(State()), value, tick)
    {
      hide Be16, Be32, Incomplete, ValidMcu;
      event := None;
      lastRxTick := tick;
      if rxLen >= rxBuf.Length {
        rxLen := 0;
        return;
      }
      rxBuf[rxLen] := value;
      rxLen := rxLen + 1;
      ghost var mem := old(rxBuf[..])[old(rxLen) := value];
      assert rxBuf[..] == mem;
      assert rxBuf[4..8] == mem[4..8] && rxBuf[0..2] == mem[0..2] && rxBuf[2..4] == mem[2..4];
      if rxLen >= HEADER_SIZE {
        var length := Be32(rxBuf[4..8]);
        if length < 8 || length > 32 {
          rxLen := 0;
          return;
        }
        var total := HEADER_SIZE + (length - 8);
        if rxLen >= total {
          if Be16(rxBuf[0..2]) == SERVICE_ID && rxBuf[14] == 0x02 {
            event := Some(McuEvent(Be16(rxBuf[2..4]), rxBuf[HEADER_SIZE]));
          }
          rxLen := 0;
        }
      }
    }

    /** The check at the top of the outer loop. */
    method CheckIdle(now: int)
      requires InBounds()
      modifies this`rxLen
      ensures InBounds()
      ensures State() == StepItem(old(State()), Poll(now)).0
    {
      if rxLen > 0 && now - lastRxTick > RESYNC_MS {
        rxLen := 0;
      }
    }

    /**
     * someip_uart_receive on a finite piece of line traffic: every pass checks before it
     * reads; stops at the first event, or takes everything. The static buffer carries over
     * to the next call.
     */
    method Receive(line: seq<LineItem>) returns (taken: nat, event: Option<McuEvent>)
      requires InBounds() && (line != [] ==> line[0].Poll?)
      modifies this, rxBuf
      ensures InBounds() && taken <= |line|
      ensures (State(), event.ToSeq()) == RunLine(old(State()), line[..taken])
      ensures event == None ==> taken == |line|
      ensures event.Some? ==> taken > 0 && RunLine(old(State()), line[..taken - 1]).1 == []
      ensures old(ValidMcu(State())) ==> ValidMcu(State())
    {
      hide RunLine, RxByte, ValidMcu, State;
      ghost var start := State();
      taken, event := 0, None;
      RunLineEmpty(start, line[..0]);
      while taken < |line| && event == None
        invariant taken <= |line| && InBounds()
        invariant event == None && taken < |line| ==> line[taken].Poll?
        invariant RunLine(start, line[..taken]) == (State(), event.ToSeq())
        invariant event.Some? ==> taken > 0 && RunLine(start, line[..taken - 1]).1 == []
        decreases |line| - taken
      {
        RunLineStep(start, line, taken, State());
        CheckIdle(line[taken].now);
        taken := taken + 1;
        while taken < |line| && line[taken].Rx?
          invariant taken <= |line| && InBounds() && event == None
          invariant RunLine(start, line[..taken]) == (State(), [])
        {
          RunLineStep(start, line, taken, State());
          event := Accept(line[taken].value, line[taken].tick);
          taken := taken + 1;
          if event.Some? {
            break;
          }
        }
      }
      if ValidMcu(start) {
        NeverOverflows(start, line[..taken]);
      }
    }
  }

  lemma {:induction false} RunLineEmpty(c: McuState, line: seq<LineItem>)
    requires |c.mem| == RX_BUF_SIZE && line == []
    ensures RunLine(c, line) == (c, [])
  {
  }

  lemma {:induction false} RunLineLast(c: McuState, line: seq<LineItem>)
    requires |c.mem| == RX_BUF_SIZE && line != []
    ensures var n := |line| - 1;
            var (c1, events) := RunLine(c, line[..n]);
            var (c2, event) := StepItem(c1, line[n]);
            RunLine(c, line) == (c2, events + event.ToSeq())
  {
  }

  lemma {:induction false} RunLineStep(c: McuState, line: seq<LineItem>, k: nat, c1: McuState)
    requires |c.mem| == RX_BUF_SIZE && k < |line| && RunLine(c, line[..k]) == (c1, [])
    ensures var (c2, event) := StepItem(c1, line[k]); RunLine(c, line[..k + 1]) == (c2, event.ToSeq())
  {
    hide RunLine, StepItem;
    var now := line[..k + 1];
    assert now[..k] == line[..k];
    RunLineLast(c, now);
    var event := StepItem(c1, line[k]).1;
    assert [] + event.ToSeq() == event.ToSeq();
  }

  // ---- simulation ----

  lemma RxKeepsValid(c: McuState, value: byte, tick: int)
    requires ValidMcu(c)
    ensures c.len < 40
    ensures ValidMcu(RxByte(c, value, tick).0)
  {
    var mem, len := c.mem[c.len := value], c.len + 1;
    assert mem[..len] == c.mem[..c.len] + [value];
    if c.len >= HEADER_SIZE {
      assert c.mem[..c.len][4..8] == c.mem[4..8];
    }
    if len >= HEADER_SIZE {
      assert mem[..len][4..8] == mem[4..8];
    }
  }

  /** The overflow branch is dead: after any line traffic the buffer holds fewer than 40 of its 64 bytes. */
  lemma {:induction false} NeverOverflows(c: McuState, line: seq<LineItem>)
    requires ValidMcu(c)
    ensures ValidMcu(RunLine(c, line).0) && RunLine(c, line).0.len < 40
    decreases |line|
  {
    if line == [] {
      RxKeepsValid(c, 0, 0);
    } else {
      var n := |line| - 1;
      NeverOverflows(c, line[..n]);
      var c1 := RunLine(c, line[..n]).0;
      if line[n].Rx? {
        RxKeepsValid(c1, line[n].value, line[n].tick);
      }
      RxKeepsValid(RunLine(c, line).0, 0, 0);
    }
  }

  /** One byte, in any state, told from the bytes: stored, dropped from a full buffer, or closing a frame. */
  lemma RxByteExact(c: McuState, value: byte, tick: int)
    requires |c.mem| == 64
    ensures var (c1, event) := RxByte(c, value, tick);
            c1.last == tick &&
            if c.len >= 64 then c1.mem == c.mem && c1.len == 0 && event == None
            else
              && c1.mem == c.mem[c.len := value]
              && var length := Word(c1.mem, 4);
                 if c.len < 15 || (8 <= length <= 32 && c.len + 1 < length + 8) then c1.len == c.len + 1 && event == None
                 else
                   && c1.len == 0
                   && event == if 8 <= length <= 32 && c1.mem[0] == 0x12 && c1.mem[1] == 0x34 && c1.mem[14] == 2
                               then Some(McuEvent(Half(c1.mem, 2), c1.mem[16])) else None
  {
    hide Be16, Be32, Half, Word;
    if c.len < 64 {
      var mem := c.mem[c.len := value];
      HalfAt(mem, 0);
      HalfAt(mem, 2);
      WordAt(mem, 4);
      ServiceBytes(mem);
    }
  }

  lemma ServiceBytes(mem: seq<byte>)
    requires |mem| >= 2
    ensures Half(mem, 0) == SERVICE_ID <==> mem[0] == 0x12 && mem[1] == 0x34
  {
  }

  /** One event of each side: the same id, and the same first payload byte if there is one. */
  predicate Matches(m: McuEvent, e: Event) {
    m.id == e.id && (e.payload != [] ==> m.payload == e.payload[0])
  }

  predicate AllMatch(ms: seq<McuEvent>, es: seq<Event>) {
    |ms| == |es| && forall i :: 0 <= i < |ms| ==> Matches(ms[i], es[i])
  }

  /** The bytes of the line under the MCU's own read times, as both clock readings. */
  function Reads(line: seq<LineItem>): seq<TimedByte> {
    if line == [] then []
    else
      var n := |line| - 1;
      Reads(line[..n]) + if line[n].Rx? then [TimedByte(line[n].value, line[n].tick, line[n].tick)] else []
  }

  /** The last read, and whether an idle check since then found it more than 50 ms ago. */
  function IdleSince(line: seq<LineItem>): (Option<int>, bool) {
    if line == [] then (None, false)
    else
      var n := |line| - 1;
      var (last, idle) := IdleSince(line[..n]);
      match line[n]
      case Rx(_, tick) => (Some(tick), false)
      case Poll(now) => (last, idle || (last.Some? && now - last.value > RESYNC_MS))
  }

  /** What the Python parser holds after these bytes. */
  function HeldBy(bytes: seq<TimedByte>): seq<byte> {
    FeedAll(INITIAL, bytes, RESYNC_MS).0.buf
  }

  /**
   * `bytes` are the bytes of the line, and wherever the Python parser holds a partial
   * frame, their clock readings show a gap exactly when an idle check noticed a silence.
   */
  predicate Observes(bytes: seq<TimedByte>, line: seq<LineItem>)
    decreases |line|
  {
    if line == [] then bytes == []
    else
      var n := |line| - 1;
      match line[n]
      case Poll(_) => Observes(bytes, line[..n])
      case Rx(value, _) =>
        bytes != [] &&
        var k := |bytes| - 1;
        && Observes(bytes[..k], line[..n])
        && bytes[k].value == value
        && (k > 0 && HeldBy(bytes[..k]) != [] ==>
            (IdleSince(line[..n]).1 <==> bytes[k].now - bytes[k - 1].tick > RESYNC_MS))
  }

  /** Readings that show just the noticed silences, for any line at all. The second reading is the read time. */
  function Noticed(line: seq<LineItem>): (bytes: seq<TimedByte>)
    ensures Observes(bytes, line)
    decreases |line|
  {
    if line == [] then []
    else
      var n := |line| - 1;
      match line[n]
      case Poll(_) => Noticed(line[..n])
      case Rx(value, tick) =>
        var before := Noticed(line[..n]);
        var now := if before == [] then tick
                   else before[|before| - 1].tick + if IdleSince(line[..n]).1 then RESYNC_MS + 1 else 0;
        before + [TimedByte(value, now, tick)]
  }

  /** The simulation relation. After a noticed silence the MCU has already dropped what Python drops at the next byte. */
  predicate Simulates(c: McuState, p: ParserState, last: Option<int>, idle: bool) {
    && ValidMcu(c) && StreamParsing.Valid(p)
    && (if idle then c.len == 0 else c.mem[..c.len] == p.buf && (c.len > 0 ==> last == Some(c.last)))
  }

  /** parse_event on a buffer that is one whole frame: only the service and the message type can be wrong. */
  lemma ParseComplete(frame: seq<byte>)
    requires Complete(frame)
    ensures ParseEvent(frame).ToOption()
         == if Be16(frame[0..2]) == SERVICE_ID && frame[14] == 0x02
            then Some(Event(Be16(frame[2..4]), frame[HEADER_SIZE..])) else None
  {
    assert frame[HEADER_SIZE..HEADER_SIZE + (Be32(frame[4..8]) - 8)] == frame[HEADER_SIZE..];
  }

  /** A byte that completes a frame: the same verdict and the same event. */
  lemma FrameSimulates(c: McuState, value: byte, tick: int)
    requires ValidMcu(c) && c.len + 1 >= HEADER_SIZE
    requires var held := c.mem[..c.len] + [value]; LengthOk(held) && c.len + 1 == Total(held)
    ensures var (c1, m) := RxByte(c, value, tick);
            var e := ParseEvent(c.mem[..c.len] + [value]).ToOption();
            && c1.len == 0 && (m.Some? <==> e.Some?) && (m.Some? ==> Matches(m.value, e.value))
            && (m.Some? && e.value.payload == [] ==> m.value.payload == c.mem[HEADER_SIZE])
  {
    hide ParseEvent, Be16, Be32, Incomplete;
    var mem, held := c.mem[c.len := value], c.mem[..c.len] + [value];
    SameHeader(mem, held);
    ParseComplete(held);
    if c.len + 1 > HEADER_SIZE {
      assert held[HEADER_SIZE..][0] == mem[HEADER_SIZE];
    }
  }

  /** One byte: the array code and the Python code agree, and the payload byte is stale when the frame has none. */
  lemma RxSimulates(c: McuState, buf: seq<byte>, value: byte, tick: int)
    requires ValidMcu(c) && c.mem[..c.len] == buf
    ensures var (c1, m) := RxByte(c, value, tick);
            var (buf1, e) := Push(buf, value);
            && c1.mem[..c1.len] == buf1 && c1.last == tick
            && (m.Some? <==> e.Some?) && (m.Some? ==> Matches(m.value, e.value))
            && (m.Some? && e.value.payload == [] ==> m.value.payload == c.mem[HEADER_SIZE])
  {
    hide RxByte, Push, Incomplete, LengthOk, Total, ParseEvent, Matches;
    var held := buf + [value];
    if |held| >= HEADER_SIZE && LengthOk(held) && |held| == Total(held) {
      FrameSimulates(c, value, tick);
      PushCloses(buf, value);
      RxRecords(c, value, tick);
    } else {
      OpenSimulates(c, buf, value, tick);
    }
  }

  lemma PushCloses(buf: seq<byte>, value: byte)
    requires Complete(buf + [value])
    ensures Push(buf, value) == ([], ParseEvent(buf + [value]).ToOption())
  {
    hide ParseEvent, Be32;
    var held := buf + [value];
    assert held[..Total(held)] == held;
  }

  lemma RxRecords(c: McuState, value: byte, tick: int)
    requires |c.mem| == RX_BUF_SIZE
    ensures RxByte(c, value, tick).0.last == tick
  {
    hide Be16, Be32;
  }

  /** A byte that completes no frame: kept by both or, after a bad length, by none. */
  lemma OpenSimulates(c: McuState, buf: seq<byte>, value: byte, tick: int)
    requires ValidMcu(c) && c.mem[..c.len] == buf
    requires var held := buf + [value]; |held| >= HEADER_SIZE && LengthOk(held) ==> |held| != Total(held)
    ensures var (c1, m) := RxByte(c, value, tick);
            && m == None && Push(buf, value).1 == None && c1.mem[..c1.len] == Push(buf, value).0 && c1.last == tick
  {
    var mem, held := c.mem[c.len := value], buf + [value];
    assert mem[..c.len + 1] == held;
    SameHeader(mem, held);
    SameHeader(held, buf);
    hide ParseEvent, Be16, Be32, Matches;
  }

  lemma SameHeader(mem: seq<byte>, held: seq<byte>)
    requires held <= mem
    ensures |held| >= HEADER_SIZE ==>
              && held[0..2] == mem[0..2] && held[2..4] == mem[2..4] && held[4..8] == mem[4..8]
              && held[14] == mem[14]
  {
  }

  lemma ItemSimulates(c: McuState, p: ParserState, last: Option<int>, idle: bool, b: TimedByte, tick: int)
    requires Simulates(c, p, last, idle)
    requires p.buf != [] ==> (idle <==> Stale(p, b.now, RESYNC_MS))
    ensures var (c1, m) := RxByte(c, b.value, tick);
            var (p1, e) := FeedOne(p, b, RESYNC_MS);
            && Simulates(c1, p1, Some(tick), false)
            && (m.Some? <==> e.Some?) && (m.Some? ==> Matches(m.value, e.value))
  {
    var q := if Stale(p, b.now, RESYNC_MS) then INITIAL else p;
    assert FeedOne(p, b, RESYNC_MS) == FeedOne(q, b, RESYNC_MS);
    RxSimulates(c, q.buf, b.value, tick);
    RxKeepsValid(c, b.value, tick);
    ReachableValid(p, [b], RESYNC_MS);
    FeedAllOne(p, b, RESYNC_MS);
  }

  /** A partial frame carries the tick of the last byte fed. */
  lemma {:induction false} HeldTick(bytes: seq<TimedByte>)
    requires HeldBy(bytes) != []
    ensures bytes != [] && FeedAll(INITIAL, bytes, RESYNC_MS).0.lastTick == Some(bytes[|bytes| - 1].tick)
  {
    if bytes != [] {
      FeedAllLast(INITIAL, bytes, RESYNC_MS);
    }
  }

  /**
   * Cross-language simulation, for every line whatsoever: fed the same bytes under clock
   * readings that show just the silences an idle check noticed, the Python parser emits the
   * same event ids as the MCU, with the MCU's byte at the head of each payload that has
   * one, and the two buffers stay equal.
   */
  lemma {:induction false} Simulation(c: McuState, line: seq<LineItem>, bytes: seq<TimedByte>)
    requires ValidMcu(c) && c.len == 0 && Observes(bytes, line)
    ensures var (c1, ms) := RunLine(c, line);
            var (p1, es) := FeedAll(INITIAL, bytes, RESYNC_MS);
            var (last, idle) := IdleSince(line);
            AllMatch(ms, es) && Simulates(c1, p1, last, idle)
    decreases |line|
  {
    if line != [] {
      hide RxByte, FeedOne, FeedAll, RunLine, Simulates, IdleSince;
      var n, k := |line| - 1, |bytes| - 1;
      var before := if line[n].Poll? then bytes else bytes[..k];
      Simulation(c, line[..n], before);
      RunLineLast(c, line);
      var (c1, p1) := (RunLine(c, line[..n]).0, FeedAll(INITIAL, before, RESYNC_MS).0);
      if line[n].Poll? {
        PollSimulates(c1, p1, line);
      } else {
        ReadSimulates(c1, line, bytes);
        FeedAllLast(INITIAL, bytes, RESYNC_MS);
      }
    }
  }

  lemma {:induction false} ReadSimulates(c1: McuState, line: seq<LineItem>, bytes: seq<TimedByte>)
    requires line != [] && line[|line| - 1].Rx? && Observes(bytes, line)
    requires var (last, idle) := IdleSince(line[..|line| - 1]);
             Simulates(c1, FeedAll(INITIAL, bytes[..|bytes| - 1], RESYNC_MS).0, last, idle)
    ensures var (c2, m) := RxByte(c1, line[|line| - 1].value, line[|line| - 1].tick);
            var (p2, e) := FeedOne(FeedAll(INITIAL, bytes[..|bytes| - 1], RESYNC_MS).0, bytes[|bytes| - 1], RESYNC_MS);
            && Simulates(c2, p2, IdleSince(line).0, IdleSince(line).1)
            && (m.Some? <==> e.Some?) && (m.Some? ==> Matches(m.value, e.value))
  {
    hide RxByte, FeedOne, FeedAll, Simulates;
    var n, k := |line| - 1, |bytes| - 1;
    var p1 := FeedAll(INITIAL, bytes[..k], RESYNC_MS).0;
    var (last, idle) := IdleSince(line[..n]);
    if p1.buf != [] {
      HeldTick(bytes[..k]);
    }
    ItemSimulates(c1, p1, last, idle, bytes[k], line[n].tick);
  }

  lemma {:induction false} PollSimulates(c: McuState, p: ParserState, line: seq<LineItem>)
    requires line != [] && line[|line| - 1].Poll?
    requires Simulates(c, p, IdleSince(line[..|line| - 1]).0, IdleSince(line[..|line| - 1]).1)
    ensures StepItem(c, line[|line| - 1]).1 == None
    ensures Simulates(StepItem(c, line[|line| - 1]).0, p, IdleSince(line).0, IdleSince(line).1)
  {
  }

  // ---- exactly when the two agree ----

  /** After every byte of the line both have emitted the same events and hold the same partial frame. */
  predicate SameThroughout(c: McuState, bytes: seq<TimedByte>, line: seq<LineItem>)
    requires |c.mem| == RX_BUF_SIZE
    decreases |line|
  {
    if line == [] then bytes == []
    else
      var n := |line| - 1;
      match line[n]
      case Poll(_) => SameThroughout(c, bytes, line[..n])
      case Rx(value, _) =>
        var (c1, ms) := RunLine(c, line);
        && bytes != [] && bytes[|bytes| - 1].value == value
        && SameThroughout(c, bytes[..|bytes| - 1], line[..n])
        && AllMatch(ms, FeedAll(INITIAL, bytes, RESYNC_MS).1)
        && c1.len <= RX_BUF_SIZE && c1.mem[..c1.len] == HeldBy(bytes)
  }

  /** One disagreement about a silence during a partial frame, and the two buffers differ after the byte. */
  lemma DisagreementShows(c: McuState, p: ParserState, last: Option<int>, idle: bool, b: TimedByte, tick: int)
    requires Simulates(c, p, last, idle)
    requires p.buf != [] && (idle <==> !Stale(p, b.now, RESYNC_MS))
    ensures var c1 := RxByte(c, b.value, tick).0; c1.len <= RX_BUF_SIZE ==> c1.mem[..c1.len] != FeedOne(p, b, RESYNC_MS).0.buf
  {
    hide ParseEvent, Be16, Be32;
    if !idle {
      RxSimulates(c, p.buf, b.value, tick);
      assert Push([], b.value).0 == [b.value];
    }
  }

  /**
   * For every line and every clock readings of its bytes: the MCU and the Python parser
   * behave the same throughout if and only if, during partial frames, the readings show a
   * gap exactly where an idle check noticed a silence.
   */
  lemma {:induction false} SameExactly(c: McuState, bytes: seq<TimedByte>, line: seq<LineItem>)
    requires ValidMcu(c) && c.len == 0
    ensures SameThroughout(c, bytes, line) <==> Observes(bytes, line)
    decreases |line|
  {
    if line != [] {
      var n, k := |line| - 1, |bytes| - 1;
      if line[n].Poll? {
        SameExactly(c, bytes, line[..n]);
      } else if bytes != [] {
        SameExactly(c, bytes[..k], line[..n]);
        if Observes(bytes[..k], line[..n]) && bytes[k].value == line[n].value {
          SameAfterRead(c, bytes, line);
        }
      }
    }
  }

  lemma {:induction false} SameAfterRead(c: McuState, bytes: seq<TimedByte>, line: seq<LineItem>)
    requires ValidMcu(c) && c.len == 0
    requires line != [] && line[|line| - 1].Rx? && bytes != [] && Observes(bytes[..|bytes| - 1], line[..|line| - 1])
    requires bytes[|bytes| - 1].value == line[|line| - 1].value
    ensures var (c1, ms) := RunLine(c, line);
            Observes(bytes, line) <==>
              AllMatch(ms, FeedAll(INITIAL, bytes, RESYNC_MS).1) && c1.len <= RX_BUF_SIZE && c1.mem[..c1.len] == HeldBy(bytes)
  {
    var n, k := |line| - 1, |bytes| - 1;
    if Observes(bytes, line) {
      hide RxByte, FeedOne, FeedAll, RunLine;
      Simulation(c, line, bytes);
      assert !IdleSince(line).1;
    } else {
      hide RxByte, FeedOne, FeedAll, RunLine, Simulates;
      Simulation(c, line[..n], bytes[..k]);
      HeldTick(bytes[..k]);
      RunLineLast(c, line);
      FeedAllLast(INITIAL, bytes, RESYNC_MS);
      var (last, idle) := IdleSince(line[..n]);
      DisagreementShows(RunLine(c, line[..n]).0, FeedAll(INITIAL, bytes[..k], RESYNC_MS).0, last, idle, bytes[k], line[n].tick);
    }
  }

  // ---- idle checks and the clock ----

  /** The clock never runs backwards. */
  predicate Monotone(line: seq<LineItem>) {
    forall i :: 0 < i < |line| ==> line[i - 1].Time() <= line[i].Time()
  }

  lemma {:induction false} IdleTimely(line: seq<LineItem>)
    requires Monotone(line) && line != []
    ensures var (last, idle) := IdleSince(line);
            last.Some? ==>
              && last.value <= line[|line| - 1].Time()
              && (idle <==> line[|line| - 1].Time() - last.value > RESYNC_MS)
    decreases |line|
  {
    var n := |line| - 1;
    if n > 0 {
      IdleTimely(line[..n]);
    } else {
      assert IdleSince(line[..0]) == (None, false);
    }
  }

  lemma {:induction false} ReadsNext(line: seq<LineItem>)
    requires line != []
    ensures var bytes, before, item := Reads(line), Reads(line[..|line| - 1]), line[|line| - 1];
            && (item.Poll? ==> bytes == before)
            && (item.Rx? ==>
                && bytes != [] && bytes[..|bytes| - 1] == before
                && bytes[|bytes| - 1] == TimedByte(item.value, item.tick, item.tick))
  {
  }

  lemma {:induction false} LastRead(line: seq<LineItem>)
    ensures IdleSince(line).0 == if Reads(line) == [] then None else Some(Reads(line)[|Reads(line)| - 1].tick)
    decreases |line|
  {
    if line != [] {
      LastRead(line[..|line| - 1]);
      ReadsNext(line);
    }
  }
}
