/**
 * The two timeouts against each other: the MCU drops a partial frame at an idle check, the
 * Python parser at the next byte. When they agree, for every run of the MCU's loop.
 */
module Resync {
  import opened Bytes
  import opened Protocol
  import opened StreamParsing
  import opened UartReceiving

  const SLEEP_MS: int := 10

  // ---- runs of the receive loop ----

  /** The last item was the byte that completed an event, so the call has returned. */
  predicate EndsCall(c: McuState, line: seq<LineItem>)
    requires |c.mem| == RX_BUF_SIZE
  {
    line != [] && StepItem(RunLine(c, line[..|line| - 1]).0, line[|line| - 1]).1.Some?
  }

  /**
   * The next item of a pass or of the next pass. The reads follow the idle check, and one
   * another, without a wait of the loop's own: `hold` bounds how long the thread may be held up
   * in between. A pass without an event ends in the sleep before the next idle check.
   */
  predicate Follows(c: McuState, line: seq<LineItem>, item: LineItem, hold: int)
    requires |c.mem| == RX_BUF_SIZE && line != []
  {
    var previous := line[|line| - 1].Time();
    match item
    case Poll(now) => now >= previous && (EndsCall(c, line) || now >= previous + SLEEP_MS)
    case Rx(_, tick) => previous <= tick <= previous + hold && !EndsCall(c, line)
  }

  /** Runs of someip_uart_receive called again and again, from state `c`. */
  predicate InPasses(c: McuState, line: seq<LineItem>, hold: int)
    requires |c.mem| == RX_BUF_SIZE
    decreases |line|
  {
    line == [] ||
    var n := |line| - 1;
    InPasses(c, line[..n], hold) && if n == 0 then line[0].Poll? else Follows(c, line[..n], line[n], hold)
  }

  lemma {:induction false} PassesMonotone(c: McuState, line: seq<LineItem>, hold: int)
    requires |c.mem| == RX_BUF_SIZE && InPasses(c, line, hold)
    ensures Monotone(line)
    decreases |line|
  {
    if line != [] {
      hide EndsCall;
      var n := |line| - 1;
      PassesMonotone(c, line[..n], hold);
      assert forall i :: 0 <= i < n ==> line[..n][i] == line[i];
    }
  }

  lemma {:induction false} PassesPrefix(c: McuState, line: seq<LineItem>, hold: int, n: nat)
    requires |c.mem| == RX_BUF_SIZE && InPasses(c, line, hold) && n <= |line|
    ensures InPasses(c, line[..n], hold)
    decreases |line|
  {
    if n < |line| {
      hide Follows;
      PassesPrefix(c, line[..|line| - 1], hold, n);
      assert line[..|line| - 1][..n] == line[..n];
    } else {
      assert line[..n] == line;
    }
  }

  /** A silence of `gap` at a read: what the idle check before it says is bounded by the read's delay behind that check. */
  lemma {:induction false} NoticedInPass(c: McuState, line: seq<LineItem>, hold: int)
    requires |c.mem| == RX_BUF_SIZE && InPasses(c, line, hold) && hold >= 0
    requires line != [] && line[|line| - 1].Rx? && IdleSince(line[..|line| - 1]).0.Some?
    ensures var n := |line| - 1;
            var (last, idle) := IdleSince(line[..n]);
            var gap := line[n].tick - last.value;
            (idle ==> gap > 50) && (!idle ==> gap <= 50 + hold) && gap >= 0
  {
    hide EndsCall, IdleSince;
    var n := |line| - 1;
    PassesMonotone(c, line[..n], hold);
    IdleTimely(line[..n]);
  }

  // ---- Python under the MCU's own read times ----

  /**
   * No silence inside a partial frame lies between the timeout and the timeout plus `hold`.
   * For `hold` 0 this is always true.
   */
  predicate NoAmbiguousGap(bytes: seq<TimedByte>, hold: int) {
    forall k :: 0 < k < |bytes| && HeldBy(bytes[..k]) != [] ==>
      var gap := bytes[k].now - bytes[k - 1].tick;
      gap <= 50 || gap > 50 + hold
  }

  lemma {:induction false} ReadsObserve(c: McuState, line: seq<LineItem>, hold: int)
    requires |c.mem| == RX_BUF_SIZE && InPasses(c, line, hold) && hold >= 0
    requires NoAmbiguousGap(Reads(line), hold)
    ensures Observes(Reads(line), line)
    decreases |line|
  {
    if line != [] {
      hide Follows, HeldBy, IdleSince;
      var n := |line| - 1;
      var bytes, before := Reads(line), Reads(line[..n]);
      ReadsNext(line);
      hide Reads;
      assert forall k :: 0 <= k <= |before| ==> before[..k] == bytes[..k];
      ReadsObserve(c, line[..n], hold);
      LastRead(line[..n]);
      if line[n].Rx? && before != [] {
        NoticedInPass(c, line, hold);
      }
    }
  }

  /** Whatever the loop's schedule, any of its runs over these reads, or a first part of them, goes like Python's parser. */
  ghost predicate AlwaysSame(c: McuState, read: seq<TimedByte>, hold: int)
    requires |c.mem| == RX_BUF_SIZE
  {
    forall line :: InPasses(c, line, hold) && Reads(line) <= read ==> SameThroughout(c, Reads(line), line)
  }

  lemma PrefixUnambiguous(a: seq<TimedByte>, b: seq<TimedByte>, hold: int)
    requires a <= b && NoAmbiguousGap(b, hold)
    ensures NoAmbiguousGap(a, hold)
  {
    hide HeldBy;
    forall k | 0 < k < |a| && HeldBy(a[..k]) != []
      ensures var gap := a[k].now - a[k - 1].tick; gap <= 50 || gap > 50 + hold
    {
      assert a[..k] == b[..k];
    }
  }

  /** Where the k-th byte of the reads stands on the line. */
  lemma {:induction false} FindRead(line: seq<LineItem>, k: nat) returns (j: nat)
    requires 0 < k <= |Reads(line)|
    ensures 0 < j <= |line| && line[j - 1].Rx? && Reads(line[..j]) == Reads(line)[..k]
    decreases |line|
  {
    var n := |line| - 1;
    ReadsNext(line);
    if k == |Reads(line)| && line[n].Rx? {
      j := |line|;
      assert line[..j] == line && Reads(line)[..k] == Reads(line);
    } else {
      j := FindRead(line[..n], k);
      assert line[..n][..j] == line[..j];
    }
  }

  /** An ambiguous silence has a schedule of the loop that decides it against Python: one idle check, just in time, then the read. */
  lemma {:induction false} LateCheck(c: McuState, line: seq<LineItem>, hold: int, k: nat) returns (other: seq<LineItem>)
    requires |c.mem| == RX_BUF_SIZE && InPasses(c, line, hold)
    requires 0 < k < |Reads(line)| && HeldBy(Reads(line)[..k]) != []
    requires 50 < Reads(line)[k].now - Reads(line)[k - 1].tick <= 50 + hold
    ensures InPasses(c, other, hold) && Reads(other) == Reads(line)[..k + 1] && !Observes(Reads(other), other)
  {
    hide HeldBy, EndsCall;
    var read := Reads(line);
    var j := FindRead(line, k);
    PassesPrefix(c, line, hold, j);
    LastRead(line[..j]);
    var item := Rx(read[k].value, read[k].tick);
    ReadsEqual(line, k);
    var checked := line[..j] + [Poll(read[k - 1].tick + 50)];
    other := checked + [item];
    Extended(c, line[..j], Poll(read[k - 1].tick + 50), hold);
    NoEventFromCheck(c, line[..j], Poll(read[k - 1].tick + 50));
    Extended(c, checked, item, hold);
    assert Reads(other)[..k] == read[..k] && read[..k + 1] == read[..k] + [read[k]];
  }

  /** Both readings of a read are its read time. */
  lemma {:induction false} ReadsEqual(line: seq<LineItem>, k: nat)
    requires k < |Reads(line)|
    ensures Reads(line)[k].now == Reads(line)[k].tick
    decreases |line|
  {
    var n := |line| - 1;
    ReadsNext(line);
    if k < |Reads(line[..n])| {
      ReadsEqual(line[..n], k);
      assert Reads(line)[k] == Reads(line[..n])[k];
    }
  }

  lemma {:induction false} Extended(c: McuState, line: seq<LineItem>, item: LineItem, hold: int)
    requires |c.mem| == RX_BUF_SIZE && InPasses(c, line, hold) && line != [] && Follows(c, line, item, hold)
    ensures InPasses(c, line + [item], hold)
    ensures Reads(line + [item])
         == Reads(line) + if item.Rx? then [TimedByte(item.value, item.tick, item.tick)] else []
    ensures IdleSince(line + [item])
         == match item
            case Rx(_, tick) => (Some(tick), false)
            case Poll(now) =>
              var (last, idle) := IdleSince(line); (last, idle || (last.Some? && now - last.value > 50))
  {
    assert (line + [item])[..|line|] == line;
  }

  lemma {:induction false} NoEventFromCheck(c: McuState, line: seq<LineItem>, item: LineItem)
    requires |c.mem| == RX_BUF_SIZE && item.Poll?
    ensures !EndsCall(c, line + [item])
  {
  }

  /**
   * Exactly when the MCU's timeout is Python's: for the reads of any run of the loop, every
   * schedule of the loop over them behaves like the Python parser with the same clock
   * readings if and only if no silence inside a partial frame lies in (50, 50 + hold].
   */
  lemma {:induction false} SameTimeoutIff(c: McuState, line: seq<LineItem>, hold: int)
    requires ValidMcu(c) && c.len == 0 && hold >= 0 && InPasses(c, line, hold)
    ensures AlwaysSame(c, Reads(line), hold) <==> NoAmbiguousGap(Reads(line), hold)
  {
    hide InPasses, SameThroughout, Observes, Reads, HeldBy;
    var read := Reads(line);
    if NoAmbiguousGap(read, hold) {
      forall other | InPasses(c, other, hold) && Reads(other) <= read ensures SameThroughout(c, Reads(other), other) {
        PrefixUnambiguous(Reads(other), read, hold);
        ReadsObserve(c, other, hold);
        SameExactly(c, Reads(other), other);
      }
    } else {
      var k :| 0 < k < |read| && HeldBy(read[..k]) != []
            && 50 < read[k].now - read[k - 1].tick <= 50 + hold;
      var other := LateCheck(c, line, hold, k);
      SameExactly(c, Reads(other), other);
    }
  }

  /** A loop that is never held up between its idle check and its reads behaves like Python on every line. */
  lemma {:induction false} PromptReadsAgree(c: McuState, line: seq<LineItem>)
    requires ValidMcu(c) && c.len == 0 && InPasses(c, line, 0)
    ensures SameThroughout(c, Reads(line), line)
  {
    hide InPasses, SameThroughout, Observes, Reads, HeldBy;
    ReadsObserve(c, line, 0);
    SameExactly(c, Reads(line), line);
  }

  // ---- Python under its own clock: bytes taken as they arrive ----

  /** The bytes of the line with their arrival times; the MCU reads each at most `wait` ms after it arrived. */
  predicate Delayed(bytes: seq<TimedByte>, line: seq<LineItem>, wait: int) {
    var read := Reads(line);
    |bytes| == |read|
    && forall k :: 0 <= k < |bytes| ==>
         && bytes[k].value == read[k].value && bytes[k].now == bytes[k].tick
         && bytes[k].tick <= read[k].tick <= bytes[k].tick + wait
  }

  /** No silence inside a partial frame lies within `wait` of the timeout, or up to `hold` later. */
  predicate NoAmbiguousArrival(bytes: seq<TimedByte>, hold: int, wait: int) {
    forall k :: 0 < k < |bytes| && HeldBy(bytes[..k]) != [] ==>
      var gap := bytes[k].now - bytes[k - 1].tick;
      gap <= 50 - wait || gap > 50 + hold + wait
  }

  lemma {:induction false} DelayedBefore(line: seq<LineItem>, bytes: seq<TimedByte>, hold: int, wait: int)
    requires line != [] && Delayed(bytes, line, wait) && NoAmbiguousArrival(bytes, hold, wait)
    requires line[|line| - 1].Rx? ==> bytes != []
    ensures var before := if line[|line| - 1].Poll? then bytes else bytes[..|bytes| - 1];
            Delayed(before, line[..|line| - 1], wait) && NoAmbiguousArrival(before, hold, wait)
  {
    hide HeldBy;
    ReadsNext(line);
    hide Reads;
    var before := if line[|line| - 1].Poll? then bytes else bytes[..|bytes| - 1];
    assert forall k :: 0 <= k <= |before| ==> before[..k] == bytes[..k];
  }

  /** The last read, and the arrivals of it and of the read before it. */
  lemma {:induction false} DelayedLast(line: seq<LineItem>, bytes: seq<TimedByte>, wait: int)
    requires line != [] && line[|line| - 1].Rx? && Delayed(bytes, line, wait)
    ensures var k := |bytes| - 1;
            && bytes != [] && bytes[k].value == line[|line| - 1].value
            && bytes[k].now <= line[|line| - 1].tick <= bytes[k].now + wait
            && (k > 0 ==>
                var last := IdleSince(line[..|line| - 1]).0;
                last.Some? && bytes[k - 1].tick <= last.value <= bytes[k - 1].tick + wait)
  {
    ReadsNext(line);
    LastRead(line[..|line| - 1]);
    hide Reads, IdleSince;
    var before := Reads(line[..|line| - 1]);
    assert before != [] ==> Reads(line)[|before| - 1] == before[|before| - 1];
  }

  lemma {:induction false} ArrivalsObserve(c: McuState, line: seq<LineItem>, bytes: seq<TimedByte>, hold: int, wait: int)
    requires |c.mem| == RX_BUF_SIZE && InPasses(c, line, hold) && hold >= 0 && wait >= 0
    requires Delayed(bytes, line, wait) && NoAmbiguousArrival(bytes, hold, wait)
    ensures Observes(bytes, line)
    decreases |line|
  {
    if line != [] {
      hide Follows, HeldBy, IdleSince, Reads, Delayed;
      if line[|line| - 1].Rx? {
        DelayedLast(line, bytes, wait);
      }
      DelayedBefore(line, bytes, hold, wait);
      ArrivalsObserve(c, line[..|line| - 1], if line[|line| - 1].Poll? then bytes else bytes[..|bytes| - 1], hold, wait);
      if line[|line| - 1].Rx? && |bytes| > 1 {
        NoticedInPass(c, line, hold);
      }
    } else {
      assert Reads(line) == [];
    }
  }

  /**
   * The MCU against a Python parser that takes every byte as it arrives: they behave the
   * same throughout when no silence inside a partial frame is within `wait` of the timeout.
   */
  lemma {:induction false} ArrivalsAgree(c: McuState, line: seq<LineItem>, bytes: seq<TimedByte>, hold: int, wait: int)
    requires ValidMcu(c) && c.len == 0 && InPasses(c, line, hold) && hold >= 0 && wait >= 0
    requires Delayed(bytes, line, wait) && NoAmbiguousArrival(bytes, hold, wait)
    ensures SameThroughout(c, bytes, line)
  {
    hide InPasses, SameThroughout, Observes, Delayed, NoAmbiguousArrival;
    ArrivalsObserve(c, line, bytes, hold, wait);
    SameExactly(c, bytes, line);
  }

  /** Two bytes that arrive `gap` ms apart. */
  function Pair(a: byte, b: byte, gap: int): seq<TimedByte> {
    [TimedByte(a, 0, 0), TimedByte(b, gap, gap)]
  }

  ghost predicate PairSame(c: McuState, pair: seq<TimedByte>, hold: int, wait: int)
    requires |c.mem| == RX_BUF_SIZE
  {
    forall line :: InPasses(c, line, hold) && Delayed(pair, line, wait) ==> SameThroughout(c, pair, line)
  }

  /** Two passes, each with its check and one read. */
  function TwoPasses(a: byte, b: byte, first: int, check: int, second: int): seq<LineItem> {
    [Poll(first)] + [Rx(a, first)] + [Poll(check)] + [Rx(b, second)]
  }

  lemma {:induction false} TwoPassesRun(c: McuState, a: byte, b: byte, first: int, check: int, second: int, hold: int)
    requires ValidMcu(c) && c.len == 0 && hold >= 0
    requires check >= first + SLEEP_MS && check <= second <= check + hold
    ensures var line := TwoPasses(a, b, first, check, second);
            && InPasses(c, line, hold)
            && Reads(line) == [TimedByte(a, first, first), TimedByte(b, second, second)]
            && line[..3] == [Poll(first)] + [Rx(a, first)] + [Poll(check)] && line[3] == Rx(b, second)
            && IdleSince(line[..3]) == (Some(first), check - first > 50)
  {
    hide Be16, Be32, Incomplete;
    var l1 := [Poll(first)];
    assert l1[..0] == [] && Reads(l1[..0]) == [] && IdleSince(l1[..0]) == (None, false);
    assert Reads(l1) == [] && IdleSince(l1) == (None, false);
    assert InPasses(c, l1, hold);
    NoEventFromCheck(c, [], Poll(first));
    assert [] + [Poll(first)] == l1;
    Extended(c, l1, Rx(a, first), hold);
    var l2 := l1 + [Rx(a, first)];
    Extended(c, l2, Poll(check), hold);
    NoEventFromCheck(c, l2, Poll(check));
    var l3 := l2 + [Poll(check)];
    Extended(c, l3, Rx(b, second), hold);
    assert (l3 + [Rx(b, second)])[..3] == l3;
  }

  /**
   * Exactly which silences decide, for any two bytes and every gap between their arrivals:
   * all schedules of the loop treat them as Python does if and only if the gap is at most
   * 50 - wait or more than 50 + hold + wait. With `wait` 0 these are the gaps between reads.
   */
  lemma {:induction false} SameArrivalIff(c: McuState, a: byte, b: byte, gap: int, hold: int, wait: int)
    requires ValidMcu(c) && c.len == 0 && hold >= 0 && wait >= 0 && gap >= 0
    ensures PairSame(c, Pair(a, b, gap), hold, wait) <==> gap <= 50 - wait || gap > 50 + hold + wait
  {
    var pair := Pair(a, b, gap);
    OneByteHeld(pair);
    hide InPasses, SameThroughout, Observes, Reads, HeldBy, IdleSince;
    if gap <= 50 - wait || gap > 50 + hold + wait {
      forall line | InPasses(c, line, hold) && Delayed(pair, line, wait) ensures SameThroughout(c, pair, line) {
        ArrivalsAgree(c, line, pair, hold, wait);
      }
    } else {
      var first, check, second :=
        if gap <= 50 then 0 else wait,
        if gap <= 50 then gap + wait else wait + 50,
        if gap <= 50 then gap + wait else if gap > wait + 50 then gap else wait + 50;
      TwoPassesRun(c, a, b, first, check, second, hold);
      var line := TwoPasses(a, b, first, check, second);
      assert Delayed(pair, line, wait);
      PairDiffers(pair, line);
      SameExactly(c, pair, line);
    }
  }

  lemma {:induction false} OneByteHeld(pair: seq<TimedByte>)
    requires |pair| == 2
    ensures HeldBy(pair[..1]) == [pair[0].value]
  {
    assert pair[..1] == [pair[0]];
    FeedAllOne(INITIAL, pair[0], 50);
  }

  lemma {:induction false} PairDiffers(pair: seq<TimedByte>, line: seq<LineItem>)
    requires |pair| == 2 && |line| == 4 && line[3].Rx? && HeldBy(pair[..1]) != []
    requires IdleSince(line[..3]).1 <==> pair[1].now - pair[0].tick <= 50
    ensures !Observes(pair, line)
  {
  }

  /** Where they part, for every ambiguous gap between reads and any two bytes: the MCU keeps collecting, Python starts again. */
  lemma {:induction false} LateRead(c: McuState, a: byte, b: byte, gap: int, hold: int)
    requires ValidMcu(c) && c.len == 0 && 50 < gap <= 50 + hold
    ensures var line := TwoPasses(a, b, 0, 50, gap);
            && InPasses(c, line, hold) && Reads(line) == Pair(a, b, gap)
            && RunLine(c, line).0.len == 2 && RunLine(c, line).0.mem[..2] == [a, b]
            && HeldBy(Reads(line)) == [b]
  {
    TwoPassesRun(c, a, b, 0, 50, gap, hold);
    PairHeld(Pair(a, b, gap));
    hide InPasses, Reads, HeldBy;
    var line := TwoPasses(a, b, 0, 50, gap);
    assert line[..3][..2][..1] == [Poll(0)] && line[..3][..2][..1][..0] == [];
    RunLineEmpty(c, line[..3][..2][..1][..0]);
    hide RunLine;
    RunLineLast(c, line[..3][..2][..1]);
    RunLineLast(c, line[..3][..2]);
    RunLineLast(c, line[..3]);
    RunLineLast(c, line);
  }

  lemma {:induction false} PairHeld(pair: seq<TimedByte>)
    requires |pair| == 2 && pair[1].now - pair[0].tick > 50
    ensures HeldBy(pair) == [pair[1].value]
  {
    FeedAllLast(INITIAL, pair, 50);
    assert pair[..1] == [pair[0]];
    FeedAllOne(INITIAL, pair[0], 50);
  }
}
