/**
 * What the frame reassembly does to an arbitrary timed byte stream, stated without the
 * parser: the stream is cut into segments, and the cut decides every emitted event.
 */
module Segmentation {
  import opened Bytes
  import opened Protocol
  import opened StreamParsing

  function Values(bytes: seq<TimedByte>): (s: seq<byte>)
    ensures |s| == |bytes| && forall i :: 0 <= i < |s| ==> s[i] == bytes[i].value
  {
    seq(|bytes|, i requires 0 <= i < |bytes| => bytes[i].value)
  }

  /** No two neighbouring bytes are more than `timeout` apart. */
  ghost predicate Steady(bytes: seq<TimedByte>, timeout: int) {
    forall k :: 0 < k < |bytes| ==> bytes[k].now - bytes[k - 1].tick <= timeout
  }

  /** A buffer at which the parser stops collecting: a bad length field, or a whole frame. */
  ghost predicate Closes(buf: seq<byte>) {
    (|buf| == HEADER_SIZE && !LengthOk(buf)) || Complete(buf)
  }

  /** The event a closed buffer yields: at most one, and none for a bad length or an invalid frame. */
  ghost function Outcome(buf: seq<byte>): seq<Event>
  {
    if |buf| >= HEADER_SIZE && LengthOk(buf) then ParseEvent(buf).ToOption().ToSeq() else []
  }

  /** A contiguous run of input bytes: either cut off by an idle gap, or closed by its own content. */
  datatype Segment = TimedOut(bytes: seq<TimedByte>) | Closed(bytes: seq<TimedByte>)

  ghost predicate Legal(g: Segment, timeout: int) {
    && g.bytes != [] && Steady(g.bytes, timeout)
    && (if g.TimedOut? then Incomplete(Values(g.bytes)) else Closes(Values(g.bytes)))
  }

  /**
   * `segs` followed by `rest` tile the input exactly, every segment is legal, an idle gap
   * follows each timed-out one, and `rest` is still being collected.
   */
  ghost predicate Tiles(input: seq<TimedByte>, segs: seq<Segment>, rest: seq<TimedByte>, timeout: int)
    decreases |segs|
  {
    if segs == [] then
      input == rest && Steady(rest, timeout) && Incomplete(Values(rest))
    else
      var n := |segs[0].bytes|;
      && Legal(segs[0], timeout)
      && n <= |input| && input[..n] == segs[0].bytes
      && (segs[0].TimedOut? ==> n < |input| && input[n].now - input[n - 1].tick > timeout)
      && Tiles(input[n..], segs[1..], rest, timeout)
  }

  ghost function Emitted(segs: seq<Segment>): seq<Event> {
    if segs == [] then []
    else (if segs[0].Closed? then Outcome(Values(segs[0].bytes)) else []) + Emitted(segs[1..])
  }

  /** The parser state while `rest` is being collected. */
  ghost function Collecting(rest: seq<TimedByte>): ParserState {
    ParserState(Values(rest), if rest == [] then None else Some(rest[|rest| - 1].tick))
  }

  // ---- three facts about feeding a steady run ----

  lemma PrefixIncomplete(a: seq<byte>, b: seq<byte>)
    requires Incomplete(a + b) || (Closes(a + b) && b != [])
    ensures Incomplete(a)
  {
    if |a| >= HEADER_SIZE {
      assert (a + b)[4..8] == a[4..8];
    }
  }

  /** A steady run that completes nothing is collected in full. */
  lemma {:induction false} Hold(s: ParserState, bytes: seq<TimedByte>, timeout: int)
    requires bytes != [] && Steady(bytes, timeout) && !Stale(s, bytes[0].now, timeout)
    requires Incomplete(s.buf + Values(bytes))
    ensures FeedAll(s, bytes, timeout)
         == (ParserState(s.buf + Values(bytes), Some(bytes[|bytes| - 1].tick)), [])
    decreases |bytes|
  {
    var n := |bytes| - 1;
    var held := s.buf + Values(bytes[..n]);
    assert s.buf + Values(bytes) == held + [bytes[n].value];
    PrefixIncomplete(held, [bytes[n].value]);
    if n > 0 {
      Hold(s, bytes[..n], timeout);
    } else {
      assert held == s.buf;
    }
    FeedAllLast(s, bytes, timeout);
    var (s1, events) := FeedAll(s, bytes[..n], timeout);
    assert !Stale(s1, bytes[n].now, timeout);
    assert Push(held, bytes[n].value) == (held + [bytes[n].value], None);
    assert events + [] == [];
  }

  lemma PushCloses(buf: seq<byte>, b: byte)
    requires Closes(buf + [b])
    ensures Push(buf, b).0 == [] && Push(buf, b).1.ToSeq() == Outcome(buf + [b])
  {
    var held := buf + [b];
    if LengthOk(held) {
      assert held[..Total(held)] == held;
    }
  }

  /** A steady run that reaches a closing buffer empties it and yields its outcome. */
  lemma {:induction false} RunToClose(s: ParserState, bytes: seq<TimedByte>, timeout: int)
    requires bytes != [] && Steady(bytes, timeout) && !Stale(s, bytes[0].now, timeout)
    requires Closes(s.buf + Values(bytes))
    ensures FeedAll(s, bytes, timeout) == (INITIAL, Outcome(s.buf + Values(bytes)))
  {
    var n := |bytes| - 1;
    var held := s.buf + Values(bytes[..n]);
    assert s.buf + Values(bytes) == held + [bytes[n].value];
    PrefixIncomplete(held, [bytes[n].value]);
    if n > 0 {
      Hold(s, bytes[..n], timeout);
    } else {
      assert held == s.buf;
    }
    PushCloses(held, bytes[n].value);
    FeedAllLast(s, bytes, timeout);
    assert [] + Outcome(held + [bytes[n].value]) == Outcome(held + [bytes[n].value]);
  }

  /** After an over-long gap the past does not matter. */
  lemma {:induction false} StaleRestart(s: ParserState, bytes: seq<TimedByte>, timeout: int)
    requires bytes != [] && (s.buf == [] || Stale(s, bytes[0].now, timeout))
    ensures FeedAll(s, bytes, timeout) == FeedAll(INITIAL, bytes, timeout)
  {
  }

  // ---- the two directions ----

  /** One legal segment, fed from scratch: what it emits and what it leaves behind. */
  lemma {:induction false} FeedSegment(g: Segment, timeout: int)
    requires Legal(g, timeout)
    ensures FeedAll(INITIAL, g.bytes, timeout).1 == (if g.Closed? then Outcome(Values(g.bytes)) else [])
    ensures FeedAll(INITIAL, g.bytes, timeout).0 == if g.Closed? then INITIAL else Collecting(g.bytes)
  {
    hide FeedAll, FeedOne;
    assert INITIAL.buf + Values(g.bytes) == Values(g.bytes);
    if g.TimedOut? {
      Hold(INITIAL, g.bytes, timeout);
    } else {
      RunToClose(INITIAL, g.bytes, timeout);
    }
  }

  /**
   * Completeness: any legal tiling of the input is the one the parser realises. It emits
   * exactly the valid frames among the closed segments, in order, and holds exactly `rest`.
   */
  lemma {:induction false} TilingDecides(
      s: ParserState, input: seq<TimedByte>, segs: seq<Segment>, rest: seq<TimedByte>, timeout: int)
    requires Tiles(input, segs, rest, timeout)
    requires s == INITIAL || (input != [] && Stale(s, input[0].now, timeout))
    ensures FeedAll(s, input, timeout) == (Collecting(rest), Emitted(segs))
    decreases |segs|
  {
    if input != [] {
      StaleRestart(s, input, timeout);
    }
    if segs == [] {
      assert INITIAL.buf + Values(rest) == Values(rest);
      if rest != [] {
        Hold(INITIAL, rest, timeout);
      }
    } else {
      hide FeedOne, FeedAll, Outcome, Steady, Closes, Incomplete;
      var g, later := segs[0], input[|segs[0].bytes|..];
      assert input == g.bytes + later;
      FeedSegment(g, timeout);
      FeedAllConcat(INITIAL, g.bytes, later, timeout);
      TilingDecides(FeedAll(INITIAL, g.bytes, timeout).0, later, segs[1..], rest, timeout);
    }
  }

  lemma {:induction false} TilesExtend(
      input: seq<TimedByte>, segs: seq<Segment>, rest: seq<TimedByte>,
      more: seq<TimedByte>, segs2: seq<Segment>, rest2: seq<TimedByte>, timeout: int)
    requires Tiles(input, segs, rest, timeout) && Tiles(rest + more, segs2, rest2, timeout)
    ensures Tiles(input + more, segs + segs2, rest2, timeout)
    decreases |segs|
  {
    hide Legal;
    if segs == [] {
      assert segs + segs2 == segs2;
    } else {
      var n := |segs[0].bytes|;
      assert (input + more)[n..] == input[n..] + more;
      assert (segs + segs2)[1..] == segs[1..] + segs2;
      TilesExtend(input[n..], segs[1..], rest, more, segs2, rest2, timeout);
    }
  }

  lemma OneMoreCloses(buf: seq<byte>, b: byte)
    requires Incomplete(buf) && !Incomplete(buf + [b])
    ensures Closes(buf + [b])
  {
    hide Be32;
    if |buf| >= HEADER_SIZE {
      assert (buf + [b])[4..8] == buf[4..8];
    }
  }

  lemma TilesOneMore(rest: seq<TimedByte>, b: TimedByte, timeout: int) returns (segs: seq<Segment>, rest2: seq<TimedByte>)
    requires Steady(rest, timeout) && Incomplete(Values(rest))
    ensures Tiles(rest + [b], segs, rest2, timeout)
  {
    var held := rest + [b];
    if rest != [] && b.now - rest[|rest| - 1].tick > timeout {
      segs, rest2 := [TimedOut(rest)], [b];
      assert held[..|rest|] == rest && held[|rest|..] == [b];
    } else if Incomplete(Values(held)) {
      segs, rest2 := [], held;
    } else {
      segs, rest2 := [Closed(held)], [];
      assert Values(held) == Values(rest) + [b.value];
      OneMoreCloses(Values(rest), b.value);
      hide Incomplete, Closes;
      assert held[..|held|] == held && held[|held|..] == [];
    }
  }

  lemma {:induction false} TilesRest(input: seq<TimedByte>, segs: seq<Segment>, rest: seq<TimedByte>, timeout: int)
    requires Tiles(input, segs, rest, timeout)
    ensures Steady(rest, timeout) && Incomplete(Values(rest))
    decreases |segs|
  {
    if segs != [] {
      TilesRest(input[|segs[0].bytes|..], segs[1..], rest, timeout);
    }
  }

  lemma {:induction false} Tile(input: seq<TimedByte>, timeout: int) returns (segs: seq<Segment>, rest: seq<TimedByte>)
    ensures Tiles(input, segs, rest, timeout)
    decreases |input|
  {
    if input == [] {
      return [], [];
    }
    hide Tiles, Incomplete, Steady;
    var n := |input| - 1;
    var segs1, rest1 := Tile(input[..n], timeout);
    TilesRest(input[..n], segs1, rest1, timeout);
    var segs2, rest2 := TilesOneMore(rest1, input[n], timeout);
    TilesExtend(input[..n], segs1, rest1, [input[n]], segs2, rest2, timeout);
    assert input == input[..n] + [input[n]];
    segs, rest := segs1 + segs2, rest2;
  }

  /**
   * Soundness on every timed byte stream: the input is tiled by segments and the held
   * bytes, every byte in exactly one of them, and the emitted events are the valid frames
   * among the closed segments, in order.
   */
  lemma Soundness(input: seq<TimedByte>, timeout: int) returns (segs: seq<Segment>, rest: seq<TimedByte>)
    ensures Tiles(input, segs, rest, timeout)
    ensures FeedAll(INITIAL, input, timeout) == (Collecting(rest), Emitted(segs))
  {
    segs, rest := Tile(input, timeout);
    TilingDecides(INITIAL, input, segs, rest, timeout);
  }
}
