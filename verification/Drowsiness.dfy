/** The eye-closure counter of mpu/ai/drowsiness.py: +1 for a closed face, -2 clamped at 0 for an open one. */
module Drowsiness {

  const EAR_CONSEC_FRAMES: int := 15

  /** One step of the counter for one detected face. */
  function Step(counter: int, closed: bool): int {
    if closed then counter + 1
    else if counter - 2 > 0 then counter - 2 else 0
  }

  function Counter(history: seq<bool>): int {
    if history == [] then 0 else Step(Counter(history[..|history| - 1]), history[|history| - 1])
  }

  function Min(a: int, b: int): int {
    if a < b then a else b
  }

  /** The level a closed observation reports, if it reports one. */
  function Report(counter: int): seq<int> {
    if counter >= EAR_CONSEC_FRAMES then [Min(50 + counter * 2, 100)] else []
  }

  function Reports(history: seq<bool>): seq<int> {
    if history == [] then []
    else
      var n := |history| - 1;
      Reports(history[..n]) + if history[n] then Report(Counter(history)) else []
  }

  // ---- the independent reading: balances of suffixes ----

  /** Closed observations minus twice the open ones. */
  function Balance(run: seq<bool>): int {
    if run == [] then 0 else Balance(run[..|run| - 1]) + if run[|run| - 1] then 1 else -2
  }

  /**
   * The clamped counter is the largest balance of any suffix of the history, the empty one
   * included: it is reached by some suffix and exceeded by none.
   */
  lemma {:induction false} CounterIsMaxSuffix(history: seq<bool>)
    ensures exists k :: 0 <= k <= |history| && Balance(history[k..]) == Counter(history)
    ensures forall k :: 0 <= k <= |history| ==> Balance(history[k..]) <= Counter(history)
    decreases |history|
  {
    var n := |history| - 1;
    if history == [] {
      assert Balance(history[0..]) == Counter(history);
    } else {
      var before, last := history[..n], if history[n] then 1 else -2;
      CounterIsMaxSuffix(before);
      forall k | 0 <= k <= n ensures Balance(history[k..]) == Balance(before[k..]) + last {
        assert history[k..][..|history[k..]| - 1] == before[k..];
      }
      assert Balance(history[n + 1..]) == 0;
      var best :| 0 <= best <= n && Balance(before[best..]) == Counter(before);
      if Counter(before) + last >= 0 {
        assert Balance(history[best..]) == Counter(history);
      }
    }
  }

  /** A report is due exactly when some suffix has closed - 2 * open >= 15. */
  lemma {:induction false} ReportsIff(history: seq<bool>)
    ensures Report(Counter(history)) != []
       <==> exists k :: 0 <= k <= |history| && Balance(history[k..]) >= 15
  {
    CounterIsMaxSuffix(history);
  }

  /** `m` is the largest balance of any suffix. */
  ghost predicate LargestBalance(history: seq<bool>, m: int) {
    && (exists k :: 0 <= k <= |history| && Balance(history[k..]) == m)
    && (forall k :: 0 <= k <= |history| ==> Balance(history[k..]) <= m)
  }

  lemma {:induction false} LargestIsCounter(history: seq<bool>, m: int)
    requires LargestBalance(history, m)
    ensures m == Counter(history)
  {
    hide Counter, Balance;
    CounterIsMaxSuffix(history);
    var k :| 0 <= k <= |history| && Balance(history[k..]) == Counter(history);
    var j :| 0 <= j <= |history| && Balance(history[j..]) == m;
  }

  lemma {:induction false} ReportsLast(history: seq<bool>)
    requires history != []
    ensures var n := |history| - 1;
            Reports(history) == Reports(history[..n]) + if history[n] then Report(Counter(history)) else []
  {
  }

  /**
   * Which level is sent, told from the balances alone: at a closed observation whose
   * largest suffix balance is m, 50 + 2m for m of 15 to 25, 100 above, nothing below; at an
   * open one nothing.
   */
  lemma {:induction false} SentLevel(history: seq<bool>, m: int)
    requires history != [] && LargestBalance(history, m)
    ensures var n := |history| - 1;
            Reports(history) == Reports(history[..n])
              + if !history[n] || m < 15 then [] else if m <= 25 then [50 + 2 * m] else [100]
  {
    hide Reports, Counter, Balance, LargestBalance;
    LargestIsCounter(history, m);
    ReportsLast(history);
  }

  /** Eyes closed from the start for `n` observations: 80 at the 15th, two more each time, 100 from the 25th on. */
  lemma {:induction false} ClosedFromStart(n: nat)
    ensures Counter(seq(n, _ => true)) == n
    ensures Reports(seq(n, _ => true))
         == seq(if n < 15 then 0 else n - 14, i requires 0 <= i => if i <= 10 then 80 + 2 * i else 100)
    decreases n
  {
    if n > 0 {
      ClosedFromStart(n - 1);
      var before, now := seq(n - 1, _ => true), seq(n, _ => true);
      assert now == before + [true];
      ReportsExtend(before, true);
    }
  }

  /** Every level ever reported lies in 80..100 (and fits the one payload byte). */
  lemma {:induction false} ReportedLevels(history: seq<bool>)
    ensures forall level <- Reports(history) :: 80 <= level <= 100
    decreases |history|
  {
    if history != [] {
      ReportedLevels(history[..|history| - 1]);
    }
  }

  /** A video frame's detected faces: how many eyes were found in each. */
  type Faces = seq<nat>

  /** A face counts as closed with fewer than two eyes found. */
  function Observed(faces: Faces): (o: seq<bool>)
    ensures |o| == |faces| && forall i :: 0 <= i < |faces| ==> (o[i] <==> faces[i] == 0 || faces[i] == 1)
  {
    seq(|faces|, i requires 0 <= i < |faces| => faces[i] < 2)
  }

  function Observations(frames: seq<Faces>): seq<bool> {
    if frames == [] then [] else Observations(frames[..|frames| - 1]) + Observed(frames[|frames| - 1])
  }

  lemma {:induction false} ReportsExtend(history: seq<bool>, closed: bool)
    ensures Counter(history + [closed]) == Step(Counter(history), closed)
    ensures Reports(history + [closed])
         == Reports(history) + if closed then Report(Counter(history + [closed])) else []
  {
    assert (history + [closed])[..|history|] == history;
  }

  /** The capture loop of main(): the levels it sends, in order. */
  method Watch(frames: seq<Faces>) returns (sent: seq<int>, counter: int)
    ensures counter == Counter(Observations(frames))
    ensures sent == Reports(Observations(frames))
    ensures forall level <- sent :: 80 <= level <= 100
  {
    sent, counter := [], 0;
    assert Counter(Observations(frames[..0])) == 0 && Reports(Observations(frames[..0])) == [];
    hide Counter, Reports, Observations;
    for i := 0 to |frames|
      invariant counter == Counter(Observations(frames[..i])) && sent == Reports(Observations(frames[..i]))
    {
      sent, counter := WatchFaces(frames[i], sent, counter, Observations(frames[..i]));
      FrameStep(frames, i);
    }
    assert frames[..|frames|] == frames;
    ReportedLevels(Observations(frames));
  }

  /** Its loop over the faces of one frame, after the observations `past`. */
  method WatchFaces(faces: Faces, before: seq<int>, start: int, ghost past: seq<bool>) returns (sent: seq<int>, counter: int)
    requires start == Counter(past) && before == Reports(past)
    ensures counter == Counter(past + Observed(faces)) && sent == Reports(past + Observed(faces))
  {
    hide Counter, Reports;
    sent, counter := before, start;
    ghost var closed := Observed(faces);
    assert past + closed[..0] == past;
    for j := 0 to |faces|
      invariant counter == Counter(past + closed[..j]) && sent == Reports(past + closed[..j])
    {
      ReportsExtend(past + closed[..j], closed[j]);
      assert past + closed[..j + 1] == (past + closed[..j]) + [closed[j]];
      if faces[j] < 2 {
        counter := counter + 1;
        if counter >= EAR_CONSEC_FRAMES {
          sent := sent + [Min(50 + counter * 2, 100)];
        }
      } else {
        counter := if counter - 2 > 0 then counter - 2 else 0;
      }
    }
    assert closed[..|faces|] == closed;
  }

  lemma {:induction false} FrameStep(frames: seq<Faces>, i: nat)
    requires i < |frames|
    ensures Observations(frames[..i + 1]) == Observations(frames[..i]) + Observed(frames[i])
  {
    assert frames[..i + 1][..i] == frames[..i];
  }
}
