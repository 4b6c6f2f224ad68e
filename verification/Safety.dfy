/**
 * The heartbeat-supervised safe state of MCU/src/safety.cpp as a timed state machine: a
 * restartable periodic timer, a hardware watchdog, and NORMAL/SAFE with recovery.
 */
module Safety {

  const HEARTBEAT_TIMEOUT_MS: nat := 100
  const WDT_TIMEOUT_MS: nat := 150

  /** The variables of safety.cpp, the timer's next expiry and the last watchdog feed. */
  datatype Monitor = Monitor(safe: bool, due: int, fed: int, warnings: nat, toggles: nat)

  /** What safety_init is given: timer period, watchdog time, readiness of the watchdog, CAN and LED. */
  datatype Setup = Setup(period: nat, watchdog: nat, ready: bool, hasCan: bool, hasLed: bool)

  function Booted(c: Setup, now: int): Monitor {
    Monitor(false, now + c.period, now, 0, 0)
  }

  function Warned(c: Setup, m: Monitor): Monitor {
    m.(warnings := if c.hasCan then m.warnings + 1 else m.warnings,
       toggles := if c.hasLed then m.toggles + 1 else m.toggles)
  }

  /** safety_timeout at the timer's expiry: entry in NORMAL, the maintenance branch in SAFE. Only the latter feeds. */
  function OnTimeout(c: Setup, m: Monitor): Monitor {
    var w := Warned(c, m).(due := m.due + c.period, safe := true);
    if m.safe && c.ready then w.(fed := m.due) else w
  }

  // The three steps of safety_kick_watchdog.

  function Fed(c: Setup, m: Monitor, now: int): Monitor {
    if c.ready then m.(fed := now) else m
  }

  function Rearmed(c: Setup, m: Monitor, now: int): Monitor {
    m.(due := now + c.period)
  }

  function Cleared(m: Monitor): Monitor {
    m.(safe := false)
  }

  class SafetyMonitor {
    const setup: Setup
    var safeState: bool
    var timerDue: int
    var wdtFed: int
    var warnings: nat
    var toggles: nat

    ghost function View(): Monitor
      reads this
    {
      Monitor(safeState, timerDue, wdtFed, warnings, toggles)
    }

    /** safety_init: the watchdog starts counting and the timer is armed. */
    constructor (setup: Setup, now: int)
      ensures this.setup == setup && View() == Booted(setup, now)
    {
      this.setup := setup;
      safeState, timerDue, wdtFed, warnings, toggles := false, now + setup.period, now, 0, 0;
    }

    method EnterSafeState()
      modifies this
      ensures View() == if old(safeState) then old(View()) else Warned(setup, old(View())).(safe := true)
    {
      if safeState {
        return;
      }
      safeState := true;
      if setup.hasCan {
        warnings := warnings + 1;
      }
      if setup.hasLed {
        toggles := toggles + 1;
      }
    }

    /** The periodic timer's callback; the timer itself re-arms for another period. */
    method Timeout()
      modifies this
      ensures View() == OnTimeout(setup, old(View()))
    {
      var now := timerDue;
      timerDue := timerDue + setup.period;
      if !safeState {
        EnterSafeState();
      } else {
        if setup.hasCan {
          warnings := warnings + 1;
        }
        if setup.hasLed {
          toggles := toggles + 1;
        }
        if setup.ready {
          wdtFed := now;
        }
      }
    }

    // safety_kick_watchdog and its three steps, each at the time it takes effect.

    method FeedWatchdog(now: int)
      modifies this
      ensures View() == Fed(setup, old(View()), now)
    {
      if setup.ready {
        wdtFed := now;
      }
    }

    method RestartTimer(now: int)
      modifies this
      ensures View() == Rearmed(setup, old(View()), now)
    {
      timerDue := now + setup.period;
    }

    method Recover()
      modifies this
      ensures View() == Cleared(old(View()))
    {
      if safeState {
        safeState := false;
      }
    }

    method KickWatchdog(feedAt: int, rearmAt: int)
      modifies this
      ensures View() == Cleared(Rearmed(setup, Fed(setup, old(View()), feedAt), rearmAt))
    {
      FeedWatchdog(feedAt);
      RestartTimer(rearmAt);
      Recover();
    }

    /** A whole run from boot, callbacks between the steps of a kick included: the run theorems hold of the object. */
    method Execute(run: seq<Event>, ghost stall: nat)
      requires View() == Booted(setup, 0) && IsRun(setup, stall, run)
      modifies this
      ensures View() == After(setup, run).m
    {
      hide After, IsRun, Enabled;
      EmptyRun(setup, stall);
      assert run[..0] == [];
      var now: nat := 0;
      for n := 0 to |run|
        invariant View() == After(setup, run[..n]).m && now == After(setup, run[..n]).now
      {
        Advance(setup, stall, run, n);
        match run[n]
        case Elapse => now := now + 1;
        case Feed => FeedWatchdog(now);
        case Rearm => RestartTimer(now);
        case Clear => Recover();
        case Fire => Timeout();
        case Expire =>
      }
      assert run[..|run|] == run;
    }
  }

  // ---- runs ----

  /** Where the SOME/IP thread stands in a kick: outside, after the feed, after re-arming the timer. */
  datatype Stage = Outside | AfterFeed | AfterRearm

  datatype State = State(m: Monitor, now: nat, stage: Stage, began: nat, expired: bool)

  /**
   * One event of a run. A kick is three events, with other events possible in between;
   * Elapse is one millisecond, Fire the timer callback, Expire the watchdog reset.
   */
  datatype Event = Elapse | Feed | Rearm | Clear | Fire | Expire

  /** Time cannot pass a due timer, a due watchdog, or a kick that has taken `stall` milliseconds. */
  predicate Enabled(c: Setup, stall: nat, s: State, e: Event) {
    !s.expired &&
    match e
    case Elapse =>
      && s.now < s.m.due
      && (c.ready ==> s.now < s.m.fed + c.watchdog)
      && (s.stage != Outside ==> s.now < s.began + stall)
    case Feed => s.stage == Outside
    case Rearm => s.stage == AfterFeed
    case Clear => s.stage == AfterRearm
    case Fire => s.now == s.m.due
    case Expire => c.ready && s.now == s.m.fed + c.watchdog
  }

  function Next(c: Setup, s: State, e: Event): State {
    match e
    case Elapse => s.(now := s.now + 1)
    case Feed => s.(m := Fed(c, s.m, s.now), stage := AfterFeed, began := s.now)
    case Rearm => s.(m := Rearmed(c, s.m, s.now), stage := AfterRearm)
    case Clear => s.(m := Cleared(s.m), stage := Outside)
    case Fire => s.(m := OnTimeout(c, s.m))
    case Expire => s.(expired := true)
  }

  function After(c: Setup, run: seq<Event>): State {
    if run == [] then State(Booted(c, 0), 0, Outside, 0, false)
    else Next(c, After(c, run[..|run| - 1]), run[|run| - 1])
  }

  predicate IsRun(c: Setup, stall: nat, run: seq<Event>) {
    run == [] ||
    var before := run[..|run| - 1];
    IsRun(c, stall, before) && Enabled(c, stall, After(c, before), run[|run| - 1])
  }

  /** One event of a run. */
  lemma {:induction false} Advance(c: Setup, stall: nat, run: seq<Event>, n: nat)
    requires IsRun(c, stall, run) && n < |run|
    ensures IsRun(c, stall, run[..n]) && Enabled(c, stall, After(c, run[..n]), run[n])
    ensures After(c, run[..n + 1]) == Next(c, After(c, run[..n]), run[n])
    decreases |run|
  {
    hide Enabled, Next;
    var k := |run| - 1;
    if n < k {
      Advance(c, stall, run[..k], n);
      assert run[..k][..n] == run[..n] && run[..k][..n + 1] == run[..n + 1];
    } else {
      assert run[..n + 1] == run;
    }
  }

  // ---- what an observer of the events can say ----

  function Time(run: seq<Event>): nat {
    if run == [] then 0 else Time(run[..|run| - 1]) + if run[|run| - 1] == Elapse then 1 else 0
  }

  /** When the timer was last armed by boot or a kick. */
  function LastRearm(run: seq<Event>): (t: nat)
    ensures t <= Time(run)
  {
    if run == [] then 0
    else if run[|run| - 1] == Rearm then Time(run)
    else LastRearm(run[..|run| - 1])
  }

  /** The time of the last kick's feed, or of boot. */
  function LastFeed(run: seq<Event>): (t: nat)
    ensures t <= Time(run)
  {
    if run == [] then 0
    else if run[|run| - 1] == Feed then Time(run)
    else LastFeed(run[..|run| - 1])
  }

  /** Timer expiries since it was last armed. */
  function FiresSince(run: seq<Event>): nat {
    if run == [] || run[|run| - 1] == Rearm then 0
    else FiresSince(run[..|run| - 1]) + if run[|run| - 1] == Fire then 1 else 0
  }

  function Count(run: seq<Event>, e: Event): nat {
    if run == [] then 0 else Count(run[..|run| - 1], e) + if run[|run| - 1] == e then 1 else 0
  }

  /** Milliseconds since the timer was last armed. */
  function Silence(run: seq<Event>): nat {
    Time(run) - LastRearm(run)
  }

  // ---- exactness ----

  /** What the events tell about the state: `armed` the last arming, `fires` the expiries since then, `all` in total. */
  predicate Exact(c: Setup, stall: nat, s: State, armed: nat, fires: nat, all: nat) {
    && s.m.due == armed + (fires + 1) * c.period
    && armed + fires * c.period <= s.now <= s.m.due
    && (s.stage != AfterRearm ==> (s.m.safe <==> fires > 0))
    && (s.stage == AfterRearm ==> fires == 0 && s.began <= armed)
    && (s.stage != Outside ==> s.began <= s.now <= s.began + stall && (c.ready ==> s.m.fed >= s.began))
    && s.m.warnings == (if c.hasCan then all else 0) && s.m.toggles == (if c.hasLed then all else 0)
  }

  lemma ExactStep(c: Setup, stall: nat, s: State, e: Event, armed: nat, fires: nat, all: nat)
    requires 0 < c.period && stall < c.period && Enabled(c, stall, s, e)
    requires Exact(c, stall, s, armed, fires, all)
    ensures var t := Next(c, s, e);
            Exact(c, stall, t, if e == Rearm then t.now else armed,
                  if e == Rearm then 0 else if e == Fire then fires + 1 else fires,
                  if e == Fire then all + 1 else all)
  {
    var h := c.period;
    assert (fires + 1) * h == fires * h + h;
    assert (fires + 2) * h == fires * h + 2 * h;
  }

  lemma EventTold(c: Setup, run: seq<Event>)
    requires run != []
    ensures var before, e := run[..|run| - 1], run[|run| - 1];
            && After(c, run) == Next(c, After(c, before), e)
            && LastRearm(run) == (if e == Rearm then Time(run) else LastRearm(before))
            && FiresSince(run) == (if e == Rearm then 0 else if e == Fire then FiresSince(before) + 1 else FiresSince(before))
            && Count(run, Fire) == (if e == Fire then Count(before, Fire) + 1 else Count(before, Fire))
  {
  }

  lemma {:induction false} Clock(c: Setup, run: seq<Event>)
    ensures After(c, run).now == Time(run)
    decreases |run|
  {
    if run != [] {
      Clock(c, run[..|run| - 1]);
    }
  }

  lemma {:induction false} RunExact(c: Setup, stall: nat, run: seq<Event>)
    requires 0 < c.period && stall < c.period && IsRun(c, stall, run)
    ensures Exact(c, stall, After(c, run), LastRearm(run), FiresSince(run), Count(run, Fire))
    decreases |run|
  {
    if run == [] {
      assert 0 * c.period == 0;
    } else {
      hide Exact, Next, Enabled, After, LastRearm, FiresSince, Count, Time;
      var before := run[..|run| - 1];
      RunExact(c, stall, before);
      ExactStep(c, stall, After(c, before), run[|run| - 1], LastRearm(before), FiresSince(before), Count(before, Fire));
      EventTold(c, run);
      Clock(c, run);
    }
  }

  /** Whether the timer had expired when it was last re-armed: what the kick under way is about to clear. */
  function ExpiredBefore(run: seq<Event>): bool {
    run != [] &&
    if run[|run| - 1] == Rearm then FiresSince(run[..|run| - 1]) > 0 else ExpiredBefore(run[..|run| - 1])
  }

  lemma MidKickStep(c: Setup, stall: nat, s: State, e: Event, armed: nat, fires: nat, all: nat, was: bool)
    requires 0 < c.period && stall < c.period && Enabled(c, stall, s, e) && Exact(c, stall, s, armed, fires, all)
    requires s.stage == AfterRearm ==> (s.m.safe <==> was)
    ensures var t := Next(c, s, e); t.stage == AfterRearm ==> (t.m.safe <==> if e == Rearm then fires > 0 else was)
  {
    assert (fires + 1) * c.period == fires * c.period + c.period;
  }

  /** Between re-arming and clearing the flag still says what it said before the kick. */
  lemma {:induction false} MidKickExact(c: Setup, stall: nat, run: seq<Event>)
    requires 0 < c.period && stall < c.period && IsRun(c, stall, run)
    ensures After(c, run).stage == AfterRearm ==> (After(c, run).m.safe <==> ExpiredBefore(run))
    decreases |run|
  {
    if run != [] {
      hide Exact, Next, Enabled, LastRearm, FiresSince, Count, Time;
      var before, e := run[..|run| - 1], run[|run| - 1];
      RunExact(c, stall, before);
      MidKickExact(c, stall, before);
      MidKickStep(c, stall, After(c, before), e, LastRearm(before), FiresSince(before), Count(before, Fire), ExpiredBefore(before));
    }
  }

  /**
   * Over every run: the state is SAFE iff the timer has expired since it was last armed (or
   * had before, while the kick that re-armed it has yet to clear the state),
   * the n-th expiry comes exactly n periods after that, so a silence of length d has seen
   * d / period of them (one less while the expiry of this very instant is pending), and
   * every expiry attempts one warning frame and toggles the LED once, where there are any.
   */
  lemma {:induction false} SafeStateExact(c: Setup, stall: nat, run: seq<Event>)
    requires 0 < c.period && stall < c.period && IsRun(c, stall, run)
    ensures var s, n := After(c, run), FiresSince(run);
            && (s.m.safe <==> if s.stage == AfterRearm then ExpiredBefore(run) else n > 0)
            && s.m.due == LastRearm(run) + (n + 1) * c.period
            && n == (if s.now == s.m.due then Silence(run) / c.period - 1 else Silence(run) / c.period)
            && s.m.warnings == (if c.hasCan then Count(run, Fire) else 0)
            && s.m.toggles == (if c.hasLed then Count(run, Fire) else 0)
  {
    hide IsRun, After, LastRearm, FiresSince, Count, ExpiredBefore;
    RunExact(c, stall, run);
    MidKickExact(c, stall, run);
    Clock(c, run);
    Quotient(FiresSince(run), Silence(run), c.period);
  }

  /** The last time the watchdog was fed, told from the events: by a kick, or by an expiry that was not the first since the timer was armed. */
  function LastFeeding(run: seq<Event>): nat {
    if run == [] then 0
    else
      var before := run[..|run| - 1];
      if run[|run| - 1] == Feed || (run[|run| - 1] == Fire && FiresSince(before) > 0) then Time(run) else LastFeeding(before)
  }

  /** Over every run: kicks feed the watchdog, so do the expiries in SAFE, and nothing else does; without one it is never fed. */
  lemma {:induction false} FeedingExact(c: Setup, stall: nat, run: seq<Event>)
    requires 0 < c.period && stall < c.period && IsRun(c, stall, run)
    ensures After(c, run).m.fed == if c.ready then LastFeeding(run) else 0
    decreases |run|
  {
    if run != [] {
      hide Exact, LastRearm, FiresSince, Count, Time;
      var before, e := run[..|run| - 1], run[|run| - 1];
      FeedingExact(c, stall, before);
      RunExact(c, stall, before);
      FeedingStep(c, stall, After(c, before), e, LastRearm(before), FiresSince(before), Count(before, Fire));
      Clock(c, before);
      Clock(c, run);
    }
  }

  lemma FeedingStep(c: Setup, stall: nat, s: State, e: Event, armed: nat, fires: nat, all: nat)
    requires 0 < c.period && stall < c.period && Enabled(c, stall, s, e) && Exact(c, stall, s, armed, fires, all)
    ensures Next(c, s, e).m.fed == if c.ready && (e == Feed || (e == Fire && fires > 0)) then s.now else s.m.fed
    ensures e == Feed || e == Fire ==> Next(c, s, e).now == s.now
  {
    assert (fires + 1) * c.period == fires * c.period + c.period;
  }

  lemma Quotient(n: nat, d: nat, h: nat)
    requires 0 < h && n * h <= d <= (n + 1) * h
    ensures d / h == if d == (n + 1) * h then n + 1 else n
  {
    assert (n + 1) * h == n * h + h;
    if d == (n + 1) * h {
      DivideExact(n + 1, 0, h);
    } else {
      DivideExact(n, d - n * h, h);
    }
  }

  lemma DivideExact(q: nat, r: nat, h: nat)
    requires r < h
    ensures (q * h + r) / h == q
  {
    var x, y := (q * h + r) / h, (q * h + r) % h;
    assert q * h + r == x * h + y;
    if q > x {
      Apart(q, x, h);
    } else if x > q {
      Apart(x, q, h);
    }
  }

  lemma Apart(a: nat, b: nat, h: nat)
    requires a > b
    ensures a * h >= b * h + h
  {
    assert a * h == b * h + (a - b) * h;
    assert (a - b) * h == (a - b - 1) * h + h;
  }

  // ---- kicks in time ----

  /** At every instant of the run the timer was armed less than a period ago. */
  predicate AlwaysRecent(c: Setup, run: seq<Event>) {
    forall n :: 0 <= n <= |run| ==> Silence(run[..n]) < c.period
  }

  /**
   * A watchdog feed is never older than the last arming, minus the stall: with
   * period + stall <= watchdog, kicks less than a period apart never enter SAFE, never
   * send a warning and never expire the watchdog.
   */
  lemma {:induction false} TimelyKicksStayNormal(c: Setup, stall: nat, run: seq<Event>)
    requires 0 < c.period && c.period + stall <= c.watchdog && stall < c.period
    requires IsRun(c, stall, run) && AlwaysRecent(c, run)
    ensures var s := After(c, run);
            !s.m.safe && !s.expired && Count(run, Fire) == 0 && (c.ready ==> s.m.fed + stall >= LastRearm(run))
    decreases |run|
  {
    if run != [] {
      var n := |run| - 1;
      var before, e := run[..n], run[n];
      assert forall k :: 0 <= k <= n ==> before[..k] == run[..k];
      assert Silence(run[..n]) < c.period;
      hide Exact, Next, Enabled, After, LastRearm, FiresSince, Count, Time;
      TimelyKicksStayNormal(c, stall, before);
      RunExact(c, stall, before);
      Clock(c, before);
      TimelyStep(c, stall, After(c, before), e, LastRearm(before), FiresSince(before), Count(before, Fire));
      EventTold(c, run);
      Clock(c, run);
    }
  }

  lemma TimelyStep(c: Setup, stall: nat, s: State, e: Event, armed: nat, fires: nat, all: nat)
    requires 0 < c.period && c.period + stall <= c.watchdog && stall < c.period
    requires Enabled(c, stall, s, e) && Exact(c, stall, s, armed, fires, all)
    requires armed <= s.now < armed + c.period && !s.m.safe && !s.expired && (c.ready ==> s.m.fed + stall >= armed)
    ensures e != Fire && e != Expire
    ensures var t := Next(c, s, e);
            !t.m.safe && !t.expired && (c.ready ==> t.m.fed + stall >= if e == Rearm then t.now else armed)
  {
  }

  /** The times of the kicks, taken at their feeds. */
  function FeedTimes(run: seq<Event>): seq<nat> {
    if run == [] then []
    else FeedTimes(run[..|run| - 1]) + if run[|run| - 1] == Feed then [Time(run)] else []
  }

  /** At every instant the last feed is less than `period - stall` ago. */
  predicate AlwaysFed(c: Setup, stall: nat, run: seq<Event>) {
    forall n :: 0 <= n <= |run| ==> Time(run[..n]) - LastFeed(run[..n]) + stall < c.period
  }

  /** How far re-arming lags behind feeding: while a kick is under way the timer was last armed after the feed before it. */
  predicate Lags(c: Setup, stall: nat, s: State, armed: nat, fed: nat) {
    && (s.stage == Outside ==> armed >= fed)
    && (s.stage == AfterRearm ==> armed >= fed)
    && (s.stage == AfterFeed ==> fed == s.began && s.now <= fed + stall && armed + c.period > fed + stall)
  }

  lemma LagsStep(c: Setup, stall: nat, s: State, e: Event, armed: nat, fed: nat)
    requires Enabled(c, stall, s, e) && Lags(c, stall, s, armed, fed) && armed <= s.now && fed <= s.now
    requires s.now - fed + stall < c.period
    ensures Lags(c, stall, Next(c, s, e), if e == Rearm then s.now else armed, if e == Feed then s.now else fed)
  {
  }

  /** Feeds less than `period - stall` apart keep the timer re-armed in time. */
  lemma {:induction false} FedIsRecent(c: Setup, stall: nat, run: seq<Event>)
    requires 0 < c.period && stall < c.period && IsRun(c, stall, run) && AlwaysFed(c, stall, run)
    ensures Lags(c, stall, After(c, run), LastRearm(run), LastFeed(run))
    ensures Silence(run) < c.period
    decreases |run|
  {
    if run != [] {
      hide Enabled, Next, Lags, After, LastRearm, LastFeed, Time;
      var n := |run| - 1;
      var before, e := run[..n], run[n];
      assert forall k :: 0 <= k <= n ==> before[..k] == run[..k];
      assert run[..n + 1] == run;
      FedIsRecent(c, stall, before);
      Clock(c, before);
      Clock(c, run);
      Advance(c, stall, run, n);
      LagsStep(c, stall, After(c, before), e, LastRearm(before), LastFeed(before));
      LastsNext(c, run);
    }
    LagBound(c, stall, run);
  }

  lemma {:induction false} LastsNext(c: Setup, run: seq<Event>)
    requires run != []
    ensures LastRearm(run) == if run[|run| - 1] == Rearm then Time(run) else LastRearm(run[..|run| - 1])
    ensures LastFeed(run) == if run[|run| - 1] == Feed then Time(run) else LastFeed(run[..|run| - 1])
    ensures run[|run| - 1] != Elapse ==> Time(run) == Time(run[..|run| - 1])
  {
  }

  lemma {:induction false} LagBound(c: Setup, stall: nat, run: seq<Event>)
    requires Lags(c, stall, After(c, run), LastRearm(run), LastFeed(run))
    requires Time(run) - LastFeed(run) + stall < c.period
    ensures Silence(run) < c.period
  {
    Clock(c, run);
  }

  lemma {:induction false} FedIsAlwaysRecent(c: Setup, stall: nat, run: seq<Event>)
    requires 0 < c.period && stall < c.period && IsRun(c, stall, run) && AlwaysFed(c, stall, run)
    ensures AlwaysRecent(c, run)
  {
    hide Time, LastFeed, LastRearm, IsRun;
    forall n | 0 <= n <= |run| ensures Silence(run[..n]) < c.period {
      assert forall k :: 0 <= k <= n ==> run[..n][..k] == run[..k];
      RunPrefixes(c, stall, run, n);
      FedIsRecent(c, stall, run[..n]);
    }
  }

  lemma {:induction false} RunPrefixes(c: Setup, stall: nat, run: seq<Event>, n: nat)
    requires IsRun(c, stall, run) && n <= |run|
    ensures IsRun(c, stall, run[..n])
  {
    if n < |run| {
      Advance(c, stall, run, n);
    } else {
      assert run[..n] == run;
    }
  }

  /** The run's feeds so far are the first of the times `kicks`, and the next one is not overdue. */
  predicate KickedAt(run: seq<Event>, kicks: seq<int>) {
    var n := |FeedTimes(run)|;
    && n <= |kicks| && (forall i :: 0 <= i < n ==> FeedTimes(run)[i] == kicks[i])
    && (n < |kicks| ==> Time(run) <= kicks[n])
  }

  /** The first kick comes soon after boot, each next one soon after its predecessor, and `end` soon after the last. */
  predicate InTime(kicks: seq<int>, end: int, within: int) {
    && kicks != [] && kicks[0] < within
    && (forall i :: 0 < i < |kicks| ==> kicks[i] - kicks[i - 1] < within)
    && end - kicks[|kicks| - 1] < within
  }

  lemma {:induction false} FeedTimesPrefix(run: seq<Event>, n: nat)
    requires n <= |run|
    ensures var m := |FeedTimes(run[..n])|;
            && m <= |FeedTimes(run)| && FeedTimes(run[..n]) == FeedTimes(run)[..m]
            && (m < |FeedTimes(run)| ==> Time(run[..n]) <= FeedTimes(run)[m])
            && Time(run[..n]) <= Time(run)
    decreases |run|
  {
    var k := |run| - 1;
    if n <= k {
      FeedTimesPrefix(run[..k], n);
      assert run[..k][..n] == run[..n];
    } else {
      assert run[..n] == run;
    }
  }

  lemma {:induction false} LastFeedTime(run: seq<Event>)
    ensures LastFeed(run) == if FeedTimes(run) == [] then 0 else FeedTimes(run)[|FeedTimes(run)| - 1]
    decreases |run|
  {
    if run != [] {
      LastFeedTime(run[..|run| - 1]);
    }
  }

  lemma {:induction false} KickedInTime(c: Setup, stall: nat, run: seq<Event>, kicks: seq<int>)
    requires KickedAt(run, kicks) && InTime(kicks, Time(run), c.period - stall)
    ensures AlwaysFed(c, stall, run)
  {
    hide FeedTimes, Time, LastFeed;
    forall n | 0 <= n <= |run| ensures Time(run[..n]) - LastFeed(run[..n]) + stall < c.period {
      FeedTimesPrefix(run, n);
      LastFeedTime(run[..n]);
      var m := |FeedTimes(run[..n])|;
      assert m > 0 ==> FeedTimes(run[..n])[m - 1] == kicks[m - 1];
      assert m < |kicks| ==> Time(run[..n]) <= kicks[m];
    }
  }

  // ---- the watchdog bound ----

  ghost predicate NeverExpires(c: Setup, stall: nat) {
    forall run :: IsRun(c, stall, run) ==> !After(c, run).expired
  }

  /** The next feed of the SAFE branch is due early enough: one expiry after entry, two before it. */
  predicate FeedInSight(c: Setup, stall: nat, s: State) {
    s.m.due <= s.m.fed + stall + if s.m.safe && s.stage != AfterRearm then 2 * c.period else c.period
  }

  lemma FeedInSightStep(c: Setup, stall: nat, s: State, e: Event, armed: nat, fires: nat, all: nat)
    requires c.ready && 0 < c.period && stall < c.period && 2 * c.period + stall < c.watchdog
    requires Enabled(c, stall, s, e) && Exact(c, stall, s, armed, fires, all) && FeedInSight(c, stall, s)
    ensures e != Expire && FeedInSight(c, stall, Next(c, s, e))
  {
    assert (fires + 1) * c.period == fires * c.period + c.period;
  }

  lemma {:induction false} SurvivesAll(c: Setup, stall: nat, run: seq<Event>)
    requires c.ready && 0 < c.period && stall < c.period && 2 * c.period + stall < c.watchdog
    requires IsRun(c, stall, run)
    ensures !After(c, run).expired && FeedInSight(c, stall, After(c, run))
    decreases |run|
  {
    if run != [] {
      hide Exact, Enabled, FeedInSight, LastRearm, FiresSince, Count;
      var before := run[..|run| - 1];
      SurvivesAll(c, stall, before);
      RunExact(c, stall, before);
      FeedInSightStep(c, stall, After(c, before), run[|run| - 1], LastRearm(before), FiresSince(before), Count(before, Fire));
    }
  }

  // Building runs.

  function Elapses(n: nat): (es: seq<Event>)
    ensures |es| == n
  {
    seq(n, _ => Elapse)
  }

  lemma {:induction false} Extend(c: Setup, stall: nat, run: seq<Event>, e: Event)
    requires IsRun(c, stall, run) && Enabled(c, stall, After(c, run), e)
    ensures IsRun(c, stall, run + [e]) && After(c, run + [e]) == Next(c, After(c, run), e)
  {
    assert (run + [e])[..|run|] == run;
  }

  /** Waiting: time may pass up to the next due timer, watchdog or end of a stall. */
  lemma {:induction false} Wait(c: Setup, stall: nat, run: seq<Event>, n: nat)
    requires IsRun(c, stall, run)
    requires var s := After(c, run);
             && !s.expired && s.now + n <= s.m.due && (c.ready ==> s.now + n <= s.m.fed + c.watchdog)
             && (s.stage != Outside ==> s.now + n <= s.began + stall)
    ensures IsRun(c, stall, run + Elapses(n))
    ensures After(c, run + Elapses(n)) == After(c, run).(now := After(c, run).now + n)
    decreases n
  {
    hide Next, IsRun, After;
    if n == 0 {
      assert run + Elapses(0) == run;
    } else {
      Wait(c, stall, run, n - 1);
      var longer := run + Elapses(n - 1);
      Extend(c, stall, longer, Elapse);
      ElapseNext(c, After(c, longer));
      assert longer + [Elapse] == run + Elapses(n);
    }
  }

  lemma ElapseNext(c: Setup, s: State)
    ensures Next(c, s, Elapse) == s.(now := s.now + 1)
  {
  }

  /** A kick at boot that stalls for as long as it may. */
  lemma StalledKick(c: Setup, stall: nat) returns (run: seq<Event>)
    requires c.ready && 0 < c.period && stall < c.period && stall < c.watchdog
    ensures IsRun(c, stall, run)
    ensures After(c, run) == State(Monitor(false, stall + c.period, 0, 0, 0), stall, Outside, 0, false)
  {
    hide IsRun, After, Elapses;
    EmptyRun(c, stall);
    Extend(c, stall, [], Feed);
    run := [] + [Feed];
    assert After(c, run) == State(Monitor(false, c.period, 0, 0, 0), 0, AfterFeed, 0, false);
    Wait(c, stall, run, stall);
    run := run + Elapses(stall);
    assert After(c, run) == State(Monitor(false, c.period, 0, 0, 0), stall, AfterFeed, 0, false);
    Extend(c, stall, run, Rearm);
    run := run + [Rearm];
    assert After(c, run) == State(Monitor(false, stall + c.period, 0, 0, 0), stall, AfterRearm, 0, false);
    Extend(c, stall, run, Clear);
    run := run + [Clear];
  }

  /** A kick, then silence: with watchdog <= 2 * period + stall the reset comes before the first SAFE feed. */
  lemma SilenceExpires(c: Setup, stall: nat) returns (run: seq<Event>)
    requires c.ready && 0 < c.period && stall < c.period && c.watchdog <= 2 * c.period + stall
    ensures IsRun(c, stall, run) && After(c, run).expired
  {
    hide IsRun, After;
    var h, w := c.period, c.watchdog;
    if w <= stall {
      EmptyRun(c, stall);
      Wait(c, stall, [], w);
      run := [] + Elapses(w);
    } else {
      run := StalledKick(c, stall);
      if w <= stall + h {
        Wait(c, stall, run, w - stall);
        run := run + Elapses(w - stall);
      } else {
        Wait(c, stall, run, h);
        run := run + Elapses(h);
        Extend(c, stall, run, Fire);
        run := run + [Fire];
        Wait(c, stall, run, w - stall - h);
        run := run + Elapses(w - stall - h);
      }
    }
    Extend(c, stall, run, Expire);
    run := run + [Expire];
  }

  lemma {:induction false} EmptyRun(c: Setup, stall: nat)
    ensures IsRun(c, stall, []) && After(c, []) == State(Booted(c, 0), 0, Outside, 0, false)
  {
  }

  /**
   * The watchdog bound, parametric in the timer period, the watchdog time and the longest
   * stall inside a kick: no run ever resets exactly when 2 * period + stall < watchdog,
   * because SAFE entry does not feed and the first SAFE feed comes one period later.
   */
  lemma WatchdogBound(c: Setup, stall: nat)
    requires c.ready && 0 < c.period && stall < c.period
    ensures NeverExpires(c, stall) <==> 2 * c.period + stall < c.watchdog
  {
    hide IsRun, After;
    if 2 * c.period + stall < c.watchdog {
      forall run | IsRun(c, stall, run) ensures !After(c, run).expired {
        SurvivesAll(c, stall, run);
      }
    } else {
      var run := SilenceExpires(c, stall);
    }
  }

  // ---- the SAFE branch of the timeout ----

  /** What holds while the SAFE branch has never run: only kicks feed the watchdog. */
  predicate OnlyKicksFeed(c: Setup, s: State, armed: nat, lastFeed: nat) {
    && s.m.fed == lastFeed && s.now <= s.m.fed + c.watchdog
    && (s.expired ==> s.now == s.m.fed + c.watchdog)
    && (if s.stage == AfterFeed then lastFeed == s.began <= armed + c.watchdog else lastFeed <= armed)
  }

  lemma OnlyKicksFeedStep(c: Setup, stall: nat, s: State, e: Event, armed: nat, fires: nat, all: nat, lastFeed: nat)
    requires c.ready && 0 < c.period && stall < c.period && c.watchdog + stall < 2 * c.period
    requires Enabled(c, stall, s, e) && Exact(c, stall, s, armed, fires, all) && OnlyKicksFeed(c, s, armed, lastFeed)
    ensures e == Fire ==> !s.m.safe && fires == 0
    ensures OnlyKicksFeed(c, Next(c, s, e), if e == Rearm then s.now else armed, if e == Feed then s.now else lastFeed)
  {
    Periods(fires, c.period);
    hide Exact;
    NoSecondFire(c, stall, s, e, armed, fires, all, lastFeed);
  }

  lemma Periods(n: nat, h: nat)
    ensures (n + 1) * h == n * h + h && n * h >= 0
    ensures n > 0 ==> n * h >= h
  {
  }

  /** A timer that has expired does not expire again: the watchdog is due first. */
  lemma NoSecondFire(c: Setup, stall: nat, s: State, e: Event, armed: nat, fires: nat, all: nat, lastFeed: nat)
    requires c.ready && 0 < c.period && stall < c.period && c.watchdog + stall < 2 * c.period
    requires Enabled(c, stall, s, e) && Exact(c, stall, s, armed, fires, all) && OnlyKicksFeed(c, s, armed, lastFeed)
    ensures e == Fire ==> !s.m.safe && fires == 0
    ensures armed <= s.now && (s.stage == AfterFeed ==> s.began <= s.now <= s.began + stall)
  {
    Periods(fires, c.period);
  }

  lemma {:induction false} RunOnlyKicksFeed(c: Setup, stall: nat, run: seq<Event>)
    requires c.ready && 0 < c.period && stall < c.period && c.watchdog + stall < 2 * c.period
    requires IsRun(c, stall, run)
    ensures OnlyKicksFeed(c, After(c, run), LastRearm(run), LastFeed(run)) && FiresSince(run) <= 1
    ensures Count(run, Fire) > 0 && run[|run| - 1] == Fire ==> !After(c, run[..|run| - 1]).m.safe
    decreases |run|
  {
    if run != [] {
      hide Exact, Next, Enabled, OnlyKicksFeed, After, LastRearm, FiresSince, Count, Time;
      var before, e := run[..|run| - 1], run[|run| - 1];
      RunOnlyKicksFeed(c, stall, before);
      RunExact(c, stall, before);
      OnlyKicksFeedStep(c, stall, After(c, before), e, LastRearm(before), FiresSince(before), Count(before, Fire), LastFeed(before));
      EventTold(c, run);
      Clock(c, before);
      Clock(c, run);
      FeedKeepsTime(c, After(c, before), e);
    }
  }

  lemma FeedKeepsTime(c: Setup, s: State, e: Event)
    ensures e == Feed || e == Rearm ==> Next(c, s, e).now == s.now
  {
  }

  /** Whether the maintenance branch of safety_timeout is the last thing that happened in the run. */
  predicate RanSafeBranch(c: Setup, run: seq<Event>) {
    run != [] && run[|run| - 1] == Fire && After(c, run[..|run| - 1]).m.safe
  }

  /** SAFE entry, a feed that comes as late as the watchdog allows, and a stalled kick. */
  lemma LateKick(c: Setup, stall: nat) returns (run: seq<Event>)
    requires c.ready && 0 < c.period && stall < c.period && 2 * c.period <= c.watchdog + stall
    ensures IsRun(c, stall, run) && RanSafeBranch(c, run)
  {
    hide IsRun, After;
    var h := c.period;
    var k := if c.watchdog < 2 * h then c.watchdog else 2 * h;
    EmptyRun(c, stall);
    Wait(c, stall, [], h);
    run := [] + Elapses(h);
    Extend(c, stall, run, Fire);
    run := run + [Fire];
    Wait(c, stall, run, k - h);
    run := run + Elapses(k - h);
    Extend(c, stall, run, Feed);
    run := run + [Feed];
    Wait(c, stall, run, 2 * h - k);
    run := run + Elapses(2 * h - k);
    Extend(c, stall, run, Fire);
    assert (run + [Fire])[..|run|] == run;
    run := run + [Fire];
  }

  /**
   * With the watchdog ready, the branch that is to keep the watchdog fed in SAFE runs in
   * some run exactly when 2 * period <= watchdog + stall.
   */
  lemma SafeBranchIff(c: Setup, stall: nat)
    requires c.ready && 0 < c.period && stall < c.period
    ensures (exists run :: IsRun(c, stall, run) && RanSafeBranch(c, run)) <==> 2 * c.period <= c.watchdog + stall
  {
    hide IsRun, After;
    if 2 * c.period <= c.watchdog + stall {
      var run := LateKick(c, stall);
    } else {
      forall run | IsRun(c, stall, run) ensures !RanSafeBranch(c, run) {
        RunOnlyKicksFeed(c, stall, run);
        FireCounts(run);
      }
    }
  }

  lemma {:induction false} FireCounts(run: seq<Event>)
    ensures run != [] && run[|run| - 1] == Fire ==> Count(run, Fire) > 0
  {
  }

  /** A run lasts at most one watchdog time per kick, plus one. */
  lemma {:induction false} TimePerKick(c: Setup, stall: nat, run: seq<Event>)
    requires c.ready && 0 < c.period && stall < c.period && c.watchdog + stall < 2 * c.period
    requires IsRun(c, stall, run)
    ensures Time(run) <= LastFeed(run) + c.watchdog
    ensures LastFeed(run) <= Count(run, Feed) * c.watchdog
    ensures Time(run) <= (Count(run, Feed) + 1) * c.watchdog
    decreases |run|
  {
    hide IsRun, After;
    RunOnlyKicksFeed(c, stall, run);
    Clock(c, run);
    if run != [] {
      var before := run[..|run| - 1];
      RunPrefix(c, stall, run);
      TimePerKick(c, stall, before);
    }
    assert (Count(run, Feed) + 1) * c.watchdog == Count(run, Feed) * c.watchdog + c.watchdog;
  }

  lemma {:induction false} RunPrefix(c: Setup, stall: nat, run: seq<Event>)
    requires IsRun(c, stall, run) && run != []
    ensures IsRun(c, stall, run[..|run| - 1])
  {
  }

  /**
   * The shipped configuration, 100 ms period and 150 ms watchdog, fails the documented
   * "keep the watchdog fed in SAFE": if a kick never stalls for 50 ms, the SAFE branch
   * never runs, and no run survives 150 ms after its last kick.
   */
  lemma {:induction false} ShippedConfiguration(c: Setup, stall: nat, run: seq<Event>)
    requires c.ready && c.period == HEARTBEAT_TIMEOUT_MS && c.watchdog == WDT_TIMEOUT_MS && stall < 50
    requires IsRun(c, stall, run)
    ensures c.period == 100 && c.watchdog == 150
    ensures !RanSafeBranch(c, run) && FiresSince(run) <= 1
    ensures Time(run) <= LastFeed(run) + 150
    ensures !After(c, run).expired && Time(run) == LastFeed(run) + 150 ==>
              !Enabled(c, stall, After(c, run), Elapse) && Enabled(c, stall, After(c, run), Expire)
  {
    hide IsRun, After, FiresSince, Count, LastFeed, Time;
    RunOnlyKicksFeed(c, stall, run);
    FireCounts(run);
    Clock(c, run);
  }
}
