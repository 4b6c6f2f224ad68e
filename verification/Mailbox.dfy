/**
 * The drowsiness mailbox of MCU/src/main.cpp: the SOME/IP thread stores into a shared
 * atomic, the CAN thread gets, sends and clears it in three separate steps. Every
 * interleaving of the two threads.
 */
module Mailbox {
  import opened Subsequences

  /**
   * Where the CAN thread stands, with its local `level`: before the get, holding a positive
   * level, after the send. It is the thread's place in its loop, not a variable of its own.
   */
  datatype Stage = Sleeping | Holding(level: int) | Clearing

  datatype State = State(mailbox: int, stage: Stage, attempts: seq<int>)

  const INITIAL := State(0, Sleeping, [])

  /** One atomic step: a Notify's store by the SOME/IP thread, or one of the CAN thread's steps. */
  datatype Event = Notify(level: nat) | Get | Send | Clear

  predicate Enabled(s: State, e: Event) {
    match e
    case Notify(_) => true
    case Get => s.stage.Sleeping?
    case Send => s.stage.Holding?
    case Clear => s.stage.Clearing?
  }

  function Next(s: State, e: Event): State {
    match e
    case Notify(level) => s.(mailbox := level)
    case Get => if s.mailbox > 0 then s.(stage := Holding(s.mailbox)) else s
    case Send => if s.stage.Holding? then s.(stage := Clearing, attempts := s.attempts + [s.stage.level]) else s
    case Clear => s.(mailbox := 0, stage := Sleeping)
  }

  function After(run: seq<Event>): State {
    if run == [] then INITIAL else Next(After(run[..|run| - 1]), run[|run| - 1])
  }

  predicate IsRun(run: seq<Event>) {
    run == [] || (IsRun(run[..|run| - 1]) && Enabled(After(run[..|run| - 1]), run[|run| - 1]))
  }

  /** The shared variable and the two threads' steps on it. */
  class SharedLevel {
    var drowsinessLevel: int
    var stage: Stage
    var attempts: seq<int>

    ghost function View(): State
      reads this
    {
      State(drowsinessLevel, stage, attempts)
    }

    constructor ()
      ensures View() == INITIAL
    {
      drowsinessLevel, stage, attempts := 0, Sleeping, [];
    }

    /** someip_thread, on a received Notify. */
    method StoreNotify(payload: nat)
      modifies this
      ensures View() == Next(old(View()), Notify(payload))
    {
      drowsinessLevel := payload;
    }

    /** can_thread: atomic_get and the test of the level. */
    method CanGet()
      requires Enabled(View(), Get)
      modifies this
      ensures View() == Next(old(View()), Get)
    {
      var level := drowsinessLevel;
      if level > 0 {
        stage := Holding(level);
      }
    }

    /** can_thread: can_send_drowsiness with the level it got. */
    method CanSend()
      requires Enabled(View(), Send)
      modifies this
      ensures View() == Next(old(View()), Send)
    {
      attempts := attempts + [stage.level];
      stage := Clearing;
    }

    /** can_thread: atomic_set to 0, whatever has been stored since. */
    method CanClear()
      requires Enabled(View(), Clear)
      modifies this
      ensures View() == Next(old(View()), Clear)
    {
      drowsinessLevel := 0;
      stage := Sleeping;
    }

    /** Both threads' steps under one interleaving, from boot: what the run theorems say of the schedule holds of the object. */
    method Execute(run: seq<Event>)
      requires View() == INITIAL && IsRun(run)
      modifies this
      ensures View() == After(run)
    {
      hide After, IsRun, Next;
      Start(run);
      for n := 0 to |run|
        invariant View() == After(run[..n])
      {
        Advance(run, n);
        match run[n]
        case Notify(level) => StoreNotify(level);
        case Get => CanGet();
        case Send => CanSend();
        case Clear => CanClear();
      }
      assert run[..|run|] == run;
    }
  }

  lemma Start(run: seq<Event>)
    ensures After(run[..0]) == INITIAL
  {
  }

  /** One step of a run. */
  lemma {:induction false} Advance(run: seq<Event>, n: nat)
    requires IsRun(run) && n < |run|
    ensures IsRun(run[..n]) && Enabled(After(run[..n]), run[n]) && After(run[..n + 1]) == Next(After(run[..n]), run[n])
    decreases |run|
  {
    var k := |run| - 1;
    if n < k {
      Advance(run[..k], n);
      assert run[..k][..n] == run[..n] && run[..k][..n + 1] == run[..n + 1];
    } else {
      assert run[..n + 1] == run;
    }
  }

  // ---- what an observer of the mailbox can say ----

  /** The accesses to the shared variable, in order: everything except the sends. */
  function Accesses(run: seq<Event>): (a: seq<Event>)
    ensures Send !in a
  {
    if run == [] then []
    else Accesses(run[..|run| - 1]) + if run[|run| - 1].Send? then [] else [run[|run| - 1]]
  }

  /** The positive levels whose store is followed immediately by a get. */
  function Picked(accesses: seq<Event>): seq<int> {
    if |accesses| < 2 then []
    else
      var n := |accesses| - 1;
      Picked(accesses[..n])
      + if accesses[n].Get? && accesses[n - 1].Notify? && accesses[n - 1].level > 0 then [accesses[n - 1].level] else []
  }

  function Held(s: State): seq<int> {
    if s.stage.Holding? then [s.stage.level] else []
  }

  /** The stored value, told from the last access: a get of a positive level is remembered by the stage alone. */
  predicate Agrees(s: State, accesses: seq<Event>) {
    && s.mailbox >= 0 && (s.stage.Holding? ==> s.stage.level > 0)
    && (s.stage.Sleeping? ==>
        s.mailbox == if accesses != [] && accesses[|accesses| - 1].Notify? then accesses[|accesses| - 1].level else 0)
  }

  /**
   * Exactly which levels reach the CAN bus, under every interleaving: the frames attempted
   * so far, and the one about to be sent, are the positive Notify levels that the CAN
   * thread got before any later Notify or the pending clear, in order, once each.
   */
  lemma {:induction false} AttemptsExactly(run: seq<Event>)
    requires IsRun(run)
    ensures After(run).attempts + Held(After(run)) == Picked(Accesses(run))
    ensures Agrees(After(run), Accesses(run))
    decreases |run|
  {
    if run != [] {
      var before, e := run[..|run| - 1], run[|run| - 1];
      AttemptsExactly(before);
      AttemptsStep(After(before), e, Accesses(before));
    }
  }

  lemma AttemptsStep(s: State, e: Event, accesses: seq<Event>)
    requires Enabled(s, e) && Agrees(s, accesses) && s.attempts + Held(s) == Picked(accesses)
    ensures var later := accesses + if e.Send? then [] else [e];
            Agrees(Next(s, e), later) && Next(s, e).attempts + Held(Next(s, e)) == Picked(later)
  {
    if !e.Send? {
      assert (accesses + [e])[..|accesses|] == accesses;
    } else {
      assert accesses + [] == accesses;
    }
  }

  // ---- none invented, duplicated or reordered ----

  /** The levels of all Notify events, in order of arrival. */
  function Notified(run: seq<Event>): seq<int> {
    if run == [] then []
    else Notified(run[..|run| - 1]) + if run[|run| - 1].Notify? then [run[|run| - 1].level] else []
  }

  /** The levels stored and then accessed again: all but a last one still waiting. */
  function Settled(accesses: seq<Event>): seq<int> {
    if accesses != [] && accesses[|accesses| - 1].Notify? then Notified(accesses[..|accesses| - 1]) else Notified(accesses)
  }

  lemma {:induction false} SettledRest(accesses: seq<Event>)
    ensures Notified(accesses)
         == Settled(accesses) + if accesses != [] && accesses[|accesses| - 1].Notify? then [accesses[|accesses| - 1].level] else []
  {
    assert Notified(accesses) + [] == Notified(accesses);
  }

  lemma {:induction false} PickedPicks(accesses: seq<Event>) returns (at: seq<nat>)
    ensures Picks(at, Picked(accesses), Settled(accesses)) && forall level <- Picked(accesses) :: level > 0
    decreases |accesses|
  {
    if accesses == [] {
      at := [];
    } else {
      hide Picks;
      var n := |accesses| - 1;
      var before := accesses[..n];
      at := PickedPicks(before);
      SettledRest(before);
      if n > 0 && accesses[n].Get? && accesses[n - 1].Notify? && accesses[n - 1].level > 0 {
        PicksNext(at, Picked(before), Settled(before), accesses[n - 1].level);
        at := at + [|Settled(before)|];
        assert Notified(before) + [] == Notified(before);
      } else {
        var more := if n > 0 && accesses[n - 1].Notify? then [accesses[n - 1].level] else [];
        PicksMore(at, Picked(before), Settled(before), more);
        assert Notified(before) + [] == Notified(before);
        assert Picked(before) + [] == Picked(before);
      }
    }
  }

  lemma {:induction false} NotifiedInAccesses(run: seq<Event>)
    ensures Notified(Accesses(run)) == Notified(run)
    decreases |run|
  {
    if run != [] {
      var before, e := run[..|run| - 1], run[|run| - 1];
      NotifiedInAccesses(before);
      if e.Send? {
        assert Accesses(run) == Accesses(before);
      } else {
        assert (Accesses(before) + [e])[..|Accesses(before)|] == Accesses(before);
      }
    }
  }

  /** The attempted drowsiness frames are a subsequence of the received Notify levels, and positive. */
  lemma {:induction false} NoneInvented(run: seq<Event>) returns (at: seq<nat>)
    requires IsRun(run)
    ensures Picks(at, After(run).attempts, Notified(run)) && forall level <- After(run).attempts :: level > 0
  {
    hide IsRun, After, Accesses, Picked, Notified, Settled, Picks, Agrees;
    AttemptsExactly(run);
    var accesses, n := Accesses(run), |After(run).attempts|;
    at := PickedPicks(accesses);
    NotifiedInAccesses(run);
    SettledRest(accesses);
    PicksMore(at, Picked(accesses), Settled(accesses),
              if accesses != [] && accesses[|accesses| - 1].Notify? then [accesses[|accesses| - 1].level] else []);
    PicksFirst(at, Picked(accesses), Notified(run), n);
    assert Picked(accesses)[..n] == After(run).attempts;
    at := at[..n];
    forall level | level in After(run).attempts ensures level > 0 {
      assert level in Picked(accesses);
    }
  }

  // ---- lost and delivered levels ----

  /** Gets and sends leave the mailbox alone. */
  lemma {:induction false} KeptByReads(run: seq<Event>, i: nat, j: nat)
    requires IsRun(run) && i <= j <= |run| && forall k :: i <= k < j ==> run[k].Send? || run[k].Get?
    ensures After(run[..j]).mailbox == After(run[..i]).mailbox
    decreases j
  {
    if i < j {
      Advance(run, j - 1);
      KeptByReads(run, i, j - 1);
    }
  }

  /** The mailbox at the end of any run: the last level stored, unless a clear came after it; 0 before the first store. */
  lemma {:induction false} MailboxHolds(run: seq<Event>, i: nat)
    requires IsRun(run) && i <= |run| && forall k :: i <= k < |run| ==> run[k].Send? || run[k].Get?
    ensures i == 0 ==> After(run).mailbox == 0
    ensures i > 0 && run[i - 1].Notify? ==> After(run).mailbox == run[i - 1].level
    ensures i > 0 && run[i - 1].Clear? ==> After(run).mailbox == 0
  {
    KeptByReads(run, i, |run|);
    assert run[..|run|] == run;
    if i > 0 {
      Advance(run, i - 1);
    } else {
      assert run[..i] == [];
    }
  }

  /** Stores leave the CAN thread alone. */
  lemma {:induction false} KeptByStores(run: seq<Event>, i: nat, j: nat)
    requires IsRun(run) && i <= j <= |run| && forall k :: i <= k < j ==> run[k].Notify?
    ensures After(run[..j]).stage == After(run[..i]).stage && After(run[..j]).attempts == After(run[..i]).attempts
    decreases j
  {
    if i < j {
      Advance(run, j - 1);
      KeptByStores(run, i, j - 1);
    }
  }

  /**
   * In any run: a positive level whose store is followed by a get before any other access
   * is taken over, and the CAN thread's next step sends it, however many levels are stored
   * in between.
   */
  lemma {:induction false} NotOverwrittenIsSent(run: seq<Event>, i: nat, j: nat)
    requires IsRun(run) && i < j < |run| && run[i].Notify? && run[i].level > 0 && run[j] == Get
    requires forall k :: i < k < j ==> run[k].Send?
    ensures After(run[..j + 1]).stage == Holding(run[i].level)
    ensures forall k :: j < k < |run| && run[k] == Send && (forall m :: j < m < k ==> run[m].Notify?) ==>
              After(run[..k + 1]).attempts == After(run[..j]).attempts + [run[i].level]
  {
    hide After, IsRun;
    Advance(run, i);
    KeptByReads(run, i + 1, j);
    Advance(run, j);
    forall k | j < k < |run| && run[k] == Send && (forall m :: j < m < k ==> run[m].Notify?)
      ensures After(run[..k + 1]).attempts == After(run[..j]).attempts + [run[i].level]
    {
      KeptByStores(run, j + 1, k);
      Advance(run, k);
    }
  }

  /** Between its get and its clear the CAN thread sends what it holds, and nothing else. */
  lemma {:induction false} BusyUntilClear(run: seq<Event>, i: nat, j: nat)
    requires IsRun(run) && i <= j <= |run| && !After(run[..i]).stage.Sleeping?
    requires forall k :: i <= k < j ==> run[k] != Clear
    ensures !After(run[..j]).stage.Sleeping?
    ensures After(run[..j]).attempts + Held(After(run[..j])) == After(run[..i]).attempts + Held(After(run[..i]))
    decreases j
  {
    if i < j {
      hide After, IsRun;
      Advance(run, j - 1);
      BusyUntilClear(run, i, j - 1);
    }
  }

  /**
   * In any run: a level stored anywhere between the CAN thread's get of an older one and
   * its clear is lost. At the clear the mailbox is empty, and what has been attempted is
   * the older level alone.
   */
  lemma {:induction false} WipedByClear(run: seq<Event>, i: nat, j: nat)
    requires IsRun(run) && i < j < |run| && run[i].Notify? && !After(run[..i]).stage.Sleeping?
    requires run[j] == Clear && forall k :: i < k < j ==> run[k] != Clear
    ensures After(run[..j + 1]) == State(0, Sleeping, After(run[..i]).attempts + Held(After(run[..i])))
  {
    hide After, IsRun;
    BusyUntilClear(run, i, j);
    Advance(run, j);
    assert After(run[..j]).attempts + [] == After(run[..j]).attempts;
  }
}
