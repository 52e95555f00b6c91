/** One event loop thread and any number of other threads that queue functors to it or
    ask it to quit. Every shared access is a separate step, so the theorems cover every
    interleaving. */
module EventLoopWakeup {
  import opened Basics

  type Tid = nat
  type Functor = nat

  /** The largest value an eventfd counter holds; a non-blocking write beyond it fails. */
  const EVENTFD_MAX: nat := 0xFFFF_FFFF_FFFF_FFFE

  /** Where the loop thread is: testing quit_, about to poll, handling the active channels
      (wakeup read still to come or not), about to swap, running the batch, or finished. */
  datatype Pc = CheckQuit | AtPoll | Dispatch(wakeReady: bool) | AtSwap | Running | Stopped

  /** `owing` are the other threads between their push (or their quit_ store) and their
      wakeup write; `owes` says the same of the loop thread inside queueInLoop. `ran` and
      `pushed` record what was executed and what was queued. */
  datatype Loop = Loop(
    pc: Pc,
    owes: bool,
    quit: bool,
    calling: bool,
    eventfd: nat,
    pending: seq<Functor>,
    batch: seq<Functor>,
    owing: set<Tid>,
    ran: seq<Functor>,
    pushed: seq<Functor>)

  datatype Event =
    | OtherPush(t: Tid, f: Functor)
    | OtherQuit(t: Tid)
    | OtherWake(t: Tid)
    | LoopCheck
    | LoopPoll(reported: bool)
    | LoopReadWakeup
    | LoopPush(f: Functor)
    | LoopAfterPush
    | LoopQuit
    | LoopEndDispatch
    | LoopSwap
    | LoopRun
    | LoopEndBatch

  /** loop() has just begun. */
  function Start(): Loop {
    Loop(CheckQuit, false, false, false, 0, [], [], {}, [], [])
  }

  predicate InUserCode(s: Loop) {
    (s.pc.Dispatch? || s.pc.Running?) && !s.owes
  }

  predicate Enabled(s: Loop, e: Event) {
    match e
    case OtherPush(t, _) => t !in s.owing
    case OtherQuit(t) => t !in s.owing
    case OtherWake(t) => t in s.owing
    case LoopCheck => s.pc.CheckQuit?
    case LoopPoll(reported) => s.pc.AtPoll? && (reported ==> s.eventfd > 0)
    case LoopReadWakeup => s.pc == Dispatch(true) && !s.owes
    case LoopPush(_) => InUserCode(s)
    case LoopAfterPush => s.owes
    case LoopQuit => InUserCode(s)
    case LoopEndDispatch => s.pc == Dispatch(false) && !s.owes
    case LoopSwap => s.pc.AtSwap?
    case LoopRun => s.pc.Running? && !s.owes && s.batch != []
    case LoopEndBatch => s.pc.Running? && !s.owes && s.batch == []
  }

  function Wakeup(s: Loop): Loop {
    if s.eventfd < EVENTFD_MAX then s.(eventfd := s.eventfd + 1) else s
  }

  function Push(s: Loop, f: Functor): Loop {
    s.(pending := s.pending + [f], pushed := s.pushed + [f])
  }

  function Step(s: Loop, e: Event): Loop
    requires Enabled(s, e)
  {
    match e
    case OtherPush(t, f) => Push(s, f).(owing := s.owing + {t})
    case OtherQuit(t) => s.(quit := true, owing := s.owing + {t})
    case OtherWake(t) => Wakeup(s).(owing := s.owing - {t})
    case LoopCheck => s.(pc := if s.quit then Stopped else AtPoll)
    case LoopPoll(reported) => s.(pc := Dispatch(reported))
    case LoopReadWakeup => s.(eventfd := 0, pc := Dispatch(false))
    case LoopPush(f) => Push(s, f).(owes := true)
    case LoopAfterPush => (if s.calling then Wakeup(s) else s).(owes := false)
    case LoopQuit => s.(quit := true)
    case LoopEndDispatch => s.(calling := true, pc := AtSwap)
    case LoopSwap => s.(batch := s.pending, pending := [], pc := Running)
    case LoopRun => s.(batch := s.batch[1..], ran := s.ran + [s.batch[0]])
    case LoopEndBatch => s.(calling := false, pc := CheckQuit)
  }

  ghost predicate Legal(s: Loop, es: seq<Event>)
    decreases |es|
  {
    es == [] || (Enabled(s, es[0]) && Legal(Step(s, es[0]), es[1..]))
  }

  ghost function Exec(s: Loop, es: seq<Event>): Loop
    requires Legal(s, es)
    decreases |es|
  {
    if es == [] then s else Exec(Step(s, es[0]), es[1..])
  }

  /** A wakeup is in the eventfd, or somebody is about to put one there. */
  ghost predicate WakeupComing(s: Loop) {
    s.eventfd > 0 || s.owing != {} || (s.owes && s.calling)
  }

  ghost predicate Inv(s: Loop) {
    && InOrder(s)
    && (s.calling <==> s.pc.AtSwap? || s.pc.Running?)
    && (s.batch != [] ==> s.pc.Running?)
    && (s.owes ==> s.pc.Dispatch? || s.pc.Running?)
    && ((s.pc.Running? || s.pc.CheckQuit? || s.pc.AtPoll?) && s.pending != [] ==> WakeupComing(s))
    && (s.pc.AtPoll? && s.quit ==> s.eventfd > 0 || s.owing != {})
  }

  ghost predicate InOrder(s: Loop) {
    s.pushed == s.ran + s.batch + s.pending
  }

  lemma PushKeepsOrder(s: Loop, f: Functor)
    requires InOrder(s)
    ensures InOrder(Push(s, f))
  {
    assert s.ran + s.batch + s.pending + [f] == s.ran + s.batch + (s.pending + [f]);
  }

  lemma SwapKeepsOrder(s: Loop)
    requires InOrder(s) && s.batch == []
    ensures InOrder(s.(batch := s.pending, pending := []))
  {
    assert s.ran + [] + s.pending == s.ran + s.pending + [];
  }

  lemma RunKeepsOrder(s: Loop)
    requires InOrder(s) && s.batch != []
    ensures InOrder(s.(batch := s.batch[1..], ran := s.ran + [s.batch[0]]))
  {
    assert s.ran + s.batch == s.ran + [s.batch[0]] + s.batch[1..];
  }

  lemma StepKeepsOrder(s: Loop, e: Event)
    requires Inv(s) && Enabled(s, e)
    ensures InOrder(Step(s, e))
  {
    match e
    case OtherPush(_, f) => PushKeepsOrder(s, f);
    case LoopPush(f) => PushKeepsOrder(s, f);
    case LoopSwap => SwapKeepsOrder(s);
    case LoopRun => RunKeepsOrder(s);
    case _ =>
  }

  lemma StepKeepsInv(s: Loop, e: Event)
    requires Inv(s) && Enabled(s, e)
    ensures Inv(Step(s, e))
  {
    StepKeepsOrder(s, e);
    hide InOrder;
    match e
    case OtherPush(t, _) => assert t in Step(s, e).owing;
    case OtherQuit(t) => assert t in Step(s, e).owing;
    case _ =>
  }

  lemma {:induction false} EveryRunKeepsInv(s: Loop, es: seq<Event>)
    requires Inv(s) && Legal(s, es)
    ensures Inv(Exec(s, es))
    decreases |es|
  {
    hide Step, Enabled, Inv;
    if es != [] {
      StepKeepsInv(s, es[0]);
      EveryRunKeepsInv(Step(s, es[0]), es[1..]);
    }
  }

  /** The loop is about to block with nobody going to wake it. */
  ghost predicate Asleep(s: Loop) {
    s.pc.AtPoll? && s.eventfd == 0 && s.owing == {}
  }

  /** The functors that queueInLoop was called with, in order, by whatever thread. */
  ghost function Asked(es: seq<Event>): seq<Functor> {
    if es == [] then []
    else
      (match es[0]
       case OtherPush(_, f) => [f]
       case LoopPush(f) => [f]
       case _ => []) + Asked(es[1..])
  }

  /** Somebody called quit(). */
  ghost predicate QuitAsked(es: seq<Event>) {
    exists i :: 0 <= i < |es| && (es[i].OtherQuit? || es[i].LoopQuit?)
  }

  /** Whatever is queued is recorded, and nothing else. */
  lemma {:induction false} PushedIsAsked(s: Loop, es: seq<Event>)
    requires Legal(s, es)
    ensures Exec(s, es).pushed == s.pushed + Asked(es)
    decreases |es|
  {
    if es != [] {
      var n := Step(s, es[0]);
      PushedIsAsked(n, es[1..]);
      assert n.pushed == s.pushed + Asked([es[0]]) by { assert [es[0]][1..] == []; }
      assert Asked(es) == Asked([es[0]]) + Asked(es[1..]) by { assert [es[0]][1..] == []; }
    }
  }

  lemma {:induction false} QuitIsAsked(s: Loop, es: seq<Event>)
    requires Legal(s, es)
    ensures Exec(s, es).quit <==> s.quit || QuitAsked(es)
    decreases |es|
  {
    if es != [] {
      QuitIsAsked(Step(s, es[0]), es[1..]);
      assert QuitAsked(es) <==> es[0].OtherQuit? || es[0].LoopQuit? || QuitAsked(es[1..]) by { QuitAskedBehind(es); }
    }
  }

  lemma QuitAskedBehind(es: seq<Event>)
    requires es != []
    ensures QuitAsked(es) <==> es[0].OtherQuit? || es[0].LoopQuit? || QuitAsked(es[1..])
  {
    if i :| 0 <= i < |es| && (es[i].OtherQuit? || es[i].LoopQuit?) {
      if i > 0 { assert es[1..][i - 1] == es[i]; }
    }
  }

  /** No lost wakeup: in every interleaving a loop that is going to sleep has run every
      functor that anybody ever asked it to run, in that order, and nobody has asked it to
      quit. */
  lemma NoLostWakeup(es: seq<Event>)
    requires Legal(Start(), es) && Asleep(Exec(Start(), es))
    ensures Exec(Start(), es).ran == Asked(es) && Exec(Start(), es).pending == []
    ensures !QuitAsked(es)
  {
    hide Asked, QuitAsked, Step, Legal;
    EveryRunKeepsInv(Start(), es);
    PushedIsAsked(Start(), es);
    QuitIsAsked(Start(), es);
    var s := Exec(Start(), es);
    assert s.ran + s.batch + s.pending == s.ran && [] + Asked(es) == Asked(es);
  }

  /** Functors run at most once, in the order they were queued. */
  lemma FunctorsRunInOrder(es: seq<Event>)
    requires Legal(Start(), es)
    ensures Exec(Start(), es).ran <= Asked(es)
  {
    hide Asked, Step, Legal;
    EveryRunKeepsInv(Start(), es);
    PushedIsAsked(Start(), es);
    var s := Exec(Start(), es);
    Assoc(s.ran, s.batch, s.pending);
    assert [] + Asked(es) == Asked(es);
  }

  // ---- Quitting, and reading the eventfd ----

  ghost function Polls(es: seq<Event>): nat {
    if es == [] then 0 else (if es[0].LoopPoll? then 1 else 0) + Polls(es[1..])
  }

  /** Once quit() was called the loop polls at most once more: only if it was past its test
      already. */
  lemma {:induction false} QuitStopsPolling(s: Loop, es: seq<Event>)
    requires Legal(s, es) && s.quit
    ensures Polls(es) <= if s.pc.AtPoll? then 1 else 0
    decreases |es|
  {
    if es != [] { QuitStopsPolling(Step(s, es[0]), es[1..]); }
  }

  /** The loop stops exactly by finding quit_ set, so never unasked. */
  lemma {:induction false} StopsOnlyWhenAsked(s: Loop, es: seq<Event>)
    requires Legal(s, es) && !s.pc.Stopped?
    ensures Exec(s, es).pc.Stopped? ==> s.quit || QuitAsked(es)
    decreases |es|
  {
    if es != [] {
      QuitAskedBehind(es);
      if es[0].LoopCheck? && s.quit {
      } else {
        StopsOnlyWhenAsked(Step(s, es[0]), es[1..]);
      }
    }
  }

  /** A write to the eventfd. */
  predicate Wakes(s: Loop, e: Event) {
    e.OtherWake? || (e.LoopAfterPush? && s.calling)
  }

  ghost predicate NobodyWakes(s: Loop, es: seq<Event>)
    requires Legal(s, es)
    decreases |es|
  {
    es == [] || (!Wakes(s, es[0]) && NobodyWakes(Step(s, es[0]), es[1..]))
  }

  /** Reading the eventfd empties it: after the wakeup was handled, a poll reports it again
      only if somebody woke the loop since. */
  lemma {:induction false} ReadingDrains(s: Loop, es: seq<Event>)
    requires Legal(s, es) && NobodyWakes(s, es)
    ensures Exec(s, es).eventfd <= s.eventfd
    ensures s.eventfd == 0 || LoopReadWakeup in es ==> Exec(s, es).eventfd == 0
    decreases |es|
  {
    if es != [] { ReadingDrains(Step(s, es[0]), es[1..]); }
  }

  // ---- Starting with functors already queued ----

  /** loop() entered with some functors queued beforehand and quit_ just reset. */
  ghost predicate Entered(s: Loop) {
    s.pc.CheckQuit? && !s.owes && !s.quit && !s.calling && s.batch == [] && s.ran == []
    && s.pushed == s.pending
  }

  ghost predicate NeverSleepsOnWork(s: Loop) {
    forall es {:trigger Legal(s, es)} :: Legal(s, es) && Asleep(Exec(s, es)) ==> Exec(s, es).pending == [] && !Exec(s, es).quit
  }

  /** The guarantee survives earlier queueing exactly when a wakeup was sent (or is being
      sent) for it; queueing in the loop's own thread before loop() sends none. */
  lemma GuaranteeFromEntry(s: Loop)
    requires Entered(s)
    ensures NeverSleepsOnWork(s) <==> s.pending == [] || s.eventfd > 0 || s.owing != {}
  {
    if s.pending == [] || s.eventfd > 0 || s.owing != {} {
      forall es | Legal(s, es) && Asleep(Exec(s, es))
        ensures Exec(s, es).pending == [] && !Exec(s, es).quit
      {
        EveryRunKeepsInv(s, es);
      }
    } else {
      var es := [LoopCheck];
      assert es[1..] == [] && Legal(s, es);
      assert Asleep(Exec(s, es));
    }
  }
}
