/** The thread pool: a bounded FIFO task queue, workers that sleep on a condition
    variable, growth and idle reclamation in cached mode, and a destructor that waits for
    the workers to drain the queue. A critical section is one step, except that a worker
    holds the lock between testing isPoolRunning_ and starting to wait: the destructor
    clears the flag without the lock. */
module ThreadPools {
  import opened Basics

  type Task = nat

  datatype PoolMode = Fixed | Cached

  /** Worker positions outside a critical section, plus Checked inside one. Ran is the
      moment between the end of a task and the idle counter's increment. */
  datatype Worker = Ready | Checked | Waiting | TimedOut | Executing(task: Task) | Ran | Exited

  /** The destructor: not begun, flag cleared, waiting on exitCond_, woken up, returned. */
  datatype Destructor = NotBegun | FlagDown | Blocked | Signalled | Finished

  datatype Config = Config(mode: PoolMode, initThreads: nat, queueMax: nat, threadMax: int)

  datatype Lock = Free | HeldBy(w: nat)

  /** Worker i's position is workers[i]. `accepted`, `rejected`, `started` and `finished`
      record what happened to the submitted tasks. */
  datatype Pool = Pool(
    config: Config,
    queue: seq<Task>,
    taskSize: int,
    curThreads: int,
    idleThreads: int,
    running: bool,
    threads: set<nat>,
    workers: seq<Worker>,
    lock: Lock,
    destructor: Destructor,
    nextTask: Task,
    accepted: seq<Task>,
    rejected: set<Task>,
    started: seq<Task>,
    finished: set<Task>)

  function AllBelow(n: nat): (r: set<nat>)
    ensures forall i: nat :: i in r <==> i < n
    ensures |r| == n
  {
    if n == 0 then {} else AllBelow(n - 1) + {n - 1}
  }

  function Start(config: Config): Pool {
    Pool(config, [], 0, config.initThreads, config.initThreads, true,
         AllBelow(config.initThreads), seq(config.initThreads, _ => Ready),
         Free, NotBegun, 0, [], {}, [], {})
  }

  datatype Event =
    | SubmitAccept
    | SubmitReject
    | Take(w: nat)
    | Check(w: nat)
    | Wait(w: nat)
    | Wake(w: nat)
    | TimeOut(w: nat)
    | IdleCheck(w: nat, longIdle: bool)
    | FinishTask(w: nat)
    | CountIdle(w: nat)
    | ExitShutdown(w: nat)
    | BeginShutdown
    | NotifyAll
    | DestructorWake
    | DestructorCheck

  predicate At(s: Pool, w: nat, p: Worker) {
    w < |s.workers| && s.workers[w] == p
  }

  predicate Enabled(s: Pool, e: Event) {
    match e
    case SubmitAccept => s.lock.Free? && s.destructor.NotBegun? && |s.queue| < s.config.queueMax
    case SubmitReject => s.lock.Free? && s.destructor.NotBegun? && |s.queue| >= s.config.queueMax
    case Take(w) => s.lock.Free? && At(s, w, Ready) && s.queue != []
    case Check(w) => s.lock.Free? && At(s, w, Ready) && s.queue == [] && s.running
    case Wait(w) => At(s, w, Checked)
    case Wake(w) => At(s, w, Waiting)
    case TimeOut(w) => At(s, w, Waiting) && s.config.mode.Cached?
    case IdleCheck(w, _) => s.lock.Free? && At(s, w, TimedOut)
    case FinishTask(w) => w < |s.workers| && s.workers[w].Executing?
    case CountIdle(w) => At(s, w, Ran)
    case ExitShutdown(w) => s.lock.Free? && At(s, w, Ready) && s.queue == [] && !s.running
    case BeginShutdown => s.destructor.NotBegun?
    case NotifyAll => s.lock.Free? && s.destructor.FlagDown?
    case DestructorWake => s.destructor.Blocked?
    case DestructorCheck => s.lock.Free? && s.destructor.Signalled?
  }

  /** notEmpty_.notify_all() */
  function WakeAll(ws: seq<Worker>): (r: seq<Worker>)
    ensures |r| == |ws|
    ensures forall i :: 0 <= i < |ws| ==> r[i] == if ws[i].Waiting? then Ready else ws[i]
  {
    seq(|ws|, i requires 0 <= i < |ws| => if ws[i].Waiting? then Ready else ws[i])
  }

  function Grow(s: Pool): Pool {
    if s.config.mode.Cached? && s.taskSize > s.idleThreads && s.curThreads < s.config.threadMax then
      s.(threads := s.threads + {|s.workers|}, workers := s.workers + [Ready],
         curThreads := s.curThreads + 1, idleThreads := s.idleThreads + 1)
    else s
  }

  /** The destructor re-tests its predicate under the lock. */
  function AwaitExit(s: Pool): Pool {
    s.(destructor := if s.threads == {} then Finished else Blocked)
  }

  function Step(s: Pool, e: Event): Pool
    requires Enabled(s, e)
  {
    match e
    case SubmitAccept =>
      var t := s.nextTask;
      Grow(s.(queue := s.queue + [t], taskSize := s.taskSize + 1, accepted := s.accepted + [t],
              nextTask := t + 1, workers := WakeAll(s.workers)))
    case SubmitReject => s.(rejected := s.rejected + {s.nextTask}, nextTask := s.nextTask + 1)
    case Take(w) =>
      var t, rest := s.queue[0], s.queue[1..];
      var ws := s.workers[w := Executing(t)];
      s.(queue := rest, taskSize := s.taskSize - 1, idleThreads := s.idleThreads - 1,
         workers := if rest != [] then WakeAll(ws) else ws, started := s.started + [t])
    case Check(w) => s.(workers := s.workers[w := Checked], lock := HeldBy(w))
    case Wait(w) => s.(workers := s.workers[w := Waiting], lock := Free)
    case Wake(w) => s.(workers := s.workers[w := Ready])
    case TimeOut(w) => s.(workers := s.workers[w := TimedOut])
    case IdleCheck(w, longIdle) =>
      if longIdle && s.curThreads > s.config.initThreads then
        s.(threads := s.threads - {w}, workers := s.workers[w := Exited],
           curThreads := s.curThreads - 1, idleThreads := s.idleThreads - 1)
      else s.(workers := s.workers[w := Ready])
    case FinishTask(w) =>
      s.(workers := s.workers[w := Ran], finished := s.finished + {s.workers[w].task})
    case CountIdle(w) => s.(workers := s.workers[w := Ready], idleThreads := s.idleThreads + 1)
    case ExitShutdown(w) =>
      s.(threads := s.threads - {w}, workers := s.workers[w := Exited],
         destructor := if s.destructor.Blocked? then Signalled else s.destructor)
    case BeginShutdown => s.(running := false, destructor := FlagDown)
    case NotifyAll => AwaitExit(s.(workers := WakeAll(s.workers)))
    case DestructorWake => s.(destructor := Signalled)
    case DestructorCheck => AwaitExit(s)
  }

  ghost predicate Legal(s: Pool, es: seq<Event>)
    decreases |es|
  {
    es == [] || (Enabled(s, es[0]) && Legal(Step(s, es[0]), es[1..]))
  }

  ghost function Exec(s: Pool, es: seq<Event>): Pool
    requires Legal(s, es)
    decreases |es|
  {
    if es == [] then s else Exec(Step(s, es[0]), es[1..])
  }

  // ---- Tasks ----

  ghost predicate IsExecuting(ws: seq<Worker>, t: Task) {
    exists w :: 0 <= w < |ws| && ws[w] == Executing(t)
  }

  /** Tasks leave the queue in submission order; a started task is executing on exactly
      one worker or finished, never both. */
  ghost predicate TaskInv(s: Pool) {
    && s.accepted == s.started + s.queue
    && Distinct(s.accepted)
    && (forall t :: t in s.accepted ==> t < s.nextTask && t !in s.rejected)
    && (forall t :: t in s.rejected ==> t < s.nextTask)
    && (forall t :: t in s.started <==> t in s.finished || IsExecuting(s.workers, t))
    && (forall w :: 0 <= w < |s.workers| && s.workers[w].Executing? ==> s.workers[w].task !in s.finished)
    && (forall v, w :: 0 <= v < w < |s.workers| && s.workers[v].Executing? && s.workers[w].Executing?
          ==> s.workers[v].task != s.workers[w].task)
  }

  // ---- Threads and counters ----

  /** The workers between taking a task and counting themselves idle again. */
  ghost function Busy(ws: seq<Worker>): set<nat> {
    set w | 0 <= w < |ws| && (ws[w].Executing? || ws[w].Ran?)
  }

  /** threads_ holds exactly the workers that have not exited. */
  ghost predicate ThreadInv(s: Pool) {
    && (forall w: nat :: w in s.threads <==> w < |s.workers| && !s.workers[w].Exited?)
    && (s.running <==> s.destructor.NotBegun?)
    && (s.lock.HeldBy? ==> At(s, s.lock.w, Checked))
    && (forall w :: 0 <= w < |s.workers| && s.workers[w].Checked? ==> s.lock == HeldBy(w))
    && (s.config.mode.Fixed? ==> forall w :: 0 <= w < |s.workers| ==> !s.workers[w].TimedOut?)
  }

  /** While the pool runs the counters are exact; once it shuts down the thread counter is
      exact as long as tasks are queued. */
  ghost predicate CountInv(s: Pool) {
    && s.taskSize == |s.queue| <= s.config.queueMax
    && s.curThreads <= Max(s.config.initThreads, s.config.threadMax)
    && (s.running || s.queue != [] ==> s.curThreads == |s.threads| >= s.config.initThreads)
    && (s.running ==> s.idleThreads == |s.threads| - |Busy(s.workers)|)
    && (!MayHang(s.config) ==> s.curThreads <= s.config.initThreads)
  }

  /** The pool can grow: only then can an idle worker ever leave. */
  predicate MayHang(config: Config) {
    config.mode.Cached? && config.threadMax > config.initThreads && config.queueMax > 0
  }

  /** After the destructor's notify_all nobody waits, or is about to. */
  ghost predicate NotifiedInv(s: Pool) {
    && (s.destructor.Blocked? || s.destructor.Signalled? || s.destructor.Finished? ==>
          s.lock.Free? && forall w :: 0 <= w < |s.workers| ==> !s.workers[w].Waiting?)
    && (s.destructor.Finished? ==> s.threads == {})
    && (!MayHang(s.config) && s.destructor.Blocked? ==> s.threads != {})
  }

  /** The workers' executing positions did not change. */
  ghost predicate SameExecuting(ws: seq<Worker>, vs: seq<Worker>) {
    && |ws| <= |vs|
    && (forall i :: 0 <= i < |ws| && (ws[i].Executing? || vs[i].Executing?) ==> ws[i] == vs[i])
    && (forall i :: |ws| <= i < |vs| ==> !vs[i].Executing?)
  }

  lemma SameExecutingSameTasks(ws: seq<Worker>, vs: seq<Worker>)
    requires SameExecuting(ws, vs)
    ensures forall t :: IsExecuting(ws, t) <==> IsExecuting(vs, t)
  {
    forall t ensures IsExecuting(ws, t) <==> IsExecuting(vs, t) {
      if IsExecuting(ws, t) {
        var w :| 0 <= w < |ws| && ws[w] == Executing(t);
        assert vs[w] == Executing(t);
      }
      if IsExecuting(vs, t) {
        var w :| 0 <= w < |vs| && vs[w] == Executing(t);
        assert ws[w] == Executing(t);
      }
    }
  }

  lemma TakeKeepsTasks(s: Pool, w: nat)
    requires TaskInv(s) && Enabled(s, Take(w))
    ensures TaskInv(Step(s, Take(w)))
  {
    var n := Step(s, Take(w));
    var t := s.queue[0];
    var ws := s.workers[w := Executing(t)];
    SameExecutingSameTasks(ws, n.workers);
    assert s.accepted[|s.started|] == t;
    assert s.accepted == n.started + n.queue;
    forall i | 0 <= i < |s.started| ensures s.started[i] != t {
      assert s.accepted[i] == s.started[i];
    }
    forall u ensures IsExecuting(ws, u) <==> IsExecuting(s.workers, u) || u == t {
      if IsExecuting(s.workers, u) {
        var v :| 0 <= v < |s.workers| && s.workers[v] == Executing(u);
        assert ws[v] == Executing(u);
      }
      if u == t { assert ws[w] == Executing(t); }
      if IsExecuting(ws, u) {
        var v :| 0 <= v < |ws| && ws[v] == Executing(u);
        if v != w { assert s.workers[v] == Executing(u); }
      }
    }
    forall v | 0 <= v < |ws| && v != w && ws[v].Executing? ensures ws[v].task != t {
      assert IsExecuting(s.workers, ws[v].task);
    }
  }

  lemma FinishKeepsTasks(s: Pool, w: nat)
    requires TaskInv(s) && Enabled(s, FinishTask(w))
    ensures TaskInv(Step(s, FinishTask(w)))
  {
    var n := Step(s, FinishTask(w));
    var t := s.workers[w].task;
    assert IsExecuting(s.workers, t);
    forall u ensures IsExecuting(s.workers, u) <==> IsExecuting(n.workers, u) || u == t {
      if IsExecuting(s.workers, u) && u != t {
        var v :| 0 <= v < |s.workers| && s.workers[v] == Executing(u);
        assert n.workers[v] == Executing(u);
      }
      if IsExecuting(n.workers, u) {
        var v :| 0 <= v < |n.workers| && n.workers[v] == Executing(u);
        assert s.workers[v] == Executing(u);
      }
    }
  }

  /** A step that leaves what was recorded of tasks and the executing workers alone. */
  lemma SameTasksKept(s: Pool, n: Pool)
    requires TaskInv(s) && SameExecuting(s.workers, n.workers)
    requires n.accepted == s.accepted && n.started == s.started && n.queue == s.queue
    requires n.finished == s.finished && n.rejected == s.rejected && n.nextTask == s.nextTask
    ensures TaskInv(n)
  {
    SameExecutingSameTasks(s.workers, n.workers);
  }

  lemma SubmitKeepsTasks(s: Pool, n: Pool)
    requires TaskInv(s) && SameExecuting(s.workers, n.workers)
    requires n.accepted == s.accepted + [s.nextTask] && n.started == s.started && n.queue == s.queue + [s.nextTask]
    requires n.finished == s.finished && n.rejected == s.rejected && n.nextTask == s.nextTask + 1
    ensures TaskInv(n)
  {
    SameExecutingSameTasks(s.workers, n.workers);
    assert n.accepted == n.started + n.queue;
    assert forall i :: 0 <= i < |s.accepted| ==> s.accepted[i] in s.accepted;
    assert Distinct(n.accepted);
  }

  lemma RejectKeepsTasks(s: Pool)
    requires TaskInv(s) && Enabled(s, SubmitReject)
    ensures TaskInv(Step(s, SubmitReject))
  {
  }

  lemma StepKeepsTasks(s: Pool, e: Event)
    requires TaskInv(s) && Enabled(s, e)
    ensures TaskInv(Step(s, e))
  {
    hide TaskInv;
    match e
    case Take(w) => TakeKeepsTasks(s, w);
    case FinishTask(w) => FinishKeepsTasks(s, w);
    case SubmitAccept => SubmitKeepsTasks(s, Step(s, e));
    case SubmitReject => RejectKeepsTasks(s);
    case _ => SameTasksKept(s, Step(s, e));
  }

  lemma SubmitKeepsThreads(s: Pool)
    requires ThreadInv(s) && Enabled(s, SubmitAccept)
    ensures ThreadInv(Step(s, SubmitAccept))
  {
  }

  lemma TakeKeepsThreads(s: Pool, w: nat)
    requires ThreadInv(s) && Enabled(s, Take(w))
    ensures ThreadInv(Step(s, Take(w)))
  {
  }

  /** Moving a worker between positions that neither hold the lock nor end its life. */
  lemma MoveKeepsThreads(s: Pool, w: nat, p: Worker, n: Pool)
    requires ThreadInv(s) && w < |s.workers| && !s.workers[w].Exited? && !s.workers[w].Checked?
    requires !p.Exited? && !p.Checked? && (p.TimedOut? ==> s.config.mode.Cached?)
    requires n.workers == s.workers[w := p] && n.threads == s.threads && n.lock == s.lock
    requires n.running == s.running && n.destructor == s.destructor && n.config == s.config
    ensures ThreadInv(n)
  {
  }

  /** Taking the lock before waiting, and giving it back while waiting. */
  lemma WaitingKeepsThreads(s: Pool, w: nat)
    requires ThreadInv(s)
    ensures Enabled(s, Check(w)) ==> ThreadInv(Step(s, Check(w)))
    ensures Enabled(s, Wait(w)) ==> ThreadInv(Step(s, Wait(w)))
  {
  }

  lemma LeavingKeepsThreads(s: Pool, w: nat)
    requires ThreadInv(s)
    ensures Enabled(s, ExitShutdown(w)) ==> ThreadInv(Step(s, ExitShutdown(w)))
    ensures forall longIdle: bool :: Enabled(s, IdleCheck(w, longIdle)) ==> ThreadInv(Step(s, IdleCheck(w, longIdle)))
  {
  }

  lemma DestructorKeepsThreads(s: Pool, e: Event)
    requires ThreadInv(s) && Enabled(s, e)
    requires e.BeginShutdown? || e.NotifyAll? || e.DestructorWake? || e.DestructorCheck? || e.SubmitReject?
    ensures ThreadInv(Step(s, e))
  {
  }

  lemma StepKeepsThreads(s: Pool, e: Event)
    requires ThreadInv(s) && Enabled(s, e)
    ensures ThreadInv(Step(s, e))
  {
    match e
    case SubmitAccept => SubmitKeepsThreads(s);
    case Take(w) => TakeKeepsThreads(s, w);
    case Wake(w) => MoveKeepsThreads(s, w, Ready, Step(s, e));
    case TimeOut(w) => MoveKeepsThreads(s, w, TimedOut, Step(s, e));
    case FinishTask(w) => MoveKeepsThreads(s, w, Ran, Step(s, e));
    case CountIdle(w) => MoveKeepsThreads(s, w, Ready, Step(s, e));
    case Check(w) => WaitingKeepsThreads(s, w);
    case Wait(w) => WaitingKeepsThreads(s, w);
    case IdleCheck(w, _) => LeavingKeepsThreads(s, w);
    case ExitShutdown(w) => LeavingKeepsThreads(s, w);
    case _ => hide ThreadInv; DestructorKeepsThreads(s, e);
  }

  lemma BusyOfWakeAll(ws: seq<Worker>)
    ensures Busy(WakeAll(ws)) == Busy(ws) && Busy(WakeAll(ws) + [Ready]) == Busy(ws)
  {
  }

  lemma BusyOfUpdate(ws: seq<Worker>, w: nat, p: Worker)
    requires w < |ws|
    ensures Busy(ws[w := p]) == if p.Executing? || p.Ran? then Busy(ws) + {w} else Busy(ws) - {w}
  {
  }

  lemma TakeKeepsCounts(s: Pool, w: nat)
    requires CountInv(s) && Enabled(s, Take(w))
    ensures CountInv(Step(s, Take(w)))
  {
    var ws := s.workers[w := Executing(s.queue[0])];
    BusyOfUpdate(s.workers, w, Executing(s.queue[0]));
    BusyOfWakeAll(ws);
    assert w !in Busy(s.workers);
  }

  lemma SubmitKeepsCounts(s: Pool)
    requires ThreadInv(s) && CountInv(s) && Enabled(s, SubmitAccept)
    ensures CountInv(Step(s, SubmitAccept))
  {
    BusyOfWakeAll(s.workers);
    assert |s.workers| !in s.threads;
  }

  lemma IdleCheckKeepsCounts(s: Pool, w: nat, longIdle: bool)
    requires ThreadInv(s) && CountInv(s) && Enabled(s, IdleCheck(w, longIdle))
    ensures CountInv(Step(s, IdleCheck(w, longIdle)))
  {
    BusyOfUpdate(s.workers, w, Exited);
    BusyOfUpdate(s.workers, w, Ready);
    assert w in s.threads && w !in Busy(s.workers);
  }

  /** A worker that moves between positions outside its tasks. */
  lemma MoveKeepsCounts(s: Pool, w: nat, p: Worker, n: Pool)
    requires CountInv(s) && w < |s.workers| && IsIdle(s.workers[w]) && IsIdle(p)
    requires n == s.(workers := s.workers[w := p], lock := n.lock)
    ensures CountInv(n)
  {
    BusyOfUpdate(s.workers, w, p);
    assert Busy(n.workers) == Busy(s.workers);
  }

  predicate IsIdle(p: Worker) { !p.Executing? && !p.Ran? }

  lemma DoneKeepsCounts(s: Pool, w: nat)
    requires CountInv(s)
    ensures Enabled(s, FinishTask(w)) ==> CountInv(Step(s, FinishTask(w)))
    ensures Enabled(s, CountIdle(w)) ==> CountInv(Step(s, CountIdle(w)))
  {
    if Enabled(s, FinishTask(w)) {
      BusyOfUpdate(s.workers, w, Ran);
      assert Busy(Step(s, FinishTask(w)).workers) == Busy(s.workers);
    }
    if Enabled(s, CountIdle(w)) {
      BusyOfUpdate(s.workers, w, Ready);
      assert w in Busy(s.workers);
    }
  }

  lemma ShutdownKeepsCounts(s: Pool, e: Event)
    requires ThreadInv(s) && CountInv(s) && Enabled(s, e)
    requires e.BeginShutdown? || e.NotifyAll? || e.DestructorWake? || e.DestructorCheck? || e.SubmitReject? || e.ExitShutdown?
    ensures CountInv(Step(s, e))
  {
    BusyOfWakeAll(s.workers);
  }

  lemma StepKeepsCounts(s: Pool, e: Event)
    requires ThreadInv(s) && CountInv(s) && Enabled(s, e)
    ensures CountInv(Step(s, e))
  {
    hide CountInv, ThreadInv;
    match e
    case Take(w) => TakeKeepsCounts(s, w);
    case SubmitAccept => SubmitKeepsCounts(s);
    case IdleCheck(w, longIdle) => IdleCheckKeepsCounts(s, w, longIdle);
    case CountIdle(w) => DoneKeepsCounts(s, w);
    case FinishTask(w) => DoneKeepsCounts(s, w);
    case Check(w) => MoveKeepsCounts(s, w, Checked, Step(s, e));
    case Wait(w) => MoveKeepsCounts(s, w, Waiting, Step(s, e));
    case Wake(w) => MoveKeepsCounts(s, w, Ready, Step(s, e));
    case TimeOut(w) => MoveKeepsCounts(s, w, TimedOut, Step(s, e));
    case _ => ShutdownKeepsCounts(s, e);
  }

  lemma QueueKeepsNotified(s: Pool, e: Event)
    requires ThreadInv(s) && CountInv(s) && NotifiedInv(s) && Enabled(s, e)
    requires e.SubmitAccept? || e.SubmitReject? || e.Take? || e.FinishTask? || e.CountIdle? || e.Check? || e.Wait?
    ensures NotifiedInv(Step(s, e))
  {
  }

  lemma StepKeepsNotified(s: Pool, e: Event)
    requires ThreadInv(s) && CountInv(s) && NotifiedInv(s) && Enabled(s, e)
    ensures NotifiedInv(Step(s, e))
  {
    if e.SubmitAccept? || e.SubmitReject? || e.Take? || e.FinishTask? || e.CountIdle? || e.Check? || e.Wait? {
      QueueKeepsNotified(s, e);
    }
  }

  /** No task is queued beside a worker that sleeps un-notified or is about to. */
  ghost predicate AwakeInv(s: Pool) {
    s.queue != [] ==> forall w :: 0 <= w < |s.workers| ==> !s.workers[w].Waiting? && !s.workers[w].Checked?
  }

  lemma StepKeepsAwake(s: Pool, e: Event)
    requires ThreadInv(s) && AwakeInv(s) && Enabled(s, e)
    ensures AwakeInv(Step(s, e))
  {
  }

  ghost predicate Inv(s: Pool) {
    TaskInv(s) && ThreadInv(s) && CountInv(s) && NotifiedInv(s) && AwakeInv(s) && s.config.initThreads >= 1
  }

  lemma StartHasInv(config: Config)
    requires config.initThreads >= 1
    ensures Inv(Start(config))
  {
    assert Busy(Start(config).workers) == {};
  }

  lemma ConfigStays(s: Pool, e: Event)
    requires Enabled(s, e)
    ensures Step(s, e).config == s.config
  {
  }

  lemma {:induction false} EveryRunKeepsInv(s: Pool, es: seq<Event>)
    requires Inv(s) && Legal(s, es)
    ensures Inv(Exec(s, es)) && Exec(s, es).config == s.config
    decreases |es|
  {
    hide Step, Enabled, TaskInv, ThreadInv, CountInv, NotifiedInv, AwakeInv;
    if es != [] {
      ConfigStays(s, es[0]);
      StepKeepsTasks(s, es[0]);
      StepKeepsThreads(s, es[0]);
      StepKeepsCounts(s, es[0]);
      StepKeepsNotified(s, es[0]);
      StepKeepsAwake(s, es[0]);
      EveryRunKeepsInv(Step(s, es[0]), es[1..]);
    }
  }

  // ---- The theorems ----

  /** In both modes, in every run: tasks are started in submission order and at most once,
      and each accepted task is exactly one of queued, executing, finished; rejected tasks
      never run. */
  lemma TasksAreConserved(config: Config, es: seq<Event>, t: Task)
    requires config.initThreads >= 1 && Legal(Start(config), es)
    ensures var s := Exec(Start(config), es);
      && s.started <= s.accepted && Distinct(s.started)
      && (t in s.accepted <==> t in s.queue || IsExecuting(s.workers, t) || t in s.finished)
      && !(t in s.queue && (IsExecuting(s.workers, t) || t in s.finished))
      && !(IsExecuting(s.workers, t) && t in s.finished)
      && (t in s.rejected ==> t !in s.queue && !IsExecuting(s.workers, t) && t !in s.finished)
  {
    StartHasInv(config);
    EveryRunKeepsInv(Start(config), es);
    var s := Exec(Start(config), es);
    if t in s.queue {
      var j :| 0 <= j < |s.queue| && s.queue[j] == t;
      assert s.accepted[|s.started| + j] == t;
      forall i | 0 <= i < |s.started| ensures s.started[i] != t {
        assert s.accepted[i] == s.started[i];
      }
    }
  }

  /** While the pool runs its counters are exact and its size stays within bounds. */
  lemma CountersAreExact(config: Config, es: seq<Event>)
    requires config.initThreads >= 1 && Legal(Start(config), es) && Exec(Start(config), es).running
    ensures var s := Exec(Start(config), es);
      && s.taskSize == |s.queue| <= config.queueMax
      && s.curThreads == |s.threads|
      && s.idleThreads == |s.threads| - |Busy(s.workers)|
      && config.initThreads <= |s.threads| <= Max(config.initThreads, config.threadMax)
  {
    StartHasInv(config);
    EveryRunKeepsInv(Start(config), es);
  }

  /** The numbers of the tasks that the calls of a run got accepted, in order. */
  ghost function AcceptedIn(es: seq<Event>, next: Task): seq<Task> {
    if es == [] then []
    else match es[0]
      case SubmitAccept => [next] + AcceptedIn(es[1..], next + 1)
      case SubmitReject => AcceptedIn(es[1..], next + 1)
      case _ => AcceptedIn(es[1..], next)
  }

  ghost function RejectedIn(es: seq<Event>, next: Task): set<Task> {
    if es == [] then {}
    else match es[0]
      case SubmitAccept => RejectedIn(es[1..], next + 1)
      case SubmitReject => {next} + RejectedIn(es[1..], next + 1)
      case _ => RejectedIn(es[1..], next)
  }

  lemma StepRecords(s: Pool, e: Event)
    requires Enabled(s, e)
    ensures Step(s, e).nextTask == s.nextTask + if e.SubmitAccept? || e.SubmitReject? then 1 else 0
    ensures Step(s, e).accepted == s.accepted + if e.SubmitAccept? then [s.nextTask] else []
    ensures Step(s, e).rejected == s.rejected + if e.SubmitReject? then {s.nextTask} else {}
  {
  }

  lemma {:induction false} RunRecords(s: Pool, es: seq<Event>)
    requires Legal(s, es)
    ensures Exec(s, es).accepted == s.accepted + AcceptedIn(es, s.nextTask)
    ensures Exec(s, es).rejected == s.rejected + RejectedIn(es, s.nextTask)
    decreases |es|
  {
    hide Step, Enabled;
    if es != [] {
      var n := Step(s, es[0]);
      StepRecords(s, es[0]);
      RunRecords(n, es[1..]);
      Assoc(s.accepted, if es[0].SubmitAccept? then [s.nextTask] else [], AcceptedIn(es[1..], n.nextTask));
    }
  }

  /** Every call of submitTask is answered by its own outcome: what the pool accepted and
      rejected are exactly the calls that it told so, in order. */
  lemma EverySubmitCounts(config: Config, es: seq<Event>)
    requires Legal(Start(config), es)
    ensures Exec(Start(config), es).accepted == AcceptedIn(es, 0)
    ensures Exec(Start(config), es).rejected == RejectedIn(es, 0)
  {
    RunRecords(Start(config), es);
    assert [] + AcceptedIn(es, 0) == AcceptedIn(es, 0);
  }

  /** A submit is refused exactly when the queue is full. */
  lemma RefusedExactlyWhenFull(config: Config, es: seq<Event>)
    requires config.initThreads >= 1 && Legal(Start(config), es)
    requires Exec(Start(config), es).destructor.NotBegun? && Exec(Start(config), es).lock.Free?
    ensures Enabled(Exec(Start(config), es), SubmitReject) <==> |Exec(Start(config), es).queue| == config.queueMax
    ensures Enabled(Exec(Start(config), es), SubmitAccept) <==> |Exec(Start(config), es).queue| < config.queueMax
  {
    StartHasInv(config);
    EveryRunKeepsInv(Start(config), es);
  }

  /** In every run, in both modes: beside a queued task nobody sleeps un-notified, and some
      live worker has a step to take. */
  lemma NoTaskIsStranded(config: Config, es: seq<Event>) returns (w: nat)
    requires config.initThreads >= 1 && Legal(Start(config), es) && Exec(Start(config), es).queue != []
    ensures var s := Exec(Start(config), es);
      && (forall v :: 0 <= v < |s.workers| ==> !s.workers[v].Waiting? && !s.workers[v].Checked?)
      && w in s.threads && w < |s.workers|
      && (Enabled(s, Take(w)) || Enabled(s, FinishTask(w)) || Enabled(s, CountIdle(w)) || Enabled(s, IdleCheck(w, false)))
  {
    StartHasInv(config);
    EveryRunKeepsInv(Start(config), es);
    var s := Exec(Start(config), es);
    assert s.threads != {};
    w :| w in s.threads;
    hide TaskInv, CountInv, NotifiedInv, ThreadInv, Enabled, Step;
    AwakeWorkerMoves(s, w);
  }

  lemma AwakeWorkerMoves(s: Pool, w: nat)
    requires ThreadInv(s) && AwakeInv(s) && s.queue != [] && w in s.threads
    ensures w < |s.workers|
    ensures Enabled(s, Take(w)) || Enabled(s, FinishTask(w)) || Enabled(s, CountIdle(w)) || Enabled(s, IdleCheck(w, false))
  {
  }

  /** The worker that takes a task and leaves others behind finds nobody left to notify. */
  lemma TakeWakesNobody(s: Pool, w: nat)
    requires Inv(s) && Enabled(s, Take(w))
    ensures Step(s, Take(w)).workers == s.workers[w := Executing(s.queue[0])]
  {
    hide TaskInv, ThreadInv, CountInv, NotifiedInv;
  }

  /** A running pool starts a worker exactly when, in cached mode, the queued tasks outnumber
      the idle workers and the bound on threads is not reached. */
  lemma GrowsExactlyWhen(s: Pool)
    requires Inv(s) && Enabled(s, SubmitAccept)
    ensures Step(s, SubmitAccept).threads ==
      if s.config.mode.Cached? && |s.queue| + 1 > |s.threads| - |Busy(s.workers)| && |s.threads| < s.config.threadMax
      then s.threads + {|s.workers|} else s.threads
  {
    hide TaskInv, NotifiedInv, AwakeInv;
  }

  /** And lets one go exactly when it was idle for long and more than the initial ones are
      left. */
  lemma ReclaimsExactlyWhen(s: Pool, w: nat, longIdle: bool)
    requires Inv(s) && s.running && Enabled(s, IdleCheck(w, longIdle))
    ensures Step(s, IdleCheck(w, longIdle)).threads ==
      if longIdle && |s.threads| > s.config.initThreads then s.threads - {w} else s.threads
  {
    hide TaskInv, NotifiedInv, AwakeInv;
  }

  /** No worker left means no accepted task is left unfinished; in particular when the
      destructor returns. */
  lemma ShutdownDrains(config: Config, es: seq<Event>)
    requires config.initThreads >= 1 && Legal(Start(config), es)
    ensures var s := Exec(Start(config), es);
      s.threads == {} || s.destructor.Finished? ==>
        s.queue == [] && forall t :: t in s.accepted ==> t in s.finished
  {
    StartHasInv(config);
    EveryRunKeepsInv(Start(config), es);
  }

  // ---- Progress of the destructor ----

  function Weight(p: Worker): nat {
    match p
    case Ready => 1
    case Checked => 3
    case Waiting => 2
    case TimedOut => 2
    case Executing(_) => 3
    case Ran => 2
    case Exited => 0
  }

  ghost function TotalWeight(ws: seq<Worker>): nat {
    if ws == [] then 0 else TotalWeight(ws[..|ws| - 1]) + Weight(ws[|ws| - 1])
  }

  /** Work left: tasks queued, tasks executing and threads still alive. */
  ghost function Measure(s: Pool): nat {
    3 * |s.queue| + TotalWeight(s.workers)
  }

  lemma {:induction false} WeightOfUpdate(ws: seq<Worker>, w: nat, p: Worker)
    requires w < |ws|
    ensures TotalWeight(ws[w := p]) == TotalWeight(ws) - Weight(ws[w]) + Weight(p)
    decreases |ws|
  {
    if w == |ws| - 1 {
      assert ws[w := p][..|ws| - 1] == ws[..|ws| - 1];
    } else {
      WeightOfUpdate(ws[..|ws| - 1], w, p);
      assert ws[w := p][..|ws| - 1] == ws[..|ws| - 1][w := p];
    }
  }

  lemma {:induction false} WeightOfWakeAll(ws: seq<Worker>)
    ensures TotalWeight(WakeAll(ws)) <= TotalWeight(ws)
    decreases |ws|
  {
    if ws != [] {
      WeightOfWakeAll(ws[..|ws| - 1]);
      assert WakeAll(ws)[..|ws| - 1] == WakeAll(ws[..|ws| - 1]);
    }
  }

  predicate IsWorkerEvent(e: Event) {
    e.Take? || e.Check? || e.Wait? || e.Wake? || e.TimeOut? || e.IdleCheck? || e.FinishTask? || e.CountIdle?
    || e.ExitShutdown?
  }

  /** The destructor has notified the workers and has not returned. */
  predicate Awaiting(s: Pool) {
    s.destructor.Blocked? || s.destructor.Signalled?
  }

  /** What worker w does next while the destructor waits. */
  function NextOf(s: Pool, w: nat): Event
    requires w < |s.workers|
  {
    match s.workers[w]
    case Executing(_) => FinishTask(w)
    case Ran => CountIdle(w)
    case TimedOut => IdleCheck(w, false)
    case _ => if s.queue != [] then Take(w) else ExitShutdown(w)
  }

  /** Every live worker can move, and every worker move reduces the work left. */
  lemma WorkersCanMove(s: Pool, w: nat)
    requires Inv(s) && Awaiting(s) && w in s.threads
    ensures Enabled(s, NextOf(s, w)) && IsWorkerEvent(NextOf(s, w))
  {
  }

  lemma TakeReducesMeasure(s: Pool, w: nat)
    requires Enabled(s, Take(w))
    ensures Measure(Step(s, Take(w))) < Measure(s)
  {
    WeightOfUpdate(s.workers, w, Executing(s.queue[0]));
    WeightOfWakeAll(s.workers[w := Executing(s.queue[0])]);
  }

  /** A worker that moves on to a lighter position. */
  lemma LighterReducesMeasure(s: Pool, w: nat, p: Worker, n: Pool)
    requires w < |s.workers| && Weight(p) < Weight(s.workers[w])
    requires n.workers == s.workers[w := p] && n.queue == s.queue
    ensures Measure(n) < Measure(s)
  {
    WeightOfUpdate(s.workers, w, p);
  }

  lemma MoveReducesMeasure(s: Pool, e: Event)
    requires ThreadInv(s) && NotifiedInv(s) && Awaiting(s) && Enabled(s, e)
    ensures IsWorkerEvent(e) ==> Measure(Step(s, e)) < Measure(s)
    ensures !IsWorkerEvent(e) ==> Measure(Step(s, e)) == Measure(s)
    ensures Awaiting(Step(s, e)) || Step(s, e).destructor.Finished?
  {
    match e
    case Take(w) => TakeReducesMeasure(s, w);
    case IdleCheck(w, _) => LighterReducesMeasure(s, w, Step(s, e).workers[w], Step(s, e));
    case FinishTask(w) => LighterReducesMeasure(s, w, Ran, Step(s, e));
    case CountIdle(w) => LighterReducesMeasure(s, w, Ready, Step(s, e));
    case ExitShutdown(w) => LighterReducesMeasure(s, w, Exited, Step(s, e));
    case _ =>
  }

  ghost function WorkerMoves(es: seq<Event>): nat {
    if es == [] then 0 else (if IsWorkerEvent(es[0]) then 1 else 0) + WorkerMoves(es[1..])
  }

  lemma FinishedIsFinal(s: Pool, e: Event)
    requires Inv(s) && s.destructor.Finished?
    ensures !Enabled(s, e)
  {
  }

  /** From the moment the destructor waits, a run has at most Measure worker moves. */
  lemma {:induction false} WorkerMovesAreBounded(s: Pool, es: seq<Event>)
    requires Inv(s) && Awaiting(s) && Legal(s, es)
    ensures WorkerMoves(es) + Measure(Exec(s, es)) <= Measure(s)
    ensures Awaiting(Exec(s, es)) || Exec(s, es).destructor.Finished?
    decreases |es|
  {
    if es != [] {
      var n := Step(s, es[0]);
      MoveReducesMeasure(s, es[0]);
      EveryRunKeepsInv(s, [es[0]]);
      assert [es[0]][1..] == [] && Inv(n);
      if Awaiting(n) {
        WorkerMovesAreBounded(n, es[1..]);
      } else if es[1..] != [] {
        FinishedIsFinal(n, es[1..][0]);
        assert false;
      }
    }
  }

  /** Unless the pool may grow, in cached mode, the destructor cannot hang: once no worker
      can move any more, all threads are gone and it has returned or is about to. */
  lemma ShutsDown(s: Pool, es: seq<Event>)
    requires Inv(s) && !MayHang(s.config) && Awaiting(s) && Legal(s, es)
    requires forall e :: IsWorkerEvent(e) ==> !Enabled(Exec(s, es), e)
    ensures var n := Exec(s, es);
      n.threads == {} && (n.destructor.Finished? ||
        (Enabled(n, DestructorCheck) && Step(n, DestructorCheck).destructor.Finished?))
  {
    EveryRunKeepsInv(s, es);
    WorkerMovesAreBounded(s, es);
    hide TaskInv, CountInv;
    var n := Exec(s, es);
    if w :| w in n.threads {
      if Awaiting(n) { WorkersCanMove(n, w); }
    }
  }

  // ---- Hanging ----

  /** The destructor waits for threads that are all gone. */
  ghost predicate Stuck(s: Pool) {
    s.destructor.Blocked? && s.threads == {}
  }

  ghost predicate CanHang(s: Pool) {
    exists es :: Legal(s, es) && Stuck(Exec(s, es))
  }

  /** Nothing but a spurious wakeup is left then. */
  lemma StuckForGood(s: Pool, e: Event)
    requires Inv(s) && Stuck(s) && Enabled(s, e)
    ensures e == DestructorWake
  {
  }

  /** And one is enough: the destructor looks again and returns. */
  lemma SpuriousWakeupFrees(s: Pool)
    requires Inv(s) && Stuck(s)
    ensures Enabled(s, DestructorWake) && Enabled(Step(s, DestructorWake), DestructorCheck)
    ensures Step(Step(s, DestructorWake), DestructorCheck).destructor.Finished?
  {
    hide TaskInv, ThreadInv, CountInv, AwakeInv;
  }

  lemma StuckHangs(s: Pool)
    requires Stuck(s)
    ensures CanHang(s)
  {
    assert Legal(s, []) && Exec(s, []) == s;
  }

  lemma StepHangs(s: Pool, e: Event)
    requires Enabled(s, e) && CanHang(Step(s, e))
    ensures CanHang(s)
  {
    var es :| Legal(Step(s, e), es) && Stuck(Exec(Step(s, e), es));
    assert ([e] + es)[1..] == es;
    assert Legal(s, [e] + es) && Exec(s, [e] + es) == Exec(Step(s, e), es);
  }

  /** The destructor waits; the grown worker n timed out, the first i workers have left and
      the others are about to. */
  ghost predicate Leaving(s: Pool, n: nat, i: nat) {
    && MayHang(s.config) && s.config.initThreads == n && i <= n && |s.workers| == n + 1
    && s.queue == [] && s.lock.Free? && !s.running && s.curThreads == n + 1 && Awaiting(s)
    && (forall w: nat :: w in s.threads <==> i <= w <= n)
    && (forall j :: i <= j < n ==> s.workers[j].Ready?) && s.workers[n].TimedOut?
  }

  lemma LastIdlerHangs(s: Pool, n: nat)
    requires Leaving(s, n, n) && s.destructor.Blocked?
    ensures CanHang(s)
  {
    assert s.threads - {n} == {};
    StuckHangs(Step(s, IdleCheck(n, true)));
    StepHangs(s, IdleCheck(n, true));
  }

  lemma {:induction false} LeavingHangs(s: Pool, n: nat, i: nat)
    requires Leaving(s, n, i)
    ensures CanHang(s)
    decreases n - i
  {
    if i < n {
      LeavingHangs(Step(s, ExitShutdown(i)), n, i + 1);
      StepHangs(s, ExitShutdown(i));
    } else if s.destructor.Blocked? {
      LastIdlerHangs(s, n);
    } else {
      assert n in s.threads;
      LastIdlerHangs(Step(s, DestructorCheck), n);
      StepHangs(s, DestructorCheck);
    }
  }

  /** The pool has grown by one and is idle, with the grown worker at p. */
  ghost predicate Idle(s: Pool, n: nat, p: Worker) {
    && MayHang(s.config) && s.config.initThreads == n && |s.workers| == n + 1
    && s.queue == [] && s.running && s.destructor.NotBegun? && s.curThreads == n + 1
    && (forall w: nat :: w in s.threads <==> w <= n)
    && (forall j :: 0 <= j < n ==> s.workers[j].Ready?) && s.workers[n] == p
    && s.lock == if p.Checked? then HeldBy(n) else Free
  }

  lemma TimedOutHangs(s: Pool, n: nat)
    requires Idle(s, n, TimedOut)
    ensures CanHang(s)
  {
    var down := Step(s, BeginShutdown);
    assert n in down.threads;
    LeavingHangs(Step(down, NotifyAll), n, 0);
    StepHangs(down, NotifyAll);
    StepHangs(s, BeginShutdown);
  }

  lemma IdleHangs(s: Pool, n: nat)
    requires Idle(s, n, Ready)
    ensures CanHang(s)
  {
    var checked := Step(s, Check(n));
    var waiting := Step(checked, Wait(n));
    TimedOutHangs(Step(waiting, TimeOut(n)), n);
    StepHangs(waiting, TimeOut(n));
    StepHangs(checked, Wait(n));
    StepHangs(s, Check(n));
  }

  /** The grown pool finishes its tasks one after the other. */
  ghost predicate Finishing(s: Pool, n: nat, i: nat) {
    && MayHang(s.config) && s.config.initThreads == n && |s.workers| == n + 1 && i <= n + 1
    && s.queue == [] && s.lock.Free? && s.running && s.destructor.NotBegun? && s.curThreads == n + 1
    && (forall w: nat :: w in s.threads <==> w <= n)
    && (forall j :: 0 <= j < i ==> s.workers[j].Ready?)
    && (forall j :: i <= j <= n ==> s.workers[j].Executing?)
  }

  lemma {:induction false} FinishingHangs(s: Pool, n: nat, i: nat)
    requires Finishing(s, n, i)
    ensures CanHang(s)
    decreases n + 1 - i
  {
    if i == n + 1 {
      IdleHangs(s, n);
    } else {
      var ran := Step(s, FinishTask(i));
      FinishingHangs(Step(ran, CountIdle(i)), n, i + 1);
      StepHangs(ran, CountIdle(i));
      StepHangs(s, FinishTask(i));
    }
  }

  /** The first i of the initial workers are busy; nothing is queued. */
  ghost predicate Filling(s: Pool, n: nat, i: nat) {
    && MayHang(s.config) && s.config.initThreads == n && |s.workers| == n && i <= n
    && s.queue == [] && s.taskSize == 0 && s.lock.Free? && s.running && s.destructor.NotBegun?
    && s.curThreads == n && s.idleThreads == n - i
    && (forall w: nat :: w in s.threads <==> w < n)
    && (forall j :: 0 <= j < i ==> s.workers[j].Executing?)
    && (forall j :: i <= j < n ==> s.workers[j].Ready?)
  }

  /** With all of them busy the next task makes the pool grow. */
  lemma FullHangs(s: Pool, n: nat)
    requires Filling(s, n, n)
    ensures CanHang(s)
  {
    var grown := Step(s, SubmitAccept);
    assert grown.workers[n] == Ready;
    FinishingHangs(Step(grown, Take(n)), n, 0);
    StepHangs(grown, Take(n));
    StepHangs(s, SubmitAccept);
  }

  lemma {:induction false} FillingHangs(s: Pool, n: nat, i: nat)
    requires Filling(s, n, i)
    ensures CanHang(s)
    decreases n - i
  {
    if i == n {
      FullHangs(s, n);
    } else {
      var queued := Step(s, SubmitAccept);
      FillingHangs(Step(queued, Take(i)), n, i + 1);
      StepHangs(queued, Take(i));
      StepHangs(s, SubmitAccept);
    }
  }

  /** Exactly which pools can end with a destructor that waits for nobody: those in cached
      mode that may grow beyond their initial threads and take tasks at all. */
  lemma HangsExactlyWhen(config: Config)
    requires config.initThreads >= 1
    ensures CanHang(Start(config)) <==> MayHang(config)
  {
    if MayHang(config) {
      FillingHangs(Start(config), config.initThreads, 0);
    } else if CanHang(Start(config)) {
      var es :| Legal(Start(config), es) && Stuck(Exec(Start(config), es));
      StartHasInv(config);
      EveryRunKeepsInv(Start(config), es);
    }
  }
}
