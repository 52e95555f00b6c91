/** The life of connections across the base loop and the io loops. Each loop alternates
    between dispatching its active channels and running the functors it swapped out;
    teardown hops from the io loop to the base loop and back. */
module ConnectionLifecycle {
  import opened Basics

  type LoopId = nat
  type ConnId = nat
  type Tid = nat

  const BASE: LoopId := 0

  datatype Milestone = Established | Closed | Erased | Destroyed

  const LIFE := [Established, Closed, Erased, Destroyed]

  /** Queued work. The first three hold a shared pointer to the connection; RawF stands
      for sendInLoop and shutdownInLoop, which are queued with a raw pointer; LateF is one
      that thread `who` queued only after the batch with the destruction had begun. */
  datatype Functor =
    EstablishF(c: ConnId) | EraseF(c: ConnId) | DestroyF(c: ConnId) | RawF(c: ConnId) | LateF(c: ConnId, who: Tid)
  {
    predicate IsRaw() { RawF? || LateF? }
  }

  /** Another thread with a shared pointer to c; `tested` when it is inside send() or
      shutdown(), between its state test and its queueing. */
  datatype Caller = Caller(c: ConnId, tested: bool)

  datatype Mode = Idle | Dispatching(active: seq<ConnId>) | Functors

  /** `held` are the functors of the current batch that already ran: the local vector
      keeps them, and their pointers, until the batch ends. */
  datatype LoopState = LoopState(mode: Mode, held: seq<Functor>, batch: seq<Functor>, pending: seq<Functor>) {
    function Todo(): seq<Functor> { batch + pending }
  }

  datatype System = System(
    loops: map<LoopId, LoopState>,
    io: map<ConnId, LoopId>,
    hist: map<ConnId, seq<Milestone>>,
    connections: set<ConnId>,
    callers: map<Tid, Caller>)
  {
    function Loop(l: LoopId): LoopState { if l in loops then loops[l] else LoopState(Idle, [], [], []) }

    function Home(c: ConnId): LoopId { if c in io then io[c] else BASE }

    function Hist(c: ConnId): seq<Milestone> { if c in hist then hist[c] else [] }

    predicate IsActive(l: LoopId, c: ConnId) { Loop(l).mode.Dispatching? && c in Loop(l).mode.active }
  }

  function Start(): System {
    System(map[], map[], map[], {}, map[])
  }

  /** The event bits handleEventWithGuard looks at. */
  datatype Mask = Mask(hup: bool, pri: bool, input: bool, err: bool, output: bool)

  /** How often one handleEvent calls handleClose: once from the hang-up branch, and once
      more if the read callback also runs and reads end of file. */
  function CloseCalls(m: Mask, readsEof: bool): nat {
    (if m.hup && !m.input then 1 else 0) + (if (m.input || m.pri) && readsEof then 1 else 0)
  }

  /** Closing twice needs a hang-up with priority data but no input, read as end of file. */
  lemma ClosesTwiceExactlyWhen(m: Mask, readsEof: bool)
    ensures CloseCalls(m, readsEof) <= 2
    ensures CloseCalls(m, readsEof) == 2 <==> m.hup && m.pri && !m.input && readsEof
  {
  }

  // ---- The operations ----

  function SetLoop(s: System, l: LoopId, st: LoopState): System {
    s.(loops := s.loops[l := st])
  }

  function Push(s: System, l: LoopId, f: Functor): System {
    SetLoop(s, l, s.Loop(l).(pending := s.Loop(l).pending + [f]))
  }

  function Record(s: System, c: ConnId, m: Milestone): System {
    s.(hist := s.hist[c := s.Hist(c) + [m]])
  }

  function NewConnection(s: System, c: ConnId, l: LoopId): System {
    if l == BASE then Record(Made(s, c, l), c, Established) else Push(Made(s, c, l), l, EstablishF(c))
  }

  function Made(s: System, c: ConnId, l: LoopId): System {
    s.(io := s.io[c := l], hist := s.hist[c := []], connections := s.connections + {c})
  }

  function RemoveConnectionInLoop(s: System, c: ConnId): System {
    Push(Record(s.(connections := s.connections - {c}), c, Erased), s.Home(c), DestroyF(c))
  }

  /** handleClose on loop l, including the close callback into the server. */
  function HandleClose(s: System, l: LoopId, c: ConnId): System {
    var closed := Record(s, c, Closed);
    if l == BASE then RemoveConnectionInLoop(closed, c) else Push(closed, BASE, EraseF(c))
  }

  function RunFunctor(s: System, f: Functor): System {
    match f
    case EstablishF(c) => Record(s, c, Established)
    case EraseF(c) => RemoveConnectionInLoop(s, c)
    case DestroyF(c) => Record(s, c, Destroyed)
    case RawF(_) => s
    case LateF(_, _) => s
  }

  /** The destruction of c is neither done nor in the batch being run. */
  predicate InTime(s: System, c: ConnId) {
    Destroyed !in s.Hist(c) && DestroyF(c) !in s.Loop(s.Home(c)).batch
  }

  /** The second half of send() or shutdown() in another thread. */
  function PushRaw(s: System, t: Tid): System
    requires t in s.callers
  {
    var c := s.callers[t].c;
    Push(s, s.Home(c), RawOf(s, t)).(callers := s.callers[t := Caller(c, false)])
  }

  /** The functor that thread t queues. */
  function RawOf(s: System, t: Tid): Functor
    requires t in s.callers
  {
    if InTime(s, s.callers[t].c) then RawF(s.callers[t].c) else LateF(s.callers[t].c, t)
  }

  datatype Event =
    | Poll(l: LoopId, active: seq<ConnId>)
    | HandleEvent(l: LoopId, mask: Mask, readsEof: bool)
    | Accept(c: ConnId, to: LoopId)
    | EndDispatch(l: LoopId)
    | RunNext(l: LoopId)
    | EndBatch(l: LoopId)
    | Grab(t: Tid, c: ConnId)
    | Test(t: Tid)
    | Queue(t: Tid)
    | Drop(t: Tid)

  /** The channel is in its loop's interest set. */
  predicate Registered(s: System, c: ConnId) {
    Established in s.Hist(c) && Closed !in s.Hist(c)
  }

  ghost predicate Enabled(s: System, e: Event) {
    match e
    case Poll(l, active) =>
      && s.Loop(l).mode.Idle? && Distinct(active)
      && forall c :: c in active ==> s.Home(c) == l && Registered(s, c)
    case HandleEvent(l, _, _) => s.Loop(l).mode.Dispatching? && s.Loop(l).mode.active != []
    case Accept(c, _) => s.Loop(BASE).mode.Dispatching? && c !in s.io
    case EndDispatch(l) => s.Loop(l).mode == Dispatching([])
    case RunNext(l) => s.Loop(l).mode.Functors? && s.Loop(l).batch != []
    case EndBatch(l) => s.Loop(l).mode.Functors? && s.Loop(l).batch == []
    case Grab(t, c) => t !in s.callers && c in s.io && Referenced(s, c)
    case Test(t) => t in s.callers && !s.callers[t].tested && Registered(s, s.callers[t].c)
    case Queue(t) => t in s.callers && s.callers[t].tested
    case Drop(t) => t in s.callers && !s.callers[t].tested
  }

  /** Some shared pointer to c exists: in the server's map, in a queued functor, in the
      batch a loop is running, or with a caller. */
  ghost predicate Referenced(s: System, c: ConnId) {
    || c in s.connections
    || (exists l, f :: f in s.Loop(l).held + s.Loop(l).Todo() && f.c == c && !f.IsRaw())
    || HasCaller(s, c)
  }

  ghost predicate HasCaller(s: System, c: ConnId) {
    exists t :: t in s.callers && s.callers[t].c == c
  }

  function Undispatch(s: System, l: LoopId): System
    requires s.Loop(l).mode.Dispatching? && s.Loop(l).mode.active != []
  {
    SetLoop(s, l, s.Loop(l).(mode := Dispatching(s.Loop(l).mode.active[1..])))
  }

  function Pop(s: System, l: LoopId): System
    requires s.Loop(l).batch != []
  {
    SetLoop(s, l, s.Loop(l).(batch := s.Loop(l).batch[1..], held := s.Loop(l).held + [s.Loop(l).batch[0]]))
  }

  ghost function Step(s: System, e: Event): System
    requires Enabled(s, e)
  {
    match e
    case Poll(l, active) => SetLoop(s, l, s.Loop(l).(mode := Dispatching(active)))
    case HandleEvent(l, mask, readsEof) =>
      var c := s.Loop(l).mode.active[0];
      var calls := CloseCalls(mask, readsEof);
      if calls == 0 then Undispatch(s, l)
      else if calls == 1 then HandleClose(Undispatch(s, l), l, c)
      else HandleClose(HandleClose(Undispatch(s, l), l, c), l, c)
    case Accept(c, to) => NewConnection(s, c, to)
    case EndDispatch(l) =>
      SetLoop(s, l, s.Loop(l).(mode := Functors, batch := s.Loop(l).pending, pending := []))
    case RunNext(l) => RunFunctor(Pop(s, l), s.Loop(l).batch[0])
    case EndBatch(l) => SetLoop(s, l, s.Loop(l).(mode := Idle, held := []))
    case Grab(t, c) => s.(callers := s.callers[t := Caller(c, false)])
    case Test(t) => s.(callers := s.callers[t := Caller(s.callers[t].c, true)])
    case Queue(t) => PushRaw(s, t)
    case Drop(t) => s.(callers := s.callers - {t})
  }

  // ---- What every step keeps ----

  /** The part of a work list that is about connection c. */
  ghost function Mine(fs: seq<Functor>, c: ConnId): seq<Functor> {
    if fs == [] then []
    else if fs[0].c == c then [fs[0]] + Mine(fs[1..], c)
    else Mine(fs[1..], c)
  }

  /** Work without the functors that hold a raw pointer. */
  ghost function Proper(fs: seq<Functor>): seq<Functor> {
    if fs == [] then []
    else if fs[0].IsRaw() then Proper(fs[1..])
    else [fs[0]] + Proper(fs[1..])
  }

  /** What must be queued for c on loop l, decided by how far c's life has got. */
  ghost function Expected(c: ConnId, age: nat, home: LoopId, l: LoopId): seq<Functor> {
    if age == 0 && l == home then [EstablishF(c)]
    else if age == 2 && l == BASE then [EraseF(c)]
    else if age == 3 && l == home then [DestroyF(c)]
    else []
  }

  /** Raw functors may come on top, on the home loop of a connection that was established. */
  ghost predicate WorkFits(c: ConnId, age: nat, home: LoopId, l: LoopId, work: seq<Functor>) {
    && Proper(work) == Expected(c, age, home, l)
    && (work == Proper(work) || (age >= 1 && l == home))
    && (age == 2 ==> home != BASE)
  }

  ghost function Work(s: System, l: LoopId, c: ConnId): seq<Functor> {
    Mine(s.Loop(l).Todo(), c)
  }

  /** Everything known about connection c as seen from loop l. */
  ghost predicate LocalInv(s: System, c: ConnId, l: LoopId) {
    && s.Hist(c) <= LIFE
    && (c in s.connections <==> c in s.io && |s.Hist(c)| <= 2)
    && (if c in s.io then WorkFits(c, |s.Hist(c)|, s.Home(c), l, Work(s, l, c))
        else s.Hist(c) == [] && Work(s, l, c) == [])
    && (s.IsActive(l, c) ==> c in s.io && |s.Hist(c)| == 1 && l == s.Home(c))
  }

  /** Functors a batch has run belong to the loop they were queued to. */
  ghost predicate HeldFits(s: System, l: LoopId, f: Functor) {
    f.c in s.io && (f.IsRaw() || l == BASE || l == s.Home(f.c))
  }

  ghost predicate LoopInv(s: System, l: LoopId) {
    && (s.Loop(l).mode.Dispatching? ==> Distinct(s.Loop(l).mode.active))
    && (!s.Loop(l).mode.Functors? ==> s.Loop(l).batch == [] && s.Loop(l).held == [])
    && (forall f :: f in s.Loop(l).held ==> HeldFits(s, l, f))
  }

  /** A raw functor queued in time meets a connection that is alive, or whose destruction
      ran in the same batch. */
  ghost predicate Timely(s: System, c: ConnId) {
    var st := s.Loop(s.Home(c));
    && (RawF(c) in st.pending ==> |s.Hist(c)| < 4 && DestroyF(c) !in st.batch)
    && (RawF(c) in st.batch ==> |s.Hist(c)| < 4 || DestroyF(c) in st.held)
  }

  ghost predicate CallerInv(s: System, t: Tid) {
    t in s.callers ==> s.callers[t].c in s.io && (s.callers[t].tested ==> |s.Hist(s.callers[t].c)| >= 1)
  }

  ghost predicate Inv(s: System) {
    && (forall c, l :: LocalInv(s, c, l))
    && (forall l :: LoopInv(s, l))
    && (forall c :: Timely(s, c))
    && (forall t :: CallerInv(s, t))
  }

  lemma {:induction false} ProperOfPush(fs: seq<Functor>, f: Functor)
    ensures Proper(fs + [f]) == Proper(fs) + if f.IsRaw() then [] else [f]
    decreases |fs|
  {
    if fs == [] {
      assert fs + [f] == [f];
    } else {
      ProperOfPush(fs[1..], f);
      assert (fs + [f])[1..] == fs[1..] + [f];
    }
  }

  lemma {:induction false} ProperIsShorter(fs: seq<Functor>)
    ensures |Proper(fs)| <= |fs|
    decreases |fs|
  {
    if fs != [] { ProperIsShorter(fs[1..]); }
  }

  lemma {:induction false} MineOfPush(fs: seq<Functor>, f: Functor, c: ConnId)
    ensures Mine(fs + [f], c) == Mine(fs, c) + if f.c == c then [f] else []
    decreases |fs|
  {
    if fs == [] {
      assert fs + [f] == [f];
    } else {
      MineOfPush(fs[1..], f, c);
      assert (fs + [f])[1..] == fs[1..] + [f];
    }
  }

  lemma WorkOfPush(s: System, l: LoopId, f: Functor, k: LoopId, c: ConnId)
    ensures Work(Push(s, l, f), k, c) == if k == l && f.c == c then Work(s, k, c) + [f] else Work(s, k, c)
  {
    if k == l {
      assert Push(s, l, f).Loop(l).Todo() == s.Loop(l).Todo() + [f];
      MineOfPush(s.Loop(l).Todo(), f, c);
    }
  }

  lemma WorkOfPop(s: System, l: LoopId, k: LoopId, c: ConnId)
    requires s.Loop(l).batch != []
    ensures if k == l && s.Loop(l).batch[0].c == c
      then Work(s, k, c) == [s.Loop(l).batch[0]] + Work(Pop(s, l), k, c)
      else Work(s, k, c) == Work(Pop(s, l), k, c)
  {
    if k == l {
      assert Pop(s, l).Loop(l).Todo() == s.Loop(l).Todo()[1..];
    }
  }

  lemma SecondIsClosed(h: seq<Milestone>)
    requires h <= LIFE && |h| >= 2
    ensures Closed in h
  {
    assert h[1] == LIFE[1];
  }

  lemma FourthIsDestroyed(h: seq<Milestone>)
    requires h <= LIFE && |h| >= 4
    ensures Destroyed in h
  {
    assert h[3] == LIFE[3];
  }

  /** A life that has been established but not closed has exactly one milestone. */
  lemma RegisteredAge(s: System, c: ConnId)
    requires s.Hist(c) <= LIFE && Registered(s, c)
    ensures |s.Hist(c)| == 1
  {
    if |s.Hist(c)| >= 2 {
      SecondIsClosed(s.Hist(c));
      assert false;
    }
  }

  lemma LifeGrows(h: seq<Milestone>)
    requires h <= LIFE && |h| < 4
    ensures h + [LIFE[|h|]] <= LIFE
  {
    assert h == LIFE[..|h|];
  }

  /** The head of a work list that fits tells how far the connection has got. */
  lemma HeadFits(c: ConnId, age: nat, home: LoopId, l: LoopId, f: Functor, rest: seq<Functor>)
    requires WorkFits(c, age, home, l, [f] + rest)
    ensures f.IsRaw() ==> age >= 1 && l == home && WorkFits(c, age, home, l, rest)
    ensures !f.IsRaw() ==> [f] == Expected(c, age, home, l) && Proper(rest) == [] && (rest == [] || (age >= 1 && l == home))
  {
    assert ([f] + rest)[1..] == rest;
    ProperIsShorter(rest);
  }

  /** The functor at the head of loop l tells how far its connection has got. */
  lemma HeadTells(s: System, l: LoopId)
    requires Inv(s) && Enabled(s, RunNext(l))
    ensures s.Loop(l).batch[0].c in s.io
    ensures s.Loop(l).batch[0].EstablishF? ==> |s.Hist(s.Loop(l).batch[0].c)| == 0
    ensures s.Loop(l).batch[0].EraseF? ==> |s.Hist(s.Loop(l).batch[0].c)| == 2 && l == BASE
    ensures s.Loop(l).batch[0].DestroyF? ==> |s.Hist(s.Loop(l).batch[0].c)| == 3
    ensures s.Loop(l).batch[0].IsRaw() ==> |s.Hist(s.Loop(l).batch[0].c)| >= 1
    ensures !s.Loop(l).batch[0].EraseF? ==> l == s.Home(s.Loop(l).batch[0].c)
  {
    var f := s.Loop(l).batch[0];
    WorkOfPop(s, l, l, f.c);
    assert LocalInv(s, f.c, l);
    HeadFits(f.c, |s.Hist(f.c)|, s.Home(f.c), l, f, Work(Pop(s, l), l, f.c));
  }

  lemma RunOtherKeeps(s: System, l: LoopId, c: ConnId, k: LoopId)
    requires LocalInv(s, c, k) && Enabled(s, RunNext(l)) && c != s.Loop(l).batch[0].c
    ensures LocalInv(Step(s, RunNext(l)), c, k)
  {
    var f := s.Loop(l).batch[0];
    var p := Pop(s, l);
    WorkOfPop(s, l, k, c);
    assert LocalInv(p, c, k);
    if f.EraseF? {
      EraseOtherKeeps(p, f.c, c, k);
    } else {
      assert Work(Step(s, RunNext(l)), k, c) == Work(p, k, c);
    }
  }

  /** Erasing one connection leaves the others alone. */
  lemma EraseOtherKeeps(p: System, a: ConnId, c: ConnId, k: LoopId)
    requires LocalInv(p, c, k) && c != a
    ensures LocalInv(RemoveConnectionInLoop(p, a), c, k)
  {
    var mid := Record(p.(connections := p.connections - {a}), a, Erased);
    assert Work(mid, k, c) == Work(p, k, c);
    WorkOfPush(mid, mid.Home(a), DestroyF(a), k, c);
  }

  lemma RecordOtherKeeps(p: System, a: ConnId, m: Milestone, c: ConnId, k: LoopId)
    requires LocalInv(p, c, k) && c != a
    ensures LocalInv(Record(p, a, m), c, k)
  {
    assert Work(Record(p, a, m), k, c) == Work(p, k, c);
  }

  lemma PushOtherKeeps(p: System, l: LoopId, f: Functor, c: ConnId, k: LoopId)
    requires LocalInv(p, c, k) && c != f.c
    ensures LocalInv(Push(p, l, f), c, k)
  {
    WorkOfPush(p, l, f, k, c);
  }

  /** From erased on, the destruction is queued on the home loop. */
  lemma WorkFitsDestroy(c: ConnId, home: LoopId, l: LoopId, work: seq<Functor>)
    requires Proper(work) == [] && (work == [] || l == home)
    ensures WorkFits(c, 3, home, l, if l == home then work + [DestroyF(c)] else work)
  {
    ProperOfPush(work, DestroyF(c));
  }

  lemma RunEraseKeeps(s: System, c: ConnId, k: LoopId)
    requires Inv(s) && Enabled(s, RunNext(BASE)) && s.Loop(BASE).batch[0] == EraseF(c)
    ensures LocalInv(Step(s, RunNext(BASE)), c, k)
  {
    var p := Pop(s, BASE);
    HeadTells(s, BASE);
    assert LocalInv(s, c, k);
    WorkOfPop(s, BASE, k, c);
    if k == BASE { HeadFits(c, 2, s.Home(c), k, EraseF(c), Work(p, k, c)); }
    LifeGrows(s.Hist(c));
    var mid := Record(p.(connections := p.connections - {c}), c, Erased);
    assert Work(mid, k, c) == Work(p, k, c);
    WorkOfPush(mid, mid.Home(c), DestroyF(c), k, c);
    WorkFitsDestroy(c, s.Home(c), k, Work(p, k, c));
  }

  lemma RunOwnKeeps(s: System, l: LoopId, k: LoopId)
    requires Inv(s) && Enabled(s, RunNext(l)) && !s.Loop(l).batch[0].EraseF?
    ensures LocalInv(Step(s, RunNext(l)), s.Loop(l).batch[0].c, k)
  {
    var f := s.Loop(l).batch[0];
    var c := f.c;
    var p := Pop(s, l);
    HeadTells(s, l);
    assert LocalInv(s, c, k);
    WorkOfPop(s, l, k, c);
    assert Work(Step(s, RunNext(l)), k, c) == Work(p, k, c);
    if k == l { HeadFits(c, |s.Hist(c)|, s.Home(c), k, f, Work(p, k, c)); }
    if !f.IsRaw() { LifeGrows(s.Hist(c)); }
  }

  lemma RunNextKeeps(s: System, l: LoopId, c: ConnId, k: LoopId)
    requires Inv(s) && Enabled(s, RunNext(l))
    ensures LocalInv(Step(s, RunNext(l)), c, k)
  {
    var f := s.Loop(l).batch[0];
    if c != f.c {
      assert LocalInv(s, c, k);
      RunOtherKeeps(s, l, c, k);
    } else if f.EraseF? {
      HeadTells(s, l);
      RunEraseKeeps(s, c, k);
    } else {
      RunOwnKeeps(s, l, k);
    }
  }

  /** Taking the head off the active list makes its connection inactive. */
  lemma UndispatchKeeps(s: System, l: LoopId, c: ConnId, k: LoopId)
    requires Inv(s) && s.Loop(l).mode.Dispatching? && s.Loop(l).mode.active != []
    ensures Work(Undispatch(s, l), k, c) == Work(s, k, c)
    ensures LocalInv(Undispatch(s, l), c, k)
    ensures !Undispatch(s, l).IsActive(k, s.Loop(l).mode.active[0])
    ensures var a := s.Loop(l).mode.active[0]; a in s.io && |s.Hist(a)| == 1 && s.Home(a) == l
  {
    var a := s.Loop(l).mode.active[0];
    assert LocalInv(s, c, k) && LocalInv(s, a, l) && LocalInv(s, a, k);
    assert s.IsActive(l, a) && LoopInv(s, l);
  }

  /** Closing one connection leaves the others alone. */
  lemma CloseOtherKeeps(u: System, l: LoopId, a: ConnId, c: ConnId, k: LoopId)
    requires LocalInv(u, c, k) && c != a
    ensures LocalInv(HandleClose(u, l, a), c, k)
  {
    RecordOtherKeeps(u, a, Closed, c, k);
    if l == BASE {
      EraseOtherKeeps(Record(u, a, Closed), a, c, k);
    } else {
      PushOtherKeeps(Record(u, a, Closed), BASE, EraseF(a), c, k);
    }
  }

  /** Once closed on an io loop, the erasure is queued on the base loop. */
  lemma WorkFitsErase(c: ConnId, home: LoopId, l: LoopId, work: seq<Functor>)
    requires WorkFits(c, 1, home, l, work) && home != BASE
    ensures WorkFits(c, 2, home, l, if l == BASE then work + [EraseF(c)] else work)
  {
    ProperOfPush(work, EraseF(c));
  }

  lemma CloseRemoteKeeps(u: System, l: LoopId, a: ConnId, k: LoopId)
    requires LocalInv(u, a, k) && l != BASE && !u.IsActive(k, a)
    requires a in u.io && |u.Hist(a)| == 1 && u.Home(a) == l
    ensures LocalInv(HandleClose(u, l, a), a, k)
  {
    hide Work, WorkFits;
    var closed := Record(u, a, Closed);
    SameWork(u, closed, k, a);
    WorkOfPush(closed, BASE, EraseF(a), k, a);
    WorkFitsErase(a, l, k, Work(u, k, a));
    LifeGrows(u.Hist(a));
  }

  lemma CloseOnBaseKeeps(u: System, a: ConnId, k: LoopId)
    requires LocalInv(u, a, k) && !u.IsActive(k, a)
    requires a in u.io && |u.Hist(a)| == 1 && u.Home(a) == BASE
    ensures LocalInv(HandleClose(u, BASE, a), a, k)
  {
    var closed := Record(u, a, Closed);
    var mid := Record(closed.(connections := closed.connections - {a}), a, Erased);
    WorkFitsDestroy(a, BASE, k, Work(u, k, a));
    hide Work, WorkFits;
    SameWork(u, mid, k, a);
    WorkOfPush(mid, BASE, DestroyF(a), k, a);
    LifeGrows(u.Hist(a));
    LifeGrows(u.Hist(a) + [Closed]);
  }

  lemma CloseKeeps(s: System, l: LoopId, c: ConnId, k: LoopId)
    requires Inv(s) && s.Loop(l).mode.Dispatching? && s.Loop(l).mode.active != []
    ensures LocalInv(HandleClose(Undispatch(s, l), l, s.Loop(l).mode.active[0]), c, k)
  {
    var u, a := Undispatch(s, l), s.Loop(l).mode.active[0];
    UndispatchKeeps(s, l, c, k);
    if c != a {
      CloseOtherKeeps(u, l, a, c, k);
    } else if l == BASE {
      CloseOnBaseKeeps(u, a, k);
    } else {
      CloseRemoteKeeps(u, l, a, k);
    }
  }

  lemma AcceptOtherKeeps(s: System, n: ConnId, to: LoopId, c: ConnId, k: LoopId)
    requires LocalInv(s, c, k) && n !in s.io && c != n
    ensures LocalInv(NewConnection(s, n, to), c, k)
  {
    var made := Made(s, n, to);
    assert Work(made, k, c) == Work(s, k, c);
    assert LocalInv(made, c, k);
    if to == BASE {
      RecordOtherKeeps(made, n, Established, c, k);
    } else {
      PushOtherKeeps(made, to, EstablishF(n), c, k);
    }
  }

  lemma AcceptOwnKeeps(s: System, n: ConnId, to: LoopId, k: LoopId)
    requires LocalInv(s, n, k) && n !in s.io
    ensures LocalInv(NewConnection(s, n, to), n, k)
  {
    var made := Made(s, n, to);
    assert Work(made, k, n) == [] by { assert Work(made, k, n) == Work(s, k, n); }
    hide Work;
    if to == BASE {
      SameWork(made, Record(made, n, Established), k, n);
      LifeGrows([]);
    } else {
      WorkOfPush(made, to, EstablishF(n), k, n);
      ProperOfPush([], EstablishF(n));
      assert [] + [EstablishF(n)] == [EstablishF(n)];
    }
  }

  lemma SameWork(s: System, n: System, k: LoopId, c: ConnId)
    requires n.loops == s.loops
    ensures Work(n, k, c) == Work(s, k, c)
  {
  }

  /** The event never makes a channel call handleClose twice. */
  predicate ClosesAtMostOnce(e: Event) {
    e.HandleEvent? ==> CloseCalls(e.mask, e.readsEof) <= 1
  }

  lemma PollKeeps(s: System, l: LoopId, active: seq<ConnId>, c: ConnId, k: LoopId)
    requires LocalInv(s, c, k) && Enabled(s, Poll(l, active))
    ensures LocalInv(Step(s, Poll(l, active)), c, k)
  {
    assert Work(Step(s, Poll(l, active)), k, c) == Work(s, k, c);
    if c in active { RegisteredAge(s, c); }
  }

  lemma SwapKeeps(s: System, l: LoopId, c: ConnId, k: LoopId)
    requires LocalInv(s, c, k) && LoopInv(s, l) && Enabled(s, EndDispatch(l))
    ensures LocalInv(Step(s, EndDispatch(l)), c, k)
  {
    assert Step(s, EndDispatch(l)).Loop(l).Todo() == s.Loop(l).Todo();
  }

  lemma QueueKeeps(s: System, t: Tid, c: ConnId, k: LoopId)
    requires LocalInv(s, c, k) && CallerInv(s, t) && Enabled(s, Queue(t))
    ensures LocalInv(Step(s, Queue(t)), c, k)
  {
    var q := s.callers[t].c;
    var f := RawOf(s, t);
    var pushed := Push(s, s.Home(q), f);
    assert LocalInv(pushed, c, k) by {
      if q != c {
        PushOtherKeeps(s, s.Home(q), f, c, k);
      } else {
        WorkOfPush(s, s.Home(q), f, k, c);
        ProperOfPush(Work(s, k, c), f);
      }
    }
    SameLoopsKeep(pushed, Step(s, Queue(t)), c, k);
  }

  /** Callers do not matter to a connection's own bookkeeping. */
  lemma SameLoopsKeep(s: System, n: System, c: ConnId, k: LoopId)
    requires LocalInv(s, c, k) && n == s.(callers := n.callers)
    ensures LocalInv(n, c, k)
  {
    assert Work(n, k, c) == Work(s, k, c);
  }

  lemma StepKeepsLocal(s: System, e: Event, c: ConnId, k: LoopId)
    requires Inv(s) && Enabled(s, e) && ClosesAtMostOnce(e)
    ensures LocalInv(Step(s, e), c, k)
  {
    assert LocalInv(s, c, k);
    match e
    case Poll(l, active) => PollKeeps(s, l, active, c, k);
    case HandleEvent(l, mask, eof) =>
      UndispatchKeeps(s, l, c, k);
      CloseKeeps(s, l, c, k);
    case Accept(n, to) =>
      if c == n { AcceptOwnKeeps(s, n, to, k); } else { AcceptOtherKeeps(s, n, to, c, k); }
    case EndDispatch(l) =>
      assert LoopInv(s, l);
      SwapKeeps(s, l, c, k);
    case RunNext(l) => RunNextKeeps(s, l, c, k);
    case EndBatch(l) => assert Work(Step(s, e), k, c) == Work(s, k, c);
    case Queue(t) =>
      assert CallerInv(s, t);
      QueueKeeps(s, t, c, k);
    case _ => SameLoopsKeep(s, Step(s, e), c, k);
  }

  // ---- Loops, raw functors and callers ----

  /** Home loops are for ever, and lives only grow. */
  ghost predicate Grows(s: System, n: System) {
    forall c :: c in s.io ==> c in n.io && n.Home(c) == s.Home(c) && |s.Hist(c)| <= |n.Hist(c)|
  }

  lemma HandleCloseGrows(s: System, l: LoopId, a: ConnId, c: ConnId)
    ensures var n := HandleClose(s, l, a); n.io == s.io && |s.Hist(c)| <= |n.Hist(c)|
  {
  }

  lemma RunFunctorGrows(s: System, f: Functor, c: ConnId)
    ensures var n := RunFunctor(s, f); n.io == s.io && |s.Hist(c)| <= |n.Hist(c)|
  {
  }

  lemma HandleEventGrows(s: System, l: LoopId, mask: Mask, eof: bool, c: ConnId)
    requires Enabled(s, HandleEvent(l, mask, eof))
    ensures var n := Step(s, HandleEvent(l, mask, eof)); n.io == s.io && |s.Hist(c)| <= |n.Hist(c)|
  {
    hide HandleClose;
    var u, a := Undispatch(s, l), s.Loop(l).mode.active[0];
    HandleCloseGrows(u, l, a, c);
    HandleCloseGrows(HandleClose(u, l, a), l, a, c);
  }

  lemma StepGrowsAt(s: System, e: Event, c: ConnId)
    requires Enabled(s, e) && c in s.io
    ensures var n := Step(s, e); c in n.io && n.Home(c) == s.Home(c) && |s.Hist(c)| <= |n.Hist(c)|
  {
    hide RunFunctor, HandleClose;
    match e
    case HandleEvent(l, mask, eof) => HandleEventGrows(s, l, mask, eof, c);
    case RunNext(l) => RunFunctorGrows(Pop(s, l), s.Loop(l).batch[0], c);
    case _ =>
  }

  lemma StepGrows(s: System, e: Event)
    requires Enabled(s, e)
    ensures Grows(s, Step(s, e))
  {
    hide Step, Enabled;
    forall c | c in s.io
      ensures c in Step(s, e).io && Step(s, e).Home(c) == s.Home(c) && |s.Hist(c)| <= |Step(s, e).Hist(c)|
    {
      StepGrowsAt(s, e, c);
    }
  }

  /** A loop of which only the queue changed. */
  lemma LoopKept(s: System, n: System, l: LoopId)
    requires LoopInv(s, l) && Grows(s, n) && n.Loop(l).mode == s.Loop(l).mode
    requires n.Loop(l).batch == s.Loop(l).batch && n.Loop(l).held == s.Loop(l).held
    ensures LoopInv(n, l)
  {
  }

  lemma RunNextLeaves(s: System, l: LoopId, k: LoopId)
    requires Enabled(s, RunNext(l))
    ensures var n := Step(s, RunNext(l));
      && n.Loop(k).mode == s.Loop(k).mode && n.callers == s.callers
      && n.Loop(k).batch == (if k == l then s.Loop(k).batch[1..] else s.Loop(k).batch)
      && n.Loop(k).held == (if k == l then s.Loop(k).held + [s.Loop(k).batch[0]] else s.Loop(k).held)
      && (n.Loop(k).pending == s.Loop(k).pending ||
          exists f :: n.Loop(k).pending == s.Loop(k).pending + [f])
  {
    var f := s.Loop(l).batch[0];
    if f.EraseF? && k == s.Home(f.c) {
      assert Step(s, RunNext(l)).Loop(k).pending == s.Loop(k).pending + [DestroyF(f.c)];
    }
  }

  lemma HandleCloseLeaves(s: System, l: LoopId, c: ConnId, k: LoopId)
    ensures var n := HandleClose(s, l, c);
      n.Loop(k).mode == s.Loop(k).mode && n.Loop(k).batch == s.Loop(k).batch && n.Loop(k).held == s.Loop(k).held
  {
  }

  lemma HandleEventKeepsLoop(s: System, l: LoopId, mask: Mask, eof: bool, k: LoopId)
    requires LoopInv(s, k) && Enabled(s, HandleEvent(l, mask, eof)) && ClosesAtMostOnce(HandleEvent(l, mask, eof))
    ensures LoopInv(Step(s, HandleEvent(l, mask, eof)), k)
  {
    var u, a := Undispatch(s, l), s.Loop(l).mode.active[0];
    assert LoopInv(u, k);
    HandleCloseLeaves(u, l, a, k);
    StepGrows(s, HandleEvent(l, mask, eof));
    hide HandleClose;
    if CloseCalls(mask, eof) == 1 {
      LoopKept(u, HandleClose(u, l, a), k);
    }
  }

  lemma RunNextKeepsLoop(s: System, l: LoopId, k: LoopId)
    requires Inv(s) && Enabled(s, RunNext(l))
    ensures LoopInv(Step(s, RunNext(l)), k)
  {
    assert LoopInv(s, k);
    StepGrows(s, RunNext(l));
    RunNextLeaves(s, l, k);
    HeadTells(s, l);
    hide Step, RunFunctor, LocalInv, Timely, CallerInv;
    if k == l {
      var n, f := Step(s, RunNext(l)), s.Loop(l).batch[0];
      assert HeldFits(n, l, f);
    } else {
      LoopKept(s, Step(s, RunNext(l)), k);
    }
  }

  lemma StepKeepsLoop(s: System, e: Event, k: LoopId)
    requires Inv(s) && Enabled(s, e) && ClosesAtMostOnce(e)
    ensures LoopInv(Step(s, e), k)
  {
    assert LoopInv(s, k);
    StepGrows(s, e);
    hide Inv, LocalInv, Timely, CallerInv;
    match e
    case HandleEvent(l, mask, eof) => HandleEventKeepsLoop(s, l, mask, eof, k);
    case RunNext(l) => RunNextKeepsLoop(s, l, k);
    case Accept(c, to) => LoopKept(s, Step(s, e), k);
    case Queue(t) => LoopKept(s, Step(s, e), k);
    case Grab(_, _) => LoopKept(s, Step(s, e), k);
    case Test(_) => LoopKept(s, Step(s, e), k);
    case Drop(_) => LoopKept(s, Step(s, e), k);
    case Poll(l, _) => if k != l { LoopKept(s, Step(s, e), k); }
    case EndDispatch(l) => if k != l { LoopKept(s, Step(s, e), k); }
    case EndBatch(l) => if k != l { LoopKept(s, Step(s, e), k); }
  }

  /** The home loop and the age decide. */
  lemma TimelyKept(s: System, n: System, c: ConnId)
    requires Timely(s, c) && n.Home(c) == s.Home(c) && n.Hist(c) == s.Hist(c)
    requires n.Loop(s.Home(c)) == s.Loop(s.Home(c)).(mode := n.Loop(s.Home(c)).mode)
    ensures Timely(n, c)
  {
  }

  lemma PushTimely(s: System, l: LoopId, f: Functor, c: ConnId)
    requires Timely(s, c)
    requires f == RawF(c) && l == s.Home(c) ==> |s.Hist(c)| < 4 && DestroyF(c) !in s.Loop(l).batch
    ensures Timely(Push(s, l, f), c)
  {
  }

  lemma RecordTimely(s: System, a: ConnId, m: Milestone, c: ConnId)
    requires Timely(s, c) && (a == c ==> |s.Hist(c)| < 3)
    ensures Timely(Record(s, a, m), c)
  {
  }

  lemma EraseTimely(s: System, a: ConnId, c: ConnId)
    requires Timely(s, c) && (a == c ==> |s.Hist(c)| < 3)
    ensures Timely(RemoveConnectionInLoop(s, a), c)
  {
    var out := s.(connections := s.connections - {a});
    TimelyKept(s, out, c);
    RecordTimely(out, a, Erased, c);
    PushTimely(Record(out, a, Erased), s.Home(a), DestroyF(a), c);
  }

  lemma CloseTimely(s: System, l: LoopId, a: ConnId, c: ConnId)
    requires Timely(s, c) && (a == c ==> |s.Hist(c)| < 2)
    ensures Timely(HandleClose(s, l, a), c)
  {
    RecordTimely(s, a, Closed, c);
    if l == BASE {
      EraseTimely(Record(s, a, Closed), a, c);
    } else {
      PushTimely(Record(s, a, Closed), BASE, EraseF(a), c);
    }
  }

  lemma HandleEventTimely(s: System, l: LoopId, mask: Mask, eof: bool, c: ConnId)
    requires Inv(s) && Enabled(s, HandleEvent(l, mask, eof)) && ClosesAtMostOnce(HandleEvent(l, mask, eof))
    ensures Timely(Step(s, HandleEvent(l, mask, eof)), c)
  {
    var a := s.Loop(l).mode.active[0];
    assert Timely(s, c);
    assert |s.Hist(a)| == 1 by { assert LocalInv(s, a, l) && s.IsActive(l, a); }
    hide Inv, Timely, HandleClose;
    TimelyKept(s, Undispatch(s, l), c);
    CloseTimely(Undispatch(s, l), l, a, c);
  }

  lemma PopTimely(s: System, l: LoopId, c: ConnId)
    requires Timely(s, c) && s.Loop(l).batch != []
    ensures Timely(Pop(s, l), c)
  {
    assert s.Loop(l).batch == [s.Loop(l).batch[0]] + s.Loop(l).batch[1..];
  }

  lemma DestroyTimely(s: System, l: LoopId)
    requires s.Loop(l).batch != [] && s.Loop(l).batch[0].DestroyF? && s.Home(s.Loop(l).batch[0].c) == l
    requires Timely(s, s.Loop(l).batch[0].c)
    ensures Timely(Record(Pop(s, l), s.Loop(l).batch[0].c, Destroyed), s.Loop(l).batch[0].c)
  {
    var st := Pop(s, l).Loop(l);
    assert st.held[|st.held| - 1] == s.Loop(l).batch[0];
  }

  lemma RunNextTimely(s: System, l: LoopId, c: ConnId)
    requires Inv(s) && Enabled(s, RunNext(l))
    ensures Timely(Step(s, RunNext(l)), c)
  {
    var f, p := s.Loop(l).batch[0], Pop(s, l);
    assert Timely(s, c);
    HeadTells(s, l);
    PopTimely(s, l, c);
    hide Inv, Timely;
    if f == DestroyF(c) {
      DestroyTimely(s, l);
    } else if f.EraseF? {
      EraseTimely(p, f.c, c);
    } else if f.DestroyF? {
      RecordTimely(p, f.c, Destroyed, c);
    } else if f.EstablishF? {
      RecordTimely(p, f.c, Established, c);
    }
  }

  lemma {:induction false} NoneIsMine(fs: seq<Functor>, c: ConnId, f: Functor)
    requires Mine(fs, c) == [] && f in fs
    ensures f.c != c
    decreases |fs|
  {
    if f != fs[0] { NoneIsMine(fs[1..], c, f); }
  }

  lemma AcceptTimely(s: System, n: ConnId, to: LoopId, c: ConnId)
    requires Inv(s) && Enabled(s, Accept(n, to))
    ensures Timely(Step(s, Accept(n, to)), c)
  {
    assert Timely(s, c) && LocalInv(s, n, to);
    var made := Made(s, n, to);
    if c != n {
      TimelyKept(s, made, c);
    } else if f :| f in s.Loop(to).Todo() && f.c == n {
      NoneIsMine(s.Loop(to).Todo(), n, f);
    } else {
      assert DestroyF(n) !in s.Loop(to).Todo() && RawF(n) !in s.Loop(to).Todo();
    }
    hide Inv;
    if to == BASE {
      RecordTimely(made, n, Established, c);
    } else {
      PushTimely(made, to, EstablishF(n), c);
    }
  }

  lemma QueueTimely(s: System, t: Tid, c: ConnId)
    requires Inv(s) && Enabled(s, Queue(t))
    ensures Timely(Step(s, Queue(t)), c)
  {
    var q := s.callers[t].c;
    var f := RawOf(s, t);
    assert Timely(s, c) && LocalInv(s, q, BASE);
    if InTime(s, q) && |s.Hist(q)| >= 4 { FourthIsDestroyed(s.Hist(q)); }
    hide Inv, LocalInv;
    PushTimely(s, s.Home(q), f, c);
    TimelyKept(Push(s, s.Home(q), f), Step(s, Queue(t)), c);
  }

  lemma StepKeepsTimely(s: System, e: Event, c: ConnId)
    requires Inv(s) && Enabled(s, e) && ClosesAtMostOnce(e)
    ensures Timely(Step(s, e), c)
  {
    assert Timely(s, c);
    match e
    case HandleEvent(l, mask, eof) => HandleEventTimely(s, l, mask, eof, c);
    case RunNext(l) => RunNextTimely(s, l, c);
    case Accept(n, to) => AcceptTimely(s, n, to, c);
    case Queue(t) => QueueTimely(s, t, c);
    case EndDispatch(l) => assert LoopInv(s, l);
    case EndBatch(l) =>
    case _ => TimelyKept(s, Step(s, e), c);
  }

  lemma StepKeepsCaller(s: System, e: Event, t: Tid)
    requires Inv(s) && Enabled(s, e)
    ensures CallerInv(Step(s, e), t)
  {
    assert CallerInv(s, t);
    StepGrows(s, e);
  }

  lemma StepKeepsInv(s: System, e: Event)
    requires Inv(s) && Enabled(s, e) && ClosesAtMostOnce(e)
    ensures Inv(Step(s, e))
  {
    hide Step, Enabled, LocalInv, LoopInv, Timely, CallerInv;
    forall c, k ensures LocalInv(Step(s, e), c, k) {
      StepKeepsLocal(s, e, c, k);
    }
    forall l ensures LoopInv(Step(s, e), l) {
      StepKeepsLoop(s, e, l);
    }
    forall c ensures Timely(Step(s, e), c) {
      StepKeepsTimely(s, e, c);
    }
    forall t ensures CallerInv(Step(s, e), t) {
      StepKeepsCaller(s, e, t);
    }
  }

  // ---- Runs ----

  ghost predicate Legal(s: System, es: seq<Event>)
    decreases |es|
  {
    es == [] || (Enabled(s, es[0]) && Legal(Step(s, es[0]), es[1..]))
  }

  ghost function Exec(s: System, es: seq<Event>): System
    requires Legal(s, es)
    decreases |es|
  {
    if es == [] then s else Exec(Step(s, es[0]), es[1..])
  }

  ghost predicate NoDoubleClose(es: seq<Event>) {
    forall i :: 0 <= i < |es| ==> ClosesAtMostOnce(es[i])
  }

  lemma {:induction false} EveryRunKeepsInv(s: System, es: seq<Event>)
    requires Inv(s) && Legal(s, es) && NoDoubleClose(es)
    ensures Inv(Exec(s, es))
    decreases |es|
  {
    hide Step, Enabled, Inv, ClosesAtMostOnce;
    if es != [] {
      StepKeepsInv(s, es[0]);
      EveryRunKeepsInv(Step(s, es[0]), es[1..]);
    }
  }

  lemma {:induction false} MineIsPart(fs: seq<Functor>, c: ConnId, f: Functor)
    requires f in Mine(fs, c)
    ensures f in fs && f.c == c
    decreases |fs|
  {
    if f != fs[0] || fs[0].c != c {
      MineIsPart(fs[1..], c, f);
    }
  }

  lemma {:induction false} ProperIsPart(fs: seq<Functor>, f: Functor)
    ensures f in Proper(fs) <==> f in fs && !f.IsRaw()
    decreases |fs|
  {
    if fs != [] {
      ProperIsPart(fs[1..], f);
      assert fs == [fs[0]] + fs[1..];
    }
  }

  lemma AliveUntilDestroyed(s: System, c: ConnId)
    requires Inv(s) && c in s.io && Destroyed !in s.Hist(c)
    ensures Referenced(s, c)
  {
    var home := s.Home(c);
    assert LocalInv(s, c, home);
    var h := s.Hist(c);
    if |h| == 4 {
      FourthIsDestroyed(h);
      assert false;
    } else if |h| == 3 {
      ProperIsPart(Work(s, home, c), DestroyF(c));
      MineIsPart(s.Loop(home).Todo(), c, DestroyF(c));
      assert DestroyF(c) in s.Loop(home).held + s.Loop(home).Todo();
    }
  }

  /** In every run without a double close each connection's history is a prefix of
      established, closed, erased, destroyed, and until it is destroyed somebody holds it. */
  lemma EveryLifeIsOrdered(es: seq<Event>, c: ConnId)
    requires Legal(Start(), es) && NoDoubleClose(es)
    ensures var s := Exec(Start(), es);
      s.Hist(c) <= LIFE && (c in s.io && Destroyed !in s.Hist(c) ==> Referenced(s, c))
  {
    EveryRunKeepsInv(Start(), es);
    var s := Exec(Start(), es);
    assert LocalInv(s, c, BASE);
    if c in s.io && Destroyed !in s.Hist(c) {
      AliveUntilDestroyed(s, c);
    }
  }

  /** A step destroys a connection only while its own loop runs functors, and only when no
      loop still has the connection's channel to dispatch. */
  lemma DestroyedOnlyBetweenDispatches(s: System, e: Event, c: ConnId)
    requires Inv(s) && Enabled(s, e) && ClosesAtMostOnce(e)
    requires Destroyed !in s.Hist(c) && Destroyed in Step(s, e).Hist(c)
    ensures s.Loop(s.Home(c)).mode.Functors?
    ensures forall l :: !s.IsActive(l, c)
  {
    StepKeepsInv(s, e);
    assert LocalInv(s, c, BASE);
    assert e.RunNext?;
    HeadTells(s, e.l);
    forall l ensures !s.IsActive(l, c) {
      assert LocalInv(s, c, l);
    }
  }

  /** A channel still waiting to be dispatched belongs to an open, referenced connection. */
  lemma DispatchedIsAlive(s: System, l: LoopId, c: ConnId)
    requires Inv(s) && s.IsActive(l, c)
    ensures s.Hist(c) == [Established] && l == s.Home(c) && Referenced(s, c)
  {
    assert LocalInv(s, c, l);
    assert s.Hist(c)[0] == LIFE[0];
  }

  /** Handling an event closes the connection exactly on a hang-up without input, or when the
      read callback finds the end of the stream. */
  lemma ClosesExactlyWhen(s: System, l: LoopId, mask: Mask, readsEof: bool)
    requires Inv(s) && Enabled(s, HandleEvent(l, mask, readsEof))
    ensures Closed in Step(s, HandleEvent(l, mask, readsEof)).Hist(s.Loop(l).mode.active[0]) <==>
      (mask.hup && !mask.input) || (readsEof && (mask.input || mask.pri))
  {
    var a := s.Loop(l).mode.active[0];
    DispatchedIsAlive(s, l, a);
    assert Undispatch(s, l).Hist(a) == [Established];
  }

  // ---- Nothing is left over ----

  ghost predicate Accepted(es: seq<Event>, c: ConnId, to: LoopId) {
    exists i :: 0 <= i < |es| && es[i] == Accept(c, to)
  }

  lemma StepAccepts(s: System, e: Event, c: ConnId)
    requires Enabled(s, e)
    ensures c in Step(s, e).io <==> c in s.io || (e.Accept? && e.c == c)
    ensures e.Accept? && e.c == c ==> Step(s, e).Home(c) == e.to
  {
    hide HandleClose, RunFunctor;
    match e
    case HandleEvent(l, mask, eof) => HandleEventGrows(s, l, mask, eof, c);
    case RunNext(l) => RunFunctorGrows(Pop(s, l), s.Loop(l).batch[0], c);
    case _ =>
  }

  lemma AcceptedBehind(es: seq<Event>, c: ConnId, to: LoopId)
    requires es != []
    ensures Accepted(es, c, to) <==> es[0] == Accept(c, to) || Accepted(es[1..], c, to)
  {
    if i :| 0 <= i < |es| && es[i] == Accept(c, to) {
      if i > 0 { assert es[1..][i - 1] == es[i]; }
    }
  }

  lemma {:induction false} KnownIsAccepted(s: System, es: seq<Event>, c: ConnId, to: LoopId)
    requires Legal(s, es)
    ensures c in Exec(s, es).io && Exec(s, es).Home(c) == to <==>
      (c in s.io && s.Home(c) == to) || Accepted(es, c, to)
    decreases |es|
  {
    if es == [] {
      assert !Accepted(es, c, to);
    } else {
      assert es[0].Accept? ==> es[0].c !in s.io;
      if c in s.io { StepGrowsAt(s, es[0], c); AcceptedOnce(s, es, c, to); }
      StepAccepts(s, es[0], c);
      AcceptedBehind(es, c, to);
      hide Step, Enabled;
      KnownIsAccepted(Step(s, es[0]), es[1..], c, to);
    }
  }

  /** A connection the server knows is never accepted again. */
  lemma {:induction false} AcceptedOnce(s: System, es: seq<Event>, c: ConnId, to: LoopId)
    requires Legal(s, es) && c in s.io
    ensures !Accepted(es, c, to)
    decreases |es|
  {
    if es != [] {
      StepGrowsAt(s, es[0], c);
      AcceptedBehind(es, c, to);
      hide Step;
      AcceptedOnce(Step(s, es[0]), es[1..], c, to);
    }
  }

  /** No loop has work left. */
  ghost predicate Quiet(s: System) {
    forall l :: s.Loop(l).Todo() == []
  }

  /** Whenever no loop has work left, every connection that was ever accepted is established
      on its own loop and in the server's map, or closed, erased and destroyed. */
  lemma NothingIsLeftOver(es: seq<Event>, c: ConnId, to: LoopId)
    requires Legal(Start(), es) && NoDoubleClose(es) && Quiet(Exec(Start(), es)) && Accepted(es, c, to)
    ensures var s := Exec(Start(), es);
      s.Home(c) == to && ((s.Hist(c) == [Established] && c in s.connections) || (s.Hist(c) == LIFE && c !in s.connections))
  {
    EveryRunKeepsInv(Start(), es);
    KnownIsAccepted(Start(), es, c, to);
    var s := Exec(Start(), es);
    assert LocalInv(s, c, to) && LocalInv(s, c, BASE);
    assert Work(s, to, c) == [] && Work(s, BASE, c) == [];
    hide Step, Enabled, Inv;
    assert forall i :: 0 <= i < |s.Hist(c)| ==> s.Hist(c)[i] == LIFE[i];
  }

  /** What a thread queues is there to be run. */
  lemma QueuedIsThere(s: System, t: Tid)
    requires Enabled(s, Queue(t))
    ensures var c := s.callers[t].c;
      Step(s, Queue(t)).Loop(s.Home(c)).pending == s.Loop(s.Home(c)).pending + [RawOf(s, t)]
  {
  }

  /** Exactly when handling an event keeps the history in order. */
  lemma LifeKeptExactlyWhen(s: System, l: LoopId, mask: Mask, readsEof: bool)
    requires Inv(s) && Enabled(s, HandleEvent(l, mask, readsEof))
    ensures Step(s, HandleEvent(l, mask, readsEof)).Hist(s.Loop(l).mode.active[0]) <= LIFE
      <==> !(mask.hup && mask.pri && !mask.input && readsEof)
  {
    var e := HandleEvent(l, mask, readsEof);
    var a := s.Loop(l).mode.active[0];
    ClosesTwiceExactlyWhen(mask, readsEof);
    if CloseCalls(mask, readsEof) <= 1 {
      StepKeepsLocal(s, e, a, l);
    } else {
      DispatchedIsAlive(s, l, a);
      var h := Step(s, e).Hist(a);
      assert h == if l == BASE then [Established, Closed, Erased, Closed, Erased] else [Established, Closed, Closed];
      assert h[|h| - 2] != LIFE[2] || |h| > |LIFE|;
    }
  }

  // ---- Functors with a raw pointer ----

  /** Whether a raw functor about to run finds its connection alive, decided by who is left:
      before the destruction always, afterwards through a running batch or a caller. */
  lemma RawAliveExactlyWhen(s: System, l: LoopId)
    requires Inv(s) && Enabled(s, RunNext(l)) && s.Loop(l).batch[0].IsRaw()
    ensures var c := s.Loop(l).batch[0].c;
      Referenced(s, c) <==> Destroyed !in s.Hist(c) || HasCaller(s, c) || InRunningBatch(s, c)
  {
    var c := s.Loop(l).batch[0].c;
    HeadTells(s, l);
    if Destroyed !in s.Hist(c) {
      AliveUntilDestroyed(s, c);
    } else {
      DestroyedAge(s, c);
      NothingQueued(s, c);
    }
  }

  ghost predicate InRunningBatch(s: System, c: ConnId) {
    exists l, f :: f in s.Loop(l).held && f.c == c && !f.IsRaw()
  }

  lemma DestroyedAge(s: System, c: ConnId)
    requires Inv(s)
    ensures Destroyed in s.Hist(c) <==> |s.Hist(c)| == 4
  {
    assert LocalInv(s, c, BASE);
    if |s.Hist(c)| == 4 { FourthIsDestroyed(s.Hist(c)); }
    assert forall i :: 0 <= i < |s.Hist(c)| ==> s.Hist(c)[i] == LIFE[i];
  }

  /** Nothing but raw functors is queued for a destroyed connection. */
  lemma NothingQueued(s: System, c: ConnId)
    requires Inv(s) && |s.Hist(c)| == 4
    ensures c !in s.connections && forall l, f :: f in s.Loop(l).Todo() && f.c == c ==> f.IsRaw()
  {
    assert LocalInv(s, c, BASE);
    forall l, f | f in s.Loop(l).Todo() && f.c == c ensures f.IsRaw() {
      assert LocalInv(s, c, l);
      MineHas(s.Loop(l).Todo(), c, f);
      ProperIsPart(Work(s, l, c), f);
    }
  }

  lemma {:induction false} MineHas(fs: seq<Functor>, c: ConnId, f: Functor)
    requires f in fs && f.c == c
    ensures f in Mine(fs, c)
    decreases |fs|
  {
    if f != fs[0] { MineHas(fs[1..], c, f); }
  }

  /** A raw functor queued in time never runs on a freed connection. */
  lemma InTimeIsSafe(s: System, l: LoopId, c: ConnId)
    requires Inv(s) && Enabled(s, RunNext(l)) && s.Loop(l).batch[0] == RawF(c)
    ensures Referenced(s, c)
  {
    HeadTells(s, l);
    DestroyedAge(s, c);
    assert Timely(s, c) && RawF(c) in s.Loop(l).batch;
    if |s.Hist(c)| < 4 {
      assert LocalInv(s, c, l);
      AliveUntilDestroyed(s, c);
    } else {
      assert DestroyF(c) in s.Loop(l).held + s.Loop(l).Todo();
    }
  }

  /** Some loop is about to run the functor. */
  ghost predicate AboutToRun(s: System, f: Functor) {
    exists l :: Enabled(s, RunNext(l)) && s.Loop(l).batch[0] == f
  }

  /** The late functor of c that thread `who` queued is about to run, and nobody holds c. */
  ghost predicate Dangles(s: System, c: ConnId, who: Tid) {
    AboutToRun(s, LateF(c, who)) && !Referenced(s, c)
  }

  ghost predicate CanDangle(s: System, c: ConnId, who: Tid) {
    exists es :: Legal(s, es) && NoDoubleClose(es) && Dangles(Exec(s, es), c, who)
  }

  lemma StepDangles(s: System, e: Event, c: ConnId, who: Tid)
    requires Enabled(s, e) && ClosesAtMostOnce(e) && CanDangle(Step(s, e), c, who)
    ensures CanDangle(s, c, who)
  {
    hide Step, Enabled, Dangles, ClosesAtMostOnce;
    var es :| Legal(Step(s, e), es) && NoDoubleClose(es) && Dangles(Exec(Step(s, e), es), c, who);
    assert ([e] + es)[1..] == es;
    assert Legal(s, [e] + es) && NoDoubleClose([e] + es) && Dangles(Exec(s, [e] + es), c, who);
  }

  /** c is destroyed and nobody holds it. */
  ghost predicate Bare(s: System, c: ConnId) {
    |s.Hist(c)| == 4 && !HasCaller(s, c) && !InRunningBatch(s, c)
  }

  lemma BareIsUnreferenced(s: System, c: ConnId)
    requires Inv(s) && Bare(s, c)
    ensures !Referenced(s, c)
  {
    NothingQueued(s, c);
  }

  lemma HeadDangles(s: System, c: ConnId, who: Tid, l: LoopId)
    requires Inv(s) && Bare(s, c) && Enabled(s, RunNext(l)) && s.Loop(l).batch[0] == LateF(c, who)
    ensures CanDangle(s, c, who)
  {
    BareIsUnreferenced(s, c);
    assert AboutToRun(s, LateF(c, who));
    assert Legal(s, []) && NoDoubleClose([]) && Exec(s, []) == s;
  }

  /** Running a functor changes nothing for a destroyed connection. */
  lemma RunNextSpares(s: System, l: LoopId, c: ConnId)
    requires Inv(s) && Enabled(s, RunNext(l)) && |s.Hist(c)| == 4 && c in s.io
    ensures var n := Step(s, RunNext(l));
      Inv(n) && n.Hist(c) == s.Hist(c) && c in n.io && n.Home(c) == s.Home(c)
    ensures HasCaller(Step(s, RunNext(l)), c) == HasCaller(s, c)
    ensures s.Loop(l).batch[0].c == c ==> s.Loop(l).batch[0].IsRaw()
  {
    StepKeepsInv(s, RunNext(l));
    HeadTells(s, l);
    hide Inv;
  }

  lemma RunNextKeepsBare(s: System, l: LoopId, c: ConnId)
    requires Inv(s) && Bare(s, c) && c in s.io && Enabled(s, RunNext(l))
    ensures Bare(Step(s, RunNext(l)), c)
  {
    RunNextSpares(s, l, c);
    var n := Step(s, RunNext(l));
    hide Inv, HasCaller;
    forall k, f | f in n.Loop(k).held && f.c == c ensures f.IsRaw() {
      RunNextLeaves(s, l, k);
    }
  }

  /** With c bare, its home loop runs up to the late functor. */
  lemma {:induction false} BatchDangles(s: System, c: ConnId, who: Tid, i: nat)
    requires Inv(s) && Bare(s, c) && c in s.io && s.Loop(s.Home(c)).mode.Functors?
    requires i < |s.Loop(s.Home(c)).batch| && s.Loop(s.Home(c)).batch[i] == LateF(c, who)
    ensures CanDangle(s, c, who)
    decreases i
  {
    var l := s.Home(c);
    if i == 0 {
      HeadDangles(s, c, who, l);
    } else {
      RunNextKeepsBare(s, l, c);
      RunNextSpares(s, l, c);
      RunNextLeaves(s, l, l);
      hide Inv, Bare;
      BatchDangles(Step(s, RunNext(l)), c, who, i - 1);
      StepDangles(s, RunNext(l), c, who);
    }
  }

  ghost predicate LateWaits(s: System, c: ConnId, who: Tid) {
    LateF(c, who) in s.Loop(s.Home(c)).pending
  }

  /** The dispatching home loop handles its events without a callback and swaps the queue. */
  lemma {:induction false} DispatchDangles(s: System, c: ConnId, who: Tid)
    requires Inv(s) && Bare(s, c) && c in s.io && LateWaits(s, c, who) && s.Loop(s.Home(c)).mode.Dispatching?
    ensures CanDangle(s, c, who)
    decreases |s.Loop(s.Home(c)).mode.active|
  {
    var l := s.Home(c);
    if s.Loop(l).mode.active == [] {
      var e := EndDispatch(l);
      StepKeepsInv(s, e);
      var n := Step(s, e);
      SameHolders(s, n, c);
      var i :| 0 <= i < |n.Loop(l).batch| && n.Loop(l).batch[i] == LateF(c, who);
      BatchDangles(n, c, who, i);
      StepDangles(s, e, c, who);
    } else {
      var e := HandleEvent(l, Mask(false, false, false, false, false), false);
      StepKeepsInv(s, e);
      SameHolders(s, Step(s, e), c);
      DispatchDangles(Step(s, e), c, who);
      StepDangles(s, e, c, who);
    }
  }

  lemma SameHolders(s: System, n: System, c: ConnId)
    requires Bare(s, c) && n.Hist(c) == s.Hist(c) && n.callers == s.callers
    requires forall k :: n.Loop(k).held == s.Loop(k).held || n.Loop(k).held == []
    ensures Bare(n, c)
  {
  }

  lemma BareDangles(s: System, c: ConnId, who: Tid)
    requires Inv(s) && Bare(s, c) && c in s.io && LateWaits(s, c, who) && !s.Loop(s.Home(c)).mode.Functors?
    ensures CanDangle(s, c, who)
  {
    var l := s.Home(c);
    if s.Loop(l).mode.Idle? {
      var e := Poll(l, []);
      StepKeepsInv(s, e);
      SameHolders(s, Step(s, e), c);
      DispatchDangles(Step(s, e), c, who);
      StepDangles(s, e, c, who);
    } else {
      DispatchDangles(s, c, who);
    }
  }

  /** Only the home loop and the base loop can hold c in a batch. */
  lemma HoldersAreTwo(s: System, c: ConnId)
    requires Inv(s) && |s.Hist(c)| == 4 && !HasCaller(s, c)
    requires s.Loop(s.Home(c)).held == [] && s.Loop(BASE).held == []
    ensures Bare(s, c)
  {
    forall l, f | f in s.Loop(l).held && f.c == c ensures f.IsRaw() {
      assert LoopInv(s, l) && HeldFits(s, l, f);
    }
  }

  /** The base loop ends its batch, so that its functors give up their pointers. */
  lemma {:induction false} BaseLetsGo(s: System, c: ConnId, who: Tid)
    requires Inv(s) && c in s.io && |s.Hist(c)| == 4 && !HasCaller(s, c) && LateWaits(s, c, who)
    requires !s.Loop(s.Home(c)).mode.Functors?
    ensures CanDangle(s, c, who)
    decreases |s.Loop(BASE).batch|, if s.Loop(BASE).mode.Functors? then 1 else 0
  {
    assert LoopInv(s, BASE) && LoopInv(s, s.Home(c));
    if !s.Loop(BASE).mode.Functors? {
      HoldersAreTwo(s, c);
      BareDangles(s, c, who);
    } else if s.Loop(BASE).batch != [] {
      RunNextSpares(s, BASE, c);
      RunNextLeaves(s, BASE, BASE);
      RunNextLeaves(s, BASE, s.Home(c));
      hide Inv, LoopInv, HasCaller;
      BaseLetsGo(Step(s, RunNext(BASE)), c, who);
      StepDangles(s, RunNext(BASE), c, who);
    } else {
      StepKeepsInv(s, EndBatch(BASE));
      hide Inv, LoopInv;
      BaseLetsGo(Step(s, EndBatch(BASE)), c, who);
      StepDangles(s, EndBatch(BASE), c, who);
    }
  }

  /** The destruction of c is done or in the batch being run. */
  ghost predicate Late(s: System, c: ConnId) {
    c in s.io && (|s.Hist(c)| == 4 || DestroyF(c) in s.Loop(s.Home(c)).batch)
  }

  lemma RunNextStaysLate(s: System, c: ConnId)
    requires Inv(s) && Late(s, c) && Enabled(s, RunNext(s.Home(c)))
    ensures var n := Step(s, RunNext(s.Home(c)));
      Late(n, c) && n.Home(c) == s.Home(c) && HasCaller(n, c) == HasCaller(s, c)
  {
    var l := s.Home(c);
    var f := s.Loop(l).batch[0];
    HeadTells(s, l);
    RunNextLeaves(s, l, l);
    StepGrows(s, RunNext(l));
    if |s.Hist(c)| == 4 {
      RunNextSpares(s, l, c);
      hide Inv, Step;
    } else if f != DestroyF(c) {
      hide Inv, Step;
      assert s.Loop(l).batch == [f] + s.Loop(l).batch[1..];
    } else {
      hide Inv;
      assert Step(s, RunNext(l)).Hist(c) == s.Hist(c) + [Destroyed];
    }
  }

  /** The home loop ends its batch, the destruction included. */
  lemma {:induction false} HomeLetsGo(s: System, c: ConnId, who: Tid)
    requires Inv(s) && Late(s, c) && !HasCaller(s, c) && LateWaits(s, c, who)
    ensures CanDangle(s, c, who)
    decreases |s.Loop(s.Home(c)).batch|
  {
    var l := s.Home(c);
    assert LoopInv(s, l);
    if !s.Loop(l).mode.Functors? {
      BaseLetsGo(s, c, who);
    } else if s.Loop(l).batch != [] {
      StepKeepsInv(s, RunNext(l));
      RunNextStaysLate(s, c);
      RunNextLeaves(s, l, l);
      hide Inv, LoopInv, HasCaller, Late;
      HomeLetsGo(Step(s, RunNext(l)), c, who);
      StepDangles(s, RunNext(l), c, who);
    } else {
      StepKeepsInv(s, EndBatch(l));
      hide Inv, LoopInv;
      BaseLetsGo(Step(s, EndBatch(l)), c, who);
      StepDangles(s, EndBatch(l), c, who);
    }
  }

  ghost function Holders(s: System, c: ConnId): set<Tid> {
    set t | t in s.callers && s.callers[t].c == c
  }

  ghost function Testers(s: System, c: ConnId): set<Tid> {
    set t | t in s.callers && s.callers[t] == Caller(c, true)
  }

  /** The callers leave one by one; one inside send() queues its functor first, late too. */
  lemma {:induction false} CallersLetGo(s: System, c: ConnId, who: Tid)
    requires Inv(s) && Late(s, c) && LateWaits(s, c, who)
    ensures CanDangle(s, c, who)
    decreases |Holders(s, c)|, |Testers(s, c)|
  {
    if t :| t in s.callers && s.callers[t] == Caller(c, false) {
      StepKeepsInv(s, Drop(t));
      assert Holders(Step(s, Drop(t)), c) == Holders(s, c) - {t};
      CallersLetGo(Step(s, Drop(t)), c, who);
      StepDangles(s, Drop(t), c, who);
    } else if t :| t in s.callers && s.callers[t] == Caller(c, true) {
      StepKeepsInv(s, Queue(t));
      assert Holders(Step(s, Queue(t)), c) == Holders(s, c);
      assert Testers(Step(s, Queue(t)), c) == Testers(s, c) - {t};
      CallersLetGo(Step(s, Queue(t)), c, who);
      StepDangles(s, Queue(t), c, who);
    } else {
      HomeLetsGo(s, c, who);
    }
  }

  /** Exactly when a functor that another thread is about to queue is safe whatever comes:
      when the destruction of its connection is not done and not in the batch being run. */
  lemma QueueSafeExactlyWhenInTime(s: System, t: Tid)
    requires Inv(s) && Enabled(s, Queue(t))
    ensures var c := s.callers[t].c;
      InTime(s, c) <==> AlwaysAlive(Step(s, Queue(t)), RawOf(s, t))
  {
    var c := s.callers[t].c;
    StepKeepsInv(s, Queue(t));
    var next := Step(s, Queue(t));
    if InTime(s, c) {
      forall es | Legal(next, es) && NoDoubleClose(es) && AboutToRun(Exec(next, es), RawF(c))
        ensures Referenced(Exec(next, es), c)
      {
        EveryRunKeepsInv(next, es);
        var end := Exec(next, es);
        var l :| Enabled(end, RunNext(l)) && end.Loop(l).batch[0] == RawF(c);
        InTimeIsSafe(end, l, c);
      }
    } else {
      DestroyedAge(s, c);
      assert CallerInv(s, t);
      CallersLetGo(next, c, t);
      var es :| Legal(next, es) && NoDoubleClose(es) && Dangles(Exec(next, es), c, t);
    }
  }

  /** In every continuation the functor meets a live connection. */
  ghost predicate AlwaysAlive(s: System, f: Functor) {
    forall es {:trigger Legal(s, es)} :: Legal(s, es) && NoDoubleClose(es) && AboutToRun(Exec(s, es), f) ==>
      Referenced(Exec(s, es), f.c)
  }

  /** A fresh server can get there: a thread passes send()'s test, the peer closes, the
      connection is destroyed, and only then the functor is queued. */
  lemma DanglingIsReachable()
    ensures CanDangle(Start(), 0, 7)
  {
    var s0 := Start();
    var s1 := Step(s0, Poll(BASE, []));
    var s2 := Step(s1, Accept(0, BASE));
    var s3 := Step(s2, EndDispatch(BASE));
    var s4 := Step(s3, EndBatch(BASE));
    assert s4.Hist(0) == [Established] && s4.callers == map[] && 0 in s4.connections;
    assert Inv(s0);
    StepKeepsInv(s0, Poll(BASE, []));
    StepKeepsInv(s1, Accept(0, BASE));
    StepKeepsInv(s2, EndDispatch(BASE));
    StepKeepsInv(s3, EndBatch(BASE));
    hide Inv, CanDangle;
    TestedOnBase(s4);
    StepDangles(s3, EndBatch(BASE), 0, 7);
    StepDangles(s2, EndDispatch(BASE), 0, 7);
    StepDangles(s1, Accept(0, BASE), 0, 7);
    StepDangles(s0, Poll(BASE, []), 0, 7);
  }

  lemma TestedOnBase(s: System)
    requires Inv(s) && s.Home(0) == BASE && s.Hist(0) == [Established] && s.Loop(BASE) == LoopState(Idle, [], [], [])
    requires 0 in s.io && 0 in s.connections && s.callers == map[]
    ensures CanDangle(s, 0, 7)
  {
    var s1 := Step(s, Grab(7, 0));
    StepKeepsInv(s, Grab(7, 0));
    StepKeepsInv(s1, Test(7));
    hide Inv, CanDangle;
    ClosedUnderTest(Step(s1, Test(7)));
    StepDangles(s1, Test(7), 0, 7);
    StepDangles(s, Grab(7, 0), 0, 7);
  }

  lemma ClosedUnderTest(s: System)
    requires Inv(s) && s.Home(0) == BASE && s.Hist(0) == [Established] && s.Loop(BASE) == LoopState(Idle, [], [], [])
    requires 0 in s.io && 7 in s.callers && s.callers[7] == Caller(0, true)
    ensures CanDangle(s, 0, 7)
  {
    var hup := HandleEvent(BASE, Mask(true, false, false, false, false), false);
    var s1 := Step(s, Poll(BASE, [0]));
    var s2 := Step(s1, hup);
    assert s2.Loop(BASE).pending == [DestroyF(0)] && |s2.Hist(0)| == 3;
    var s3 := Step(s2, EndDispatch(BASE));
    StepKeepsInv(s, Poll(BASE, [0]));
    StepKeepsInv(s1, hup);
    StepKeepsInv(s2, EndDispatch(BASE));
    assert DestroyF(0) in s3.Loop(BASE).batch && !InTime(s3, 0);
    StepKeepsInv(s3, Queue(7));
    CallersLetGo(Step(s3, Queue(7)), 0, 7);
    StepDangles(s3, Queue(7), 0, 7);
    StepDangles(s2, EndDispatch(BASE), 0, 7);
    StepDangles(s1, hup, 0, 7);
    StepDangles(s, Poll(BASE, [0]), 0, 7);
  }

  /** A fresh server can reach the double close. */
  lemma DoubleCloseIsReachable() returns (es: seq<Event>)
    ensures Legal(Start(), es) && !(Exec(Start(), es).Hist(0) <= LIFE)
  {
    var bad := HandleEvent(BASE, Mask(true, true, false, false, false), true);
    var s0 := Start();
    var s1 := Step(s0, Poll(BASE, []));
    var s2 := Step(s1, Accept(0, BASE));
    var s3 := Step(s2, EndDispatch(BASE));
    var s4 := Step(s3, EndBatch(BASE));
    assert s4.Hist(0) == [Established];
    var s5 := Step(s4, Poll(BASE, [0]));
    var s6 := Step(s5, bad);
    assert |s6.Hist(0)| == 5;
    Prepend(s5, bad, []);
    Prepend(s4, Poll(BASE, [0]), [bad] + []);
    Prepend(s3, EndBatch(BASE), [Poll(BASE, [0])] + ([bad] + []));
    Prepend(s2, EndDispatch(BASE), [EndBatch(BASE)] + ([Poll(BASE, [0])] + ([bad] + [])));
    es := [EndDispatch(BASE)] + ([EndBatch(BASE)] + ([Poll(BASE, [0])] + ([bad] + [])));
    Prepend(s1, Accept(0, BASE), es);
    Prepend(s0, Poll(BASE, []), [Accept(0, BASE)] + es);
    es := [Poll(BASE, [])] + ([Accept(0, BASE)] + es);
  }

  lemma Prepend(s: System, e: Event, es: seq<Event>)
    requires Enabled(s, e) && Legal(Step(s, e), es)
    ensures Legal(s, [e] + es)
    ensures Exec(s, [e] + es) == Exec(Step(s, e), es)
  {
    assert ([e] + es)[1..] == es;
  }
}
