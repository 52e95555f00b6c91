/** The blocking connection pools: a capped allocator with a free list, callers that wait
    on a condition variable, and a manager that routes releases by pool name. The MySQL
    and the Redis pool have the same code, so one model stands for both. */
module ConnectionPools {
  import opened Basics

  type Caller = nat

  /** A connection knows the pool that made it. */
  datatype Conn = Conn(pool: string, id: nat)

  const MIN_CONN_CNT: int := 2

  // ---- One critical section ----

  datatype GetResult = Got(conn: Conn) | InitFailed | MustWait

  /** What the lock protects. `made` numbers the connections created so far. */
  datatype Core = Core(name: string, free: seq<Conn>, curCnt: int, maxCnt: int, made: nat)

  function GetOnce(p: Core, initOk: bool): (Core, GetResult) {
    if p.free != [] then (p.(free := p.free[1..]), Got(p.free[0]))
    else if p.curCnt >= p.maxCnt then (p, MustWait)
    else if !initOk then (p, InitFailed)
    else (p.(curCnt := p.curCnt + 1, made := p.made + 1), Got(Conn(p.name, p.made)))
  }

  function PutBack(p: Core, c: Conn): Core {
    if c in p.free then p else p.(free := p.free + [c])
  }

  class ConnPool {
    const name: string
    const maxCnt: int
    var freeList: seq<Conn>
    var curCnt: int
    var made: nat

    function View(): Core
      reads this
    {
      Core(name, freeList, curCnt, maxCnt, made)
    }

    constructor (name: string, maxCnt: int)
      ensures View() == Core(name, [], MIN_CONN_CNT, maxCnt, 0)
    {
      this.name, this.maxCnt := name, maxCnt;
      freeList, curCnt, made := [], MIN_CONN_CNT, 0;
    }

    /** Opens the first connections; gives up at the first that fails. */
    method Init(opens: seq<bool>) returns (ok: bool)
      requires made == 0 && freeList == [] && curCnt == MIN_CONN_CNT && |opens| == 2
      modifies this
      ensures ok <==> opens[0] && opens[1]
      ensures ok ==> View() == Core(name, [Conn(name, 0), Conn(name, 1)], 2, maxCnt, 2)
      ensures !ok ==> |freeList| < curCnt == 2
    {
      var i := 0;
      while i < curCnt
        invariant 0 <= i <= curCnt == 2 && made == i
        invariant freeList == [Conn(name, 0), Conn(name, 1)][..i]
        invariant forall j :: 0 <= j < i ==> opens[j]
      {
        if !opens[i] {
          return false;
        }
        freeList := freeList + [Conn(name, made)];
        made := made + 1;
        i := i + 1;
      }
      ok := true;
    }

    /** getConn up to the point where it either returns or waits. */
    method Get(initOk: bool) returns (r: GetResult)
      modifies this
      ensures (View(), r) == GetOnce(old(View()), initOk)
    {
      if freeList == [] {
        if curCnt >= maxCnt {
          return MustWait;
        }
        if !initOk {
          return InitFailed;
        }
        freeList := freeList + [Conn(name, made)];
        made := made + 1;
        curCnt := curCnt + 1;
      }
      r := Got(freeList[0]);
      freeList := freeList[1..];
      assert old(freeList) == [] ==> freeList == [];
    }

    /** relConn searches the free list before it appends. */
    method Release(c: Conn)
      modifies this
      ensures View() == PutBack(old(View()), c)
    {
      var i := 0;
      while i < |freeList|
        invariant 0 <= i <= |freeList| && freeList == old(freeList)
        invariant forall j :: 0 <= j < i ==> freeList[j] != c
      {
        if freeList[i] == c {
          break;
        }
        i := i + 1;
      }
      if i == |freeList| {
        freeList := freeList + [c];
      }
    }
  }

  // ---- Callers ----

  /** `held` pairs callers with the connections they checked out; `waiting` are in
      cond_.wait and not notified, `woken` were notified and have yet to look again. */
  datatype Pool = Pool(core: Core, held: set<(Caller, Conn)>, waiting: set<Caller>, woken: set<Caller>)

  datatype Manager = Manager(pools: map<string, Pool>)

  datatype Event =
    | Get(t: Caller, pool: string, initOk: bool)
    | Wake(t: Caller, pool: string)
    | Release(t: Caller, c: Conn)
    | ReleaseNull

  function PoolGet(p: Pool, t: Caller, initOk: bool): Pool {
    var (core, r) := GetOnce(p.core, initOk);
    match r
    case Got(c) => p.(core := core, held := p.held + {(t, c)}, woken := p.woken - {t})
    case InitFailed => p.(core := core, woken := p.woken - {t})
    case MustWait => p.(core := core, waiting := p.waiting + {t}, woken := p.woken - {t})
  }

  /** notify_all after putting the connection back. */
  function PoolRelease(p: Pool, t: Caller, c: Conn): Pool {
    p.(core := PutBack(p.core, c), held := p.held - {(t, c)}, waiting := {}, woken := p.woken + p.waiting)
  }

  /** Callers only release what they hold; a caller asleep in wait does nothing. */
  ghost predicate Enabled(m: Manager, e: Event) {
    match e
    case Get(t, name, _) => name in m.pools ==> t !in m.pools[name].waiting
    case Wake(t, name) => name in m.pools && t in m.pools[name].waiting
    case Release(t, c) => exists name :: name in m.pools && (t, c) in m.pools[name].held
    case ReleaseNull => true
  }

  function Step(m: Manager, e: Event): Manager {
    match e
    case Get(t, name, initOk) =>
      if name in m.pools then m.(pools := m.pools[name := PoolGet(m.pools[name], t, initOk)]) else m
    case Wake(t, name) =>
      if name in m.pools then
        var p := m.pools[name];
        m.(pools := m.pools[name := p.(waiting := p.waiting - {t}, woken := p.woken + {t})])
      else m
    case Release(t, c) =>
      if c.pool in m.pools then m.(pools := m.pools[c.pool := PoolRelease(m.pools[c.pool], t, c)]) else m
    case ReleaseNull => m
  }

  ghost predicate Legal(m: Manager, es: seq<Event>)
    decreases |es|
  {
    es == [] || (Enabled(m, es[0]) && Legal(Step(m, es[0]), es[1..]))
  }

  ghost function Exec(m: Manager, es: seq<Event>): Manager
    decreases |es|
  {
    if es == [] then m else Exec(Step(m, es[0]), es[1..])
  }

  /** A pool after a successful Init. */
  function Opened(name: string, maxCnt: int): Pool {
    Pool(Core(name, [Conn(name, 0), Conn(name, 1)], 2, maxCnt, 2), {}, {}, {})
  }

  ghost predicate Fresh(m: Manager) {
    forall name :: name in m.pools ==> m.pools[name] == Opened(name, m.pools[name].core.maxCnt)
  }

  ghost predicate PoolInv(p: Pool, name: string) {
    && p.core.name == name
    && Distinct(p.core.free)
    && (forall c :: c in p.core.free ==> c.pool == name && c.id < p.core.made)
    && (forall h :: h in p.held ==> h.1.pool == name && h.1.id < p.core.made && h.1 !in p.core.free)
    && (forall h, k :: h in p.held && k in p.held && h.1 == k.1 ==> h == k)
    && |p.core.free| + |p.held| == p.core.curCnt <= Max(MIN_CONN_CNT, p.core.maxCnt)
    && (p.core.free != [] ==> p.waiting == {})
    && (p.waiting != {} ==> p.core.curCnt >= p.core.maxCnt)
  }

  ghost predicate Inv(m: Manager) {
    forall name :: name in m.pools ==> PoolInv(m.pools[name], name)
  }

  lemma GetKeepsPool(p: Pool, name: string, t: Caller, initOk: bool)
    requires PoolInv(p, name)
    ensures PoolInv(PoolGet(p, t, initOk), name)
  {
    var (core, r) := GetOnce(p.core, initOk);
    if r.Got? {
      assert (t, r.conn) !in p.held;
    }
  }

  lemma ReleaseKeepsPool(p: Pool, name: string, t: Caller, c: Conn)
    requires PoolInv(p, name) && (t, c) in p.held
    ensures PoolInv(PoolRelease(p, t, c), name)
  {
  }

  lemma WakeKeepsPool(p: Pool, name: string, t: Caller)
    requires PoolInv(p, name)
    ensures PoolInv(p.(waiting := p.waiting - {t}, woken := p.woken + {t}), name)
  {
  }

  lemma PoolReplaced(m: Manager, name: string, p: Pool)
    requires Inv(m) && PoolInv(p, name)
    ensures Inv(m.(pools := m.pools[name := p]))
  {
  }

  lemma StepKeepsInv(m: Manager, e: Event)
    requires Inv(m) && Enabled(m, e)
    ensures Inv(Step(m, e))
  {
    match e
    case Get(t, name, initOk) =>
      if name in m.pools {
        GetKeepsPool(m.pools[name], name, t, initOk);
        PoolReplaced(m, name, PoolGet(m.pools[name], t, initOk));
      }
    case Wake(t, name) =>
      var p := m.pools[name];
      WakeKeepsPool(p, name, t);
      PoolReplaced(m, name, p.(waiting := p.waiting - {t}, woken := p.woken + {t}));
    case Release(t, c) =>
      ReleaseKeepsInv(m, t, c);
    case ReleaseNull =>
  }

  lemma ReleaseKeepsInv(m: Manager, t: Caller, c: Conn)
    requires Inv(m) && Enabled(m, Release(t, c))
    ensures Inv(Step(m, Release(t, c)))
  {
    var name :| name in m.pools && (t, c) in m.pools[name].held;
    assert (t, c).1.pool == name;
    ReleaseKeepsPool(m.pools[name], name, t, c);
    PoolReplaced(m, name, PoolRelease(m.pools[name], t, c));
  }

  lemma {:induction false} EveryRunKeepsInv(m: Manager, es: seq<Event>)
    requires Inv(m) && Legal(m, es)
    ensures Inv(Exec(m, es))
    decreases |es|
  {
    if es != [] {
      StepKeepsInv(m, es[0]);
      EveryRunKeepsInv(Step(m, es[0]), es[1..]);
    }
  }

  lemma FreshHasInv(m: Manager)
    requires Fresh(m)
    ensures Inv(m)
  {
  }

  /** Connections are conserved in every run: free and checked-out connections are
      disjoint and add up to the counter, the counter respects the cap, nobody shares a
      connection, every connection is in the pool that made it, and nobody sleeps
      un-notified beside a free connection. */
  lemma ConnectionsAreConserved(m: Manager, es: seq<Event>, name: string)
    requires Fresh(m) && Legal(m, es) && name in Exec(m, es).pools
    ensures var p := Exec(m, es).pools[name];
      && |p.core.free| + |p.held| == p.core.curCnt <= Max(MIN_CONN_CNT, p.core.maxCnt)
      && Distinct(p.core.free)
      && (forall h :: h in p.held ==> h.1 !in p.core.free && h.1.pool == name)
      && (forall h, k :: h in p.held && k in p.held && h.1 == k.1 ==> h.0 == k.0)
      && (forall c :: c in p.core.free ==> c.pool == name)
      && (p.core.free != [] ==> p.waiting == {})
      && (p.waiting != {} ==> p.core.curCnt >= p.core.maxCnt)
  {
    EveryRunKeepsInv(m, es);
  }

  /** q is p after t got the connection c, which nobody held: the first free one, or else a
      new one. */
  ghost predicate Received(p: Pool, q: Pool, t: Caller, c: Conn) {
    && q.held == p.held + {(t, c)} && c.pool == p.core.name && !HeldBySome(p, c)
    && (if p.core.free != []
        then c == p.core.free[0] && q.core.free == p.core.free[1..] && q.core.curCnt == p.core.curCnt
        else c.id == p.core.made && q.core.free == [] && q.core.curCnt == p.core.curCnt + 1)
  }

  /** A get waits exactly when nothing is free and the counter is at the maximum; otherwise it
      returns a connection, unless opening a new one is needed and fails. */
  ghost predicate Answers(p: Pool, q: Pool, t: Caller, initOk: bool) {
    && (t in q.waiting <==> p.core.free == [] && p.core.curCnt >= p.core.maxCnt)
    && (p.core.free != [] || (p.core.curCnt < p.core.maxCnt && initOk) ==> exists c :: Received(p, q, t, c))
    && (p.core.free == [] && p.core.curCnt < p.core.maxCnt && !initOk ==>
          q.core == p.core && q.held == p.held && q.waiting == p.waiting)
  }

  lemma PoolAnswersExactly(p: Pool, name: string, t: Caller, initOk: bool)
    requires PoolInv(p, name) && t !in p.waiting
    ensures Answers(p, PoolGet(p, t, initOk), t, initOk)
  {
    var (core, r) := GetOnce(p.core, initOk);
    if r.Got? { assert Received(p, PoolGet(p, t, initOk), t, r.conn); }
  }

  /** The same in every run: no caller sleeps while the pool could serve it, and no connection
      is handed out twice. */
  lemma GetAnswersExactly(m: Manager, es: seq<Event>, name: string, t: Caller, initOk: bool)
    requires Fresh(m) && Legal(m, es) && name in Exec(m, es).pools && t !in Exec(m, es).pools[name].waiting
    ensures var p := Exec(m, es).pools[name]; Answers(p, PoolGet(p, t, initOk), t, initOk)
  {
    FreshHasInv(m);
    EveryRunKeepsInv(m, es);
    hide PoolGet, PoolInv, Answers, Fresh;
    PoolAnswersExactly(Exec(m, es).pools[name], name, t, initOk);
  }

  /** Nobody who waits is forgotten: a step leaves a waiter asleep or woken up. */
  lemma WaitersAreKept(m: Manager, e: Event, name: string, t: Caller)
    requires Enabled(m, e) && name in m.pools && t in m.pools[name].waiting
    ensures name in Step(m, e).pools
    ensures t in Step(m, e).pools[name].waiting || t in Step(m, e).pools[name].woken
  {
  }

  /** A waiter that wakes up, notified or not, looks at the pool again. */
  lemma WokenLooksAgain(m: Manager, name: string, t: Caller, initOk: bool)
    requires Enabled(m, Wake(t, name))
    ensures Enabled(Step(m, Wake(t, name)), Get(t, name, initOk)) && t in Step(m, Wake(t, name)).pools[name].woken
  {
  }

  /** And a release into the pool wakes them all. */
  lemma ReleaseWakesAll(m: Manager, t: Caller, c: Conn, w: Caller)
    requires Inv(m) && Enabled(m, Release(t, c)) && c.pool in m.pools && w in m.pools[c.pool].waiting
    ensures Step(m, Release(t, c)).pools[c.pool].waiting == {}
    ensures w in Step(m, Release(t, c)).pools[c.pool].woken
  {
  }

  // ---- First come, first served ----

  /** What enters a pool: a connection put back, unless it is free already, or a new one. */
  ghost function Entering(p: Pool, e: Event): seq<Conn> {
    match e
    case Release(_, c) => if c in p.core.free then [] else [c]
    case Get(_, _, initOk) =>
      if p.core.free == [] && p.core.curCnt < p.core.maxCnt && initOk then [Conn(p.core.name, p.core.made)] else []
    case _ => []
  }

  /** What a get hands out. */
  ghost function Leaving(p: Pool, e: Event): seq<Conn> {
    if e.Get? && p.core.free != [] then [p.core.free[0]]
    else if e.Get? then Entering(p, e)
    else []
  }

  ghost predicate Concerns(m: Manager, e: Event, name: string) {
    match e
    case Get(_, n, _) => n == name
    case Release(_, c) => c.pool == name
    case _ => false
  }

  ghost function EnteringIn(m: Manager, es: seq<Event>, name: string): seq<Conn>
    requires name in m.pools
    decreases |es|
  {
    if es == [] then []
    else (if Concerns(m, es[0], name) then Entering(m.pools[name], es[0]) else []) + EnteringIn(Step(m, es[0]), es[1..], name)
  }

  ghost function LeavingIn(m: Manager, es: seq<Event>, name: string): seq<Conn>
    requires name in m.pools
    decreases |es|
  {
    if es == [] then []
    else (if Concerns(m, es[0], name) then Leaving(m.pools[name], es[0]) else []) + LeavingIn(Step(m, es[0]), es[1..], name)
  }

  lemma StepIsFifo(m: Manager, e: Event, name: string)
    requires name in m.pools
    ensures name in Step(m, e).pools
    ensures (if Concerns(m, e, name) then Leaving(m.pools[name], e) else []) + Step(m, e).pools[name].core.free ==
      m.pools[name].core.free + (if Concerns(m, e, name) then Entering(m.pools[name], e) else [])
  {
    var free := m.pools[name].core.free;
    if free != [] { assert [free[0]] + free[1..] == free; }
  }

  /** Connections are handed out in the order in which they were put back or opened. */
  lemma {:induction false} FreeListIsFifo(m: Manager, es: seq<Event>, name: string)
    requires name in m.pools
    ensures name in Exec(m, es).pools
    ensures LeavingIn(m, es, name) + Exec(m, es).pools[name].core.free == m.pools[name].core.free + EnteringIn(m, es, name)
    decreases |es|
  {
    hide Step, Entering, Leaving, Concerns;
    if es != [] {
      var n := Step(m, es[0]);
      var out := if Concerns(m, es[0], name) then Leaving(m.pools[name], es[0]) else [];
      var inn := if Concerns(m, es[0], name) then Entering(m.pools[name], es[0]) else [];
      StepIsFifo(m, es[0], name);
      FreeListIsFifo(n, es[1..], name);
      Assoc(out, LeavingIn(n, es[1..], name), Exec(n, es[1..]).pools[name].core.free);
      Assoc(out, n.pools[name].core.free, EnteringIn(n, es[1..], name));
      Assoc(m.pools[name].core.free, inn, EnteringIn(n, es[1..], name));
    }
  }

  ghost predicate StaysWithinMax(m: Manager, name: string) {
    forall es {:trigger Legal(m, es)} :: Legal(m, es) ==>
      name in Exec(m, es).pools && Exec(m, es).pools[name].core.curCnt <= Exec(m, es).pools[name].core.maxCnt
  }

  lemma {:induction false} MaxIsConstant(m: Manager, es: seq<Event>, name: string)
    requires Legal(m, es) && name in m.pools
    ensures name in Exec(m, es).pools && Exec(m, es).pools[name].core.maxCnt == m.pools[name].core.maxCnt
    decreases |es|
  {
    if es != [] { MaxIsConstant(Step(m, es[0]), es[1..], name); }
  }

  /** In every run a pool keeps to its configured maximum exactly when that is at least two:
      below, it opens two connections all the same. */
  lemma CapHoldsExactlyFromTwo(m: Manager, name: string)
    requires Fresh(m) && name in m.pools
    ensures StaysWithinMax(m, name) <==> m.pools[name].core.maxCnt >= MIN_CONN_CNT
  {
    if m.pools[name].core.maxCnt >= MIN_CONN_CNT {
      forall es | Legal(m, es)
        ensures name in Exec(m, es).pools && Exec(m, es).pools[name].core.curCnt <= Exec(m, es).pools[name].core.maxCnt
      {
        MaxIsConstant(m, es, name);
        ConnectionsAreConserved(m, es, name);
      }
    } else {
      assert Legal(m, []) && Exec(m, []) == m;
      assert m.pools[name] == Opened(name, m.pools[name].core.maxCnt);
    }
  }

  // ---- Releasing without holding ----

  /** relConn called by anybody for a connection some caller h has checked out. */
  function Stray(p: Pool, c: Conn): Pool {
    p.(core := PutBack(p.core, c), waiting := {}, woken := p.woken + p.waiting)
  }

  /** Exactly when a release by a caller that does not hold the connection is harmless:
      when the connection is free anyway. Otherwise it becomes free while checked out, or
      turns up in a pool that did not make it. */
  lemma StrayReleaseExactlyWhenSafe(p: Pool, name: string, c: Conn)
    requires PoolInv(p, name)
    ensures PoolInv(Stray(p, c), name) <==> c in p.core.free
  {
    if c !in p.core.free {
      assert |Stray(p, c).core.free| == |p.core.free| + 1;
    }
  }

  ghost predicate HeldBySome(p: Pool, c: Conn) {
    exists h :: h in p.held && h.1 == c
  }

  ghost predicate Shared(p: Pool, c: Conn) {
    exists h, k :: h in p.held && k in p.held && h.1 == c && k.1 == c && h.0 != k.0
  }

  /** Gets by callers that are not asleep in wait, each with the outcome of opening. */
  ghost predicate LegalGets(p: Pool, gets: seq<(Caller, bool)>)
    decreases |gets|
  {
    gets == [] || (gets[0].0 !in p.waiting && LegalGets(PoolGet(p, gets[0].0, gets[0].1), gets[1..]))
  }

  ghost function AfterGets(p: Pool, gets: seq<(Caller, bool)>): Pool
    decreases |gets|
  {
    if gets == [] then p else AfterGets(PoolGet(p, gets[0].0, gets[0].1), gets[1..])
  }

  ghost predicate CanShare(p: Pool, c: Conn) {
    exists gets :: LegalGets(p, gets) && Shared(AfterGets(p, gets), c)
  }

  lemma GetCanShare(p: Pool, t: Caller, c: Conn)
    requires t !in p.waiting && CanShare(PoolGet(p, t, true), c)
    ensures CanShare(p, c)
  {
    hide PoolGet;
    var gets :| LegalGets(PoolGet(p, t, true), gets) && Shared(AfterGets(PoolGet(p, t, true), gets), c);
    assert ([(t, true)] + gets)[1..] == gets;
    assert LegalGets(p, [(t, true)] + gets) && Shared(AfterGets(p, [(t, true)] + gets), c);
  }

  /** A thief that keeps getting reaches the connection at index i of the free list. */
  lemma {:induction false} ThiefReaches(p: Pool, owner: Caller, thief: Caller, c: Conn, i: nat)
    requires (owner, c) in p.held && owner != thief && p.waiting == {}
    requires i < |p.core.free| && p.core.free[i] == c
    ensures CanShare(p, c)
    decreases i
  {
    var q := PoolGet(p, thief, true);
    assert (owner, c) in q.held && q.waiting == {};
    if i == 0 {
      assert (thief, c) in q.held;
      assert LegalGets(q, []) && AfterGets(q, []) == q && Shared(q, c);
    } else {
      ThiefReaches(q, owner, thief, c, i - 1);
    }
    GetCanShare(p, thief, c);
  }

  /** At most one copy of c is about, and no pool will make another. */
  ghost predicate OneCopy(p: Pool, c: Conn) {
    && Distinct(p.core.free)
    && (HeldBySome(p, c) ==> c !in p.core.free)
    && (forall h, k :: h in p.held && k in p.held && h.1 == c && k.1 == c ==> h == k)
    && (c.pool == p.core.name ==> c.id < p.core.made)
  }

  lemma GetKeepsOneCopy(p: Pool, t: Caller, initOk: bool, c: Conn)
    requires OneCopy(p, c)
    ensures OneCopy(PoolGet(p, t, initOk), c)
  {
    if p.core.free != [] {
      assert forall i :: 0 < i < |p.core.free| ==> p.core.free[i] == p.core.free[1..][i - 1];
    }
  }

  lemma {:induction false} GetsKeepOneCopy(p: Pool, gets: seq<(Caller, bool)>, c: Conn)
    requires OneCopy(p, c)
    ensures OneCopy(AfterGets(p, gets), c)
    decreases |gets|
  {
    hide PoolGet, OneCopy;
    if gets != [] {
      GetKeepsOneCopy(p, gets[0].0, gets[0].1, c);
      GetsKeepOneCopy(PoolGet(p, gets[0].0, gets[0].1), gets[1..], c);
    }
  }

  /** Exactly when the next callers can come to share a connection after a stray release of
      it: when somebody still had it checked out. */
  lemma StrayReleaseSharesExactlyWhen(p: Pool, name: string, c: Conn)
    requires PoolInv(p, name) && (c.pool == name ==> c.id < p.core.made)
    ensures CanShare(Stray(p, c), c) <==> HeldBySome(p, c)
  {
    var q := Stray(p, c);
    if h :| h in p.held && h.1 == c {
      assert q.core.free[|p.core.free|] == c;
      assert (h.0, c) in q.held;
      ThiefReaches(q, h.0, h.0 + 1, c, |p.core.free|);
    } else if CanShare(q, c) {
      assert OneCopy(q, c);
      var gets :| LegalGets(q, gets) && Shared(AfterGets(q, gets), c);
      GetsKeepOneCopy(q, gets, c);
    }
  }
}
